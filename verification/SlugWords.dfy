/** What spelling keeps of a proposition: its words, and nothing of case, punctuation or spacing. */
module SlugWords {
  import opened Spelling

  // ---------------------------------------------------------------- words

  /** Letters, digits and colons make words; everything else only keeps them apart. */
  predicate InWord(c: char) {
    'a' <= c <= 'z' || 'A' <= c <= 'Z' || '0' <= c <= '9' || c == ':'
  }

  const ALPHABET := "abcdefghijklmnopqrstuvwxyz"

  function SmallLetter(c: char): char {
    if 'A' <= c <= 'Z' then ALPHABET[c as int - 'A' as int] else c
  }

  /** The words of a text in small letters, `w` being what has been read of the first. */
  function WordsOf(s: string, w: string): seq<string> {
    if s == "" then (if w == "" then [] else [w])
    else if InWord(s[0]) then WordsOf(s[1..], w + [SmallLetter(s[0])])
    else (if w == "" then [] else [w]) + WordsOf(s[1..], "")
  }

  function Joined(words: seq<string>): string {
    if words == [] then ""
    else if |words| == 1 then words[0]
    else words[0] + "_" + Joined(words[1..])
  }

  // ---------------------------------------------------------------- the steps, in one pass

  /** Each run of separators becomes one underscore. */
  function Collapse(s: string, inRun: bool): string {
    if s == "" then ""
    else if InWord(s[0]) then [s[0]] + Collapse(s[1..], false)
    else (if inRun then "" else "_") + Collapse(s[1..], true)
  }

  lemma {:induction false} TwoPasses(s: string, r: bool, inRun: bool)
    requires r ==> inRun
    ensures SubRuns(SubPunctuation(s, r), inRun) == Collapse(s, inRun)
  {
    if s != "" {
      if Kept(s[0]) {
        TwoPasses(s[1..], false, s[0] == '_');
        var t := SubPunctuation(s, r);
        assert t[0] == s[0] && t[1..] == SubPunctuation(s[1..], false);
      } else {
        TwoPasses(s[1..], true, true);
        var t := SubPunctuation(s, r);
        assert !r ==> t[0] == '_' && t[1..] == SubPunctuation(s[1..], true);
        assert r ==> t == SubPunctuation(s[1..], true);
      }
    }
  }

  lemma {:induction false} NoUnderscoreFirst(s: string)
    ensures Collapse(s, true) != "" ==> Collapse(s, true)[0] != '_'
  {
    if s != "" {
      NoUnderscoreFirst(s[1..]);
    }
  }

  lemma LeftDropped(s: string)
    ensures DropLeft(Collapse(s, false)) == Collapse(s, true)
  {
    NoUnderscoreFirst(s);
    if s != "" && !InWord(s[0]) {
      NoUnderscoreFirst(s[1..]);
      assert Collapse(s, false)[1..] == Collapse(s[1..], true);
    }
  }

  lemma {:induction false} RightDropped(a: string, x: string)
    ensures DropRight(a + x) == if DropRight(x) == "" then DropRight(a) else a + DropRight(x)
    decreases |x|
  {
    if x == "" {
      assert a + x == a;
    } else if x[|x| - 1] == '_' {
      assert (a + x)[..|a + x| - 1] == a + x[..|x| - 1];
      RightDropped(a, x[..|x| - 1]);
    }
  }

  predicate AWord(w: string) {
    w != "" && forall i :: 0 <= i < |w| ==> InWord(w[i]) && SmallLetter(w[i]) == w[i]
  }

  lemma WordKept(w: string)
    requires AWord(w)
    ensures DropRight(w) == w && DropRight(w + "_") == w
  {
    assert (w + "_")[..|w|] == w;
    assert InWord(w[|w| - 1]);
  }

  predicate Small(s: string) {
    forall i :: 0 <= i < |s| ==> SmallLetter(s[i]) == s[i]
  }

  lemma WordGrows(w: string, c: char)
    requires (w == "" || AWord(w)) && InWord(c)
    ensures SmallLetter(c) == c ==> AWord(w + [c])
    ensures AWord(w + [SmallLetter(c)])
  {
    LetterIsSmall(c);
    hide LowerChar;
  }

  lemma SmallRest(s: string)
    requires Small(s) && s != ""
    ensures SmallLetter(s[0]) == s[0] && Small(s[1..])
  {
    hide SmallLetter;
  }

  lemma WordsEnd(w: string)
    requires w == "" || AWord(w)
    ensures DropRight(w + Collapse("", w == "")) == Joined(WordsOf("", w))
  {
    assert w + "" == w;
    if w != "" {
      WordKept(w);
    }
  }

  /** One pass over small letters writes the words with underscores between, and one at the end to drop. */
  lemma {:induction false} CollapsedWords(s: string, w: string)
    requires Small(s) && (w == "" || AWord(w))
    ensures DropRight(w + Collapse(s, w == "")) == Joined(WordsOf(s, w))
    decreases |s|
  {
    hide Small, AWord, InWord, SmallLetter, DropRight, Joined;
    if s == "" {
      WordsEnd(w);
    } else {
      SmallRest(s);
      if InWord(s[0]) {
        WordGrows(w, s[0]);
        CollapsedWords(s[1..], w + [s[0]]);
        assert w + ([s[0]] + Collapse(s[1..], false)) == w + [s[0]] + Collapse(s[1..], false);
      } else {
        CollapsedWords(s[1..], "");
        var x := Collapse(s[1..], true);
        assert "" + x == x;
        if w == "" {
          assert [] + WordsOf(s[1..], "") == WordsOf(s[1..], "");
        } else {
          AreWords(s[1..], "");
          WordThenRest(w, x, WordsOf(s[1..], ""));
          assert w + ("_" + x) == w + "_" + x;
        }
      }
    }
  }

  lemma {:induction false} AreWords(s: string, w: string)
    requires w == "" || AWord(w)
    ensures forall v :: v in WordsOf(s, w) ==> AWord(v)
    decreases |s|
  {
    hide AWord, SmallLetter;
    if s != "" {
      if InWord(s[0]) {
        WordGrows(w, s[0]);
        AreWords(s[1..], w + [SmallLetter(s[0])]);
      } else {
        AreWords(s[1..], "");
      }
    }
  }

  lemma WordThenRest(w: string, x: string, words: seq<string>)
    requires AWord(w) && DropRight(x) == Joined(words) && forall v :: v in words ==> AWord(v)
    ensures DropRight(w + "_" + x) == Joined([w] + words)
  {
    RightDropped(w + "_", x);
    WordKept(w);
    assert ([w] + words)[1..] == words;
    if words != [] {
      assert words[0] in words;
      assert Joined(words) != "";
    }
  }

  // ---------------------------------------------------------------- case and spacing

  lemma {:induction false} LowerIsSmall(s: string)
    ensures Small(Lower(s)) && |Lower(s)| == |s|
    ensures forall w :: WordsOf(Lower(s), w) == WordsOf(s, w)
  {
    if s != "" {
      LowerIsSmall(s[1..]);
      LetterIsSmall(s[0]);
      hide LowerChar, SmallLetter, InWord;
      assert Lower(s)[1..] == Lower(s[1..]);
    }
  }

  lemma LetterIsSmall(c: char)
    ensures LowerChar(c) == SmallLetter(c) && SmallLetter(SmallLetter(c)) == SmallLetter(c)
    ensures InWord(LowerChar(c)) == InWord(c)
  {
  }

  lemma {:induction false} LeftTrimmed(s: string)
    ensures WordsOf(TrimLeft(s), "") == WordsOf(s, "")
  {
    if s != "" && Blank(s[0]) {
      LeftTrimmed(s[1..]);
      assert [] + WordsOf(s[1..], "") == WordsOf(s[1..], "");
    }
  }

  lemma {:induction false} LastSeparator(s: string, w: string)
    requires s != "" && !InWord(s[|s| - 1])
    ensures WordsOf(s[..|s| - 1], w) == WordsOf(s, w)
    decreases |s|
  {
    var n := |s| - 1;
    if n == 0 {
      assert s[..n] == "" && s[1..] == "";
    } else {
      assert s[..n][1..] == s[1..][..n - 1] && s[1..][n - 1] == s[n];
      LastSeparator(s[1..], if InWord(s[0]) then w + [SmallLetter(s[0])] else "");
    }
  }

  lemma {:induction false} RightTrimmed(s: string, w: string)
    ensures WordsOf(TrimRight(s), w) == WordsOf(s, w)
    decreases |s|
  {
    if s != "" && Blank(s[|s| - 1]) {
      RightTrimmed(s[..|s| - 1], w);
      LastSeparator(s, w);
    }
  }

  // ---------------------------------------------------------------- main results

  /** A slug is the words of the text in small letters, joined by underscores. */
  lemma SlugIsItsWords(body: string)
    ensures Slug(body) == Joined(WordsOf(body, ""))
  {
    var trimmed := TrimRight(TrimLeft(body));
    var lower := Lower(trimmed);
    LeftTrimmed(body);
    RightTrimmed(TrimLeft(body), "");
    LowerIsSmall(trimmed);
    TwoPasses(lower, false, false);
    LeftDropped(lower);
    CollapsedWords(lower, "");
    assert "" + Collapse(lower, true) == Collapse(lower, true);
  }

  lemma {:induction false} JoinedApart(a: seq<string>, b: seq<string>)
    requires (forall v :: v in a ==> AWord(v)) && (forall v :: v in b ==> AWord(v)) && Joined(a) == Joined(b)
    ensures a == b
  {
    if a == [] || b == [] {
      SomethingJoined(a);
      SomethingJoined(b);
    } else {
      FirstWord(a);
      FirstWord(b);
      assert |a[0]| == |b[0]|;
      var t := Joined(a);
      if |a| > 1 {
        JoinedApart(a[1..], b[1..]);
      }
      assert a == [a[0]] + a[1..] && b == [b[0]] + b[1..];
    }
  }

  lemma SomethingJoined(a: seq<string>)
    requires forall v :: v in a ==> AWord(v)
    ensures Joined(a) == "" <==> a == []
  {
    if a != [] {
      assert a[0] in a;
    }
  }

  lemma FirstWord(a: seq<string>)
    requires a != [] && forall v :: v in a ==> AWord(v)
    ensures var w, t := a[0], Joined(a);
            && |w| <= |t| && t[..|w|] == w && (forall i :: 0 <= i < |w| ==> t[i] != '_')
            && (|w| == |t| <==> |a| == 1) && (|a| > 1 ==> t[|w|] == '_' && t[|w| + 1..] == Joined(a[1..]))
  {
    var w, t := a[0], Joined(a);
    assert a[0] in a;
    if |a| > 1 {
      assert t == w + "_" + Joined(a[1..]);
    }
    forall i | 0 <= i < |w|
      ensures t[i] != '_'
    {
      assert InWord(w[i]) && t[i] == w[i];
    }
  }

  /** Two texts have one slug exactly when they have the same words: case and what stands between do not count. */
  lemma SameSlugIff(a: string, b: string)
    ensures Slug(a) == Slug(b) <==> WordsOf(a, "") == WordsOf(b, "")
  {
    hide Slug;
    SlugIsItsWords(a);
    SlugIsItsWords(b);
    AreWords(a, "");
    AreWords(b, "");
    if Slug(a) == Slug(b) {
      JoinedApart(WordsOf(a, ""), WordsOf(b, ""));
    }
  }

  /** The canonical form: the words, behind the denial if there is one; and the text itself if it has no words or is reserved. */
  lemma FormIsItsWords(p: string)
    ensures var denied := |p| >= 4 && p[..4] == "not:";
            var words := WordsOf(if denied then p[4..] else p, "");
            CanonicalForm(p) == if p == "RETRACTED" || words == [] then p else (if denied then "not:" else "") + Joined(words)
  {
    hide *;
    IsDenial(p);
    var body := if Negated(p) then p[4..] else p;
    SlugIsItsWords(body);
    AreWords(body, "");
    SomethingJoined(WordsOf(body, ""));
    FormUnfolds(p);
  }

  lemma FormUnfolds(p: string)
    ensures Negated(p) ==> |p| >= 4
    ensures var slug := Slug(if Negated(p) then p[4..] else p);
            CanonicalForm(p) == if p == "RETRACTED" || slug == "" then p else (if Negated(p) then "not:" else "") + slug
  {
    hide Slug;
  }

  lemma IsDenial(p: string)
    ensures Negated(p) <==> |p| >= 4 && p[..4] == "not:"
  {
  }

  /** So spellings of one claim, both denied or both not, become one token. */
  lemma OneSpelling(p: string, q: string)
    requires p != "RETRACTED" && q != "RETRACTED" && (Negated(p) <==> Negated(q))
    requires var a, b := if Negated(p) then p[4..] else p, if Negated(q) then q[4..] else q;
             WordsOf(a, "") == WordsOf(b, "") != []
    ensures CanonicalForm(p) == CanonicalForm(q)
  {
    hide *;
    FormIsItsWords(p);
    FormIsItsWords(q);
    IsDenial(p);
    IsDenial(q);
  }
}
