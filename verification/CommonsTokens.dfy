/**
 The tokens a commons pattern may be built from. The contributor's script and the collector each
 carry a copy of these checks and of the closed vocabulary, which is a parameter here.
 */
module CommonsTokens {
  import opened Wrappers

  type Lexicon = set<string>

  const NEGATION := "not:"
  const MAX_TOKEN_LEN := 64

  predicate Negated(t: string) {
    NEGATION <= t
  }

  function Bare(t: string): string {
    if Negated(t) then t[4..] else t
  }

  function Opposite(t: string): string {
    if Negated(t) then t[4..] else NEGATION + t
  }

  predicate Letter(c: char) {
    'a' <= c <= 'z' || c == '_'
  }

  predicate Digit(c: char) {
    '0' <= c <= '9'
  }

  /** A token that could name someone or carry a value. */
  predicate Identifying(t: string) {
    var b := Bare(t);
    || "rel_" <= b
    || ':' in b
    || (exists c :: c in b && Digit(c))
    || b == ""
    || (exists c :: c in b && !Letter(c))
  }

  /** What stands between underscores, empty words included. */
  function Words(t: string): seq<string> {
    if t == "" then [""]
    else
      var rest := Words(t[1..]);
      if t[0] == '_' then [""] + rest else [[t[0]] + rest[0]] + rest[1..]
  }

  function FirstForeign(lexicon: Lexicon, words: seq<string>): Option<string> {
    if words == [] then None
    else if words[0] != "" && words[0] !in lexicon then Some(words[0])
    else FirstForeign(lexicon, words[1..])
  }

  function ForeignWord(lexicon: Lexicon, t: string): Option<string> {
    FirstForeign(lexicon, Words(Bare(t)))
  }

  predicate Allowed(lexicon: Lexicon, t: string) {
    t != "" && |t| <= MAX_TOKEN_LEN && !Identifying(t) && ForeignWord(lexicon, t).None?
  }

  /** A token's opposite has the token as its opposite. */
  lemma OppositeTwice(lexicon: Lexicon, t: string)
    requires Allowed(lexicon, t)
    ensures Opposite(Opposite(t)) == t && Opposite(t) != t && Bare(Opposite(t)) == Bare(t)
  {
    hide ForeignWord;
    NegationHasColon(Bare(t));
    if !Negated(t) {
      assert Negated(NEGATION + t) && (NEGATION + t)[4..] == t;
    }
  }

  lemma NegationHasColon(t: string)
    ensures Negated(t) ==> ':' in t
  {
    if Negated(t) {
      assert t[3] == ':';
    }
  }

  // ---------------------------------------------------------------- what is allowed, without the checks

  /** A longest run of anything but underscores. */
  predicate Stretch(t: string, i: int, j: int) {
    0 <= i < j <= |t| && '_' !in t[i..j] && (i == 0 || t[i - 1] == '_') && (j == |t| || t[j] == '_')
  }

  ghost predicate Worded(lexicon: Lexicon, t: string) {
    forall i, j :: Stretch(t, i, j) ==> t[i..j] in lexicon
  }

  lemma {:induction false} FirstWord(t: string) returns (k: nat)
    ensures k <= |t| && '_' !in t[..k] && (k < |t| ==> t[k] == '_')
    ensures Words(t) == [t[..k]] + if k < |t| then Words(t[k + 1..]) else []
  {
    if t == "" || t[0] == '_' {
      k := 0;
    } else {
      var n := FirstWord(t[1..]);
      k := n + 1;
      assert t[..k] == [t[0]] + t[1..][..n];
      assert n < |t| - 1 ==> t[1..][n + 1..] == t[k + 1..];
    }
  }

  lemma AfterBreak(lexicon: Lexicon, t: string, k: nat)
    requires k < |t| && '_' !in t[..k] && t[k] == '_'
    ensures Worded(lexicon, t) <==> (k == 0 || t[..k] in lexicon) && Worded(lexicon, t[k + 1..])
  {
    var u := t[k + 1..];
    assert forall n :: 0 <= n < |u| ==> u[n] == t[n + k + 1];
    assert forall n :: 0 <= n < k ==> t[n] != '_' by {
      assert forall n :: 0 <= n < k ==> t[..k][n] == t[n];
    }
    forall i, j | Stretch(u, i, j)
      ensures Stretch(t, i + k + 1, j + k + 1) && u[i..j] == t[i + k + 1..j + k + 1]
    {
      assert u[i..j] == t[i + k + 1..j + k + 1];
    }
    forall i, j | Stretch(t, i, j)
      ensures (i == 0 && j == k && t[i..j] == t[..k]) || (i > k && Stretch(u, i - k - 1, j - k - 1) && u[i - k - 1..j - k - 1] == t[i..j])
    {
      assert forall n :: i <= n < j ==> t[i..j][n - i] == t[n];
      if i > k {
        assert u[i - k - 1..j - k - 1] == t[i..j];
      }
    }
    if k > 0 {
      assert t[0..k] == t[..k];
      assert Stretch(t, 0, k);
    }
  }

  lemma OneStretch(lexicon: Lexicon, t: string)
    requires '_' !in t
    ensures Worded(lexicon, t) <==> t == "" || t in lexicon
  {
    assert forall n :: 0 <= n < |t| ==> t[n] != '_';
    assert t[0..|t|] == t;
    assert t != "" ==> Stretch(t, 0, |t|);
    assert forall i, j :: Stretch(t, i, j) ==> i == 0 && j == |t|;
  }

  /** No word is foreign exactly when every run between underscores is in the vocabulary. */
  lemma {:induction false} NoForeignIff(lexicon: Lexicon, t: string)
    ensures FirstForeign(lexicon, Words(t)).None? <==> Worded(lexicon, t)
    decreases |t|
  {
    var k := FirstWord(t);
    hide Words, Worded, Stretch;
    if k < |t| {
      AfterBreak(lexicon, t, k);
      NoForeignIff(lexicon, t[k + 1..]);
    } else {
      assert t[..k] == t;
      OneStretch(lexicon, t);
    }
    assert Words(t)[1..] == if k < |t| then Words(t[k + 1..]) else [];
  }

  /** A word refused is one the token has and the vocabulary has not. */
  lemma {:induction false} ForeignIsThere(lexicon: Lexicon, words: seq<string>)
    requires FirstForeign(lexicon, words).Some?
    ensures var w := FirstForeign(lexicon, words).value; w in words && w != "" && w !in lexicon
  {
    if words[0] == "" || words[0] in lexicon {
      ForeignIsThere(lexicon, words[1..]);
    }
  }

  /**
   A token is allowed exactly when it is short, is not a relation, is of small letters and underscores,
   and every run of letters in it is in the vocabulary, one leading `not:` aside.
   */
  lemma AllowedIff(lexicon: Lexicon, t: string)
    ensures var b := if |t| >= 4 && t[..4] == "not:" then t[4..] else t;
            Allowed(lexicon, t) <==>
              && b != "" && |t| <= 64 && !(|b| >= 4 && b[..4] == "rel_")
              && (forall i :: 0 <= i < |b| ==> b[i] == '_' || 'a' <= b[i] <= 'z')
              && Worded(lexicon, b)
  {
    var b := Bare(t);
    NoForeignIff(lexicon, b);
    hide Worded, Words, FirstForeign;
    assert Negated(t) <==> |t| >= 4 && t[..4] == "not:";
    assert "rel_" <= b <==> |b| >= 4 && b[..4] == "rel_";
    assert forall i :: 0 <= i < |b| ==> b[i] in b;
    assert forall i :: 0 <= i < |b| && Letter(b[i]) ==> b[i] != ':' && !Digit(b[i]);
    assert (exists i :: 0 <= i < |b| && !Letter(b[i])) ==> Identifying(t);
  }
}
