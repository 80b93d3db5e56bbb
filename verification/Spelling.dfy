/**
 Spelling of proposition tokens: `canonical_form` and `_negation_counterpart` of server/api.py, on
 ASCII text, where NFC changes nothing and `\w` is letters, digits and the underscore.
 */
module Spelling {

  const RETRACTED := "RETRACTED"
  const NEGATION_PREFIX := "not:"

  predicate Negated(t: string) {
    NEGATION_PREFIX <= t
  }

  // ---------------------------------------------------------------- the steps

  predicate Blank(c: char) {
    9 <= c as int <= 13 || 28 <= c as int <= 32
  }

  function TrimLeft(s: string): string {
    if s != "" && Blank(s[0]) then TrimLeft(s[1..]) else s
  }

  function TrimRight(s: string): string {
    if s != "" && Blank(s[|s| - 1]) then TrimRight(s[..|s| - 1]) else s
  }

  function LowerChar(c: char): char {
    if 'A' <= c <= 'Z' then (c as int + 32) as char else c
  }

  function Lower(s: string): string {
    if s == "" then "" else [LowerChar(s[0])] + Lower(s[1..])
  }

  /** A character a slug may keep. */
  predicate Kept(c: char) {
    'a' <= c <= 'z' || 'A' <= c <= 'Z' || '0' <= c <= '9' || c == '_' || c == ':'
  }

  /** Each run of other characters becomes one underscore; `inRun` when one has just been written. */
  function SubPunctuation(s: string, inRun: bool): string {
    if s == "" then ""
    else if Kept(s[0]) then [s[0]] + SubPunctuation(s[1..], false)
    else (if inRun then "" else "_") + SubPunctuation(s[1..], true)
  }

  /** Each run of underscores becomes one. */
  function SubRuns(s: string, inRun: bool): string {
    if s == "" then ""
    else if s[0] != '_' then [s[0]] + SubRuns(s[1..], false)
    else (if inRun then "" else "_") + SubRuns(s[1..], true)
  }

  function DropLeft(s: string): string {
    if s != "" && s[0] == '_' then DropLeft(s[1..]) else s
  }

  function DropRight(s: string): string {
    if s != "" && s[|s| - 1] == '_' then DropRight(s[..|s| - 1]) else s
  }

  function Slug(body: string): string {
    DropRight(DropLeft(SubRuns(SubPunctuation(Lower(TrimRight(TrimLeft(body))), false), false)))
  }

  function CanonicalForm(proposition: string): string {
    if proposition == RETRACTED then proposition
    else
      var body := if Negated(proposition) then proposition[4..] else proposition;
      var slug := Slug(body);
      if slug == "" then proposition
      else if Negated(proposition) then NEGATION_PREFIX + slug
      else slug
  }

  // ---------------------------------------------------------------- what a slug looks like

  predicate Plain(c: char) {
    'a' <= c <= 'z' || '0' <= c <= '9' || c == '_' || c == ':'
  }

  predicate AllPlain(s: string) {
    forall i :: 0 <= i < |s| ==> Plain(s[i])
  }

  predicate NoRuns(s: string) {
    forall i :: 0 <= i < |s| - 1 ==> !(s[i] == '_' && s[i + 1] == '_')
  }

  /** Lowercase, single underscores, none at either end. */
  predicate Settled(s: string) {
    AllPlain(s) && NoRuns(s) && (s != "" ==> s[0] != '_' && s[|s| - 1] != '_')
  }

  predicate NoUpper(s: string) {
    forall i :: 0 <= i < |s| ==> !('A' <= s[i] <= 'Z')
  }

  lemma {:induction false} LowerHasNoUpper(s: string)
    ensures NoUpper(Lower(s))
  {
    if s != "" {
      LowerHasNoUpper(s[1..]);
    }
  }

  lemma {:induction false} PunctuationGoes(s: string, inRun: bool)
    requires NoUpper(s)
    ensures AllPlain(SubPunctuation(s, inRun))
  {
    if s != "" {
      PunctuationGoes(s[1..], !Kept(s[0]));
    }
  }

  lemma {:induction false} RunsGo(s: string, inRun: bool)
    requires AllPlain(s)
    ensures var t := SubRuns(s, inRun); AllPlain(t) && NoRuns(t) && (inRun && t != "" ==> t[0] != '_')
  {
    if s != "" {
      RunsGo(s[1..], s[0] == '_');
    }
  }

  lemma {:induction false} LeftGoes(s: string)
    requires AllPlain(s) && NoRuns(s)
    ensures var t := DropLeft(s); AllPlain(t) && NoRuns(t) && (t != "" ==> t[0] != '_')
  {
    if s != "" && s[0] == '_' {
      assert forall i :: 0 <= i < |s| - 1 ==> s[1..][i] == s[i + 1];
      LeftGoes(s[1..]);
    }
  }

  lemma {:induction false} RightGoes(s: string)
    requires AllPlain(s) && NoRuns(s) && (s != "" ==> s[0] != '_')
    ensures Settled(DropRight(s))
  {
    if s != "" && s[|s| - 1] == '_' {
      RightGoes(s[..|s| - 1]);
    }
  }

  lemma SlugIsSettled(body: string)
    ensures Settled(Slug(body))
  {
    var lower := Lower(TrimRight(TrimLeft(body)));
    LowerHasNoUpper(TrimRight(TrimLeft(body)));
    var a := SubPunctuation(lower, false);
    PunctuationGoes(lower, false);
    var b := SubRuns(a, false);
    RunsGo(a, false);
    LeftGoes(b);
    RightGoes(DropLeft(b));
  }

  // ---------------------------------------------------------------- a slug is left alone

  lemma {:induction false} LowerStays(s: string)
    requires AllPlain(s)
    ensures Lower(s) == s
  {
    if s != "" {
      assert Plain(s[0]);
      LowerStays(s[1..]);
    }
  }

  lemma {:induction false} PunctuationStays(s: string)
    requires AllPlain(s)
    ensures SubPunctuation(s, false) == s
  {
    if s != "" {
      assert Plain(s[0]);
      PunctuationStays(s[1..]);
    }
  }

  lemma {:induction false} RunsStay(s: string, inRun: bool)
    requires NoRuns(s) && (inRun && s != "" ==> s[0] != '_')
    ensures SubRuns(s, inRun) == s
  {
    if s != "" {
      assert forall i :: 0 <= i < |s| - 1 ==> s[1..][i] == s[i + 1];
      RunsStay(s[1..], s[0] == '_');
    }
  }

  lemma TrimsStay(s: string)
    requires AllPlain(s)
    ensures TrimRight(TrimLeft(s)) == s
  {
    assert s != "" ==> Plain(s[0]) && Plain(s[|s| - 1]);
  }

  lemma SettledStays(s: string)
    requires Settled(s)
    ensures Slug(s) == s
  {
    TrimsStay(s);
    LowerStays(s);
    PunctuationStays(s);
    RunsStay(s, false);
  }

  // ---------------------------------------------------------------- applying it twice

  /** The one case where a second application changes the spelling again. */
  predicate HidesANegation(p: string) {
    p != RETRACTED && !Negated(p) && "not:_" <= Slug(p)
  }

  lemma NegatedSlug(slug: string)
    requires Settled(slug) && slug != ""
    ensures CanonicalForm(NEGATION_PREFIX + slug) == NEGATION_PREFIX + slug
  {
    hide Slug, Settled;
    var q := NEGATION_PREFIX + slug;
    assert q[4..] == slug && Negated(q);
    SettledStays(slug);
  }

  lemma UnderNegation(t: string)
    ensures "not:_" <= t <==> Negated(t) && |t| > 4 && t[4] == '_'
  {
    assert "not:_" == NEGATION_PREFIX + "_";
  }

  /** A slug that itself begins with the negation prefix. */
  lemma BareNegation(slug: string)
    requires Settled(slug) && Negated(slug)
    ensures "not:_" <= slug ==> Slug(slug[4..]) == slug[5..] && slug[5..] != "" && Settled(slug[5..])
    ensures !("not:_" <= slug) ==> Slug(slug[4..]) == slug[4..]
  {
    var rest := slug[4..];
    UnderNegation(slug);
    SuffixPlain(slug, 4);
    if "not:_" <= slug {
      assert rest[0] == slug[4] == '_';
      SuffixPlain(slug, 5);
      assert slug[5..] == rest[1..];
      assert slug[|slug| - 1] != '_';
      assert rest[1] != '_' by {
        assert rest[1] == slug[5];
      }
      SettledTail(slug);
      DroppedUnderscore(rest);
    } else {
      assert rest != "" ==> rest[0] == slug[4];
      assert rest != "" ==> rest[|rest| - 1] == slug[|slug| - 1];
      SettledStays(rest);
    }
  }

  lemma SuffixPlain(s: string, n: nat)
    requires AllPlain(s) && NoRuns(s) && n <= |s|
    ensures AllPlain(s[n..]) && NoRuns(s[n..])
  {
    assert forall i :: 0 <= i < |s| - n ==> s[n..][i] == s[i + n];
  }

  lemma SettledTail(slug: string)
    requires Settled(slug) && |slug| > 5 && slug[4] == '_'
    ensures Settled(slug[5..])
  {
    SuffixPlain(slug, 5);
    assert slug[5..][|slug| - 6] == slug[|slug| - 1];
    assert slug[5..][0] == slug[5];
  }

  lemma DroppedUnderscore(rest: string)
    requires AllPlain(rest) && NoRuns(rest) && |rest| > 1 && rest[0] == '_' && Settled(rest[1..])
    ensures Slug(rest) == rest[1..]
  {
    TrimsStay(rest);
    LowerStays(rest);
    PunctuationStays(rest);
    RunsStay(rest, false);
    var t := rest[1..];
    assert t[0] != '_' && t[|t| - 1] != '_';
    assert DropLeft(rest) == t;
  }

  lemma Cases(p: string)
    ensures var q := CanonicalForm(p);
            || q == p
            || (Negated(p) && exists slug :: Settled(slug) && slug != "" && q == NEGATION_PREFIX + slug)
            || (!Negated(p) && p != RETRACTED && q == Slug(p) && Settled(q) && q != "")
  {
    hide Slug, Settled;
    SlugIsSettled(if Negated(p) then p[4..] else p);
  }

  /** One application settles the spelling, except where the slug it makes begins `not:_`. */
  lemma OnceSettlesIff(p: string)
    ensures CanonicalForm(CanonicalForm(p)) == CanonicalForm(p) <==> !HidesANegation(p)
  {
    var q := CanonicalForm(p);
    Cases(p);
    hide Slug, Settled;
    if !Negated(p) && p != RETRACTED && q == Slug(p) && Settled(q) && q != "" {
      AfterSlug(q);
    } else if q == p {
      NotHidden(p);
    } else {
      var slug :| Settled(slug) && slug != "" && q == NEGATION_PREFIX + slug;
      NegatedSlug(slug);
    }
  }

  lemma AfterSlug(q: string)
    requires Settled(q) && q != ""
    ensures "not:_" <= q ==> q[5..] != "" && Settled(q[5..]) && CanonicalForm(q) == NEGATION_PREFIX + q[5..] && CanonicalForm(q) != q
    ensures !("not:_" <= q) ==> CanonicalForm(q) == q
  {
    NotTheMarker(q);
    UnderNegation(q);
    if Negated(q) {
      BareNegation(q);
      hide Slug, Settled;
      assert q == NEGATION_PREFIX + q[4..];
    } else {
      SettledStays(q);
    }
  }

  lemma NotTheMarker(q: string)
    requires Settled(q)
    ensures q != RETRACTED
  {
    assert q != "" ==> Plain(q[0]);
    assert RETRACTED[0] == 'R';
  }

  lemma NotHidden(p: string)
    requires CanonicalForm(p) == p
    ensures !HidesANegation(p)
  {
    hide Slug;
    UnderNegation(p);
  }

  /** Two applications always do. */
  lemma TwiceSettles(p: string)
    ensures CanonicalForm(CanonicalForm(CanonicalForm(p))) == CanonicalForm(CanonicalForm(p))
  {
    var q := CanonicalForm(p);
    Cases(p);
    OnceSettlesIff(p);
    hide Slug, Settled;
    if HidesANegation(p) {
      AfterSlug(q);
      NegatedSlug(q[5..]);
    }
  }
}
