/**
 The standalone contributor, scripts/commons_contribute.py: observations in, counts out.
 */
module Contribution {
  import opened Wrappers
  import opened Json
  import opened CanonicalForm
  import opened Ordering
  import opened CommonsTokens
  import opened Wilson
  import TestimonyRecord

  const PRIOR_FLOOR_N := 3
  const PRIOR_MIN_RATE := 0.6
  const PRIOR_MIN_LIFT := 0.10
  const MAX_PATTERNS := 500

  datatype Refusal = NoLabel | EmptyToken | TooLong | CouldName | Foreign(word: string) | HoldsBoth(token: string)

  // ---------------------------------------------------------------- in

  /** Which subjects hold each token, and every subject seen. */
  datatype Bank = Bank(held: map<string, set<string>>, subjects: set<string>)

  function Holders(b: Bank, t: string): set<string> {
    if t in b.held then b.held[t] else {}
  }

  function StripLeft(s: string): string {
    if s != "" && TestimonyRecord.Space(s[0]) then StripLeft(s[1..]) else s
  }

  function StripRight(s: string): string {
    if s != "" && TestimonyRecord.Space(s[|s| - 1]) then StripRight(s[..|s| - 1]) else s
  }

  function Strip(s: string): string {
    StripRight(StripLeft(s))
  }

  /** What is stripped is the space around a text, all of it and nothing else. */
  lemma {:induction false} StripTakesSpace(s: string) returns (i: nat, j: nat)
    ensures i <= j <= |s| && Strip(s) == s[i..j]
    ensures forall k :: 0 <= k < |s| && !(i <= k < j) ==> TestimonyRecord.Space(s[k])
    ensures i < j ==> !TestimonyRecord.Space(s[i]) && !TestimonyRecord.Space(s[j - 1])
  {
    hide TestimonyRecord.Space;
    if s == "" {
      i, j := 0, 0;
    } else if TestimonyRecord.Space(s[0]) {
      var a, b := StripTakesSpace(s[1..]);
      i, j := a + 1, b + 1;
      assert s[1..][a..b] == s[i..j];
      assert forall k :: 1 <= k < |s| ==> s[k] == s[1..][k - 1];
    } else {
      i := 0;
      j := StripRightEnds(s);
    }
  }

  lemma {:induction false} StripRightEnds(s: string) returns (j: nat)
    ensures j <= |s| && StripRight(s) == s[..j]
    ensures forall k :: j <= k < |s| ==> TestimonyRecord.Space(s[k])
    ensures j > 0 ==> !TestimonyRecord.Space(s[j - 1])
  {
    hide TestimonyRecord.Space;
    j := |s|;
    if s != "" && TestimonyRecord.Space(s[|s| - 1]) {
      j := StripRightEnds(s[..|s| - 1]);
      assert s[..|s| - 1][..j] == s[..j];
      assert forall k :: 0 <= k < |s| - 1 ==> s[k] == s[..|s| - 1][k];
    }
  }

  function CheckToken(lexicon: Lexicon, t: string): Result<string, Refusal> {
    if t == "" then Err(EmptyToken)
    else if |t| > MAX_TOKEN_LEN then Err(TooLong)
    else if Identifying(t) then Err(CouldName)
    else if ForeignWord(lexicon, t).Some? then Err(Foreign(ForeignWord(lexicon, t).value))
    else Ok(t)
  }

  function Add(b: Bank, s: string, t: string): Bank {
    Bank(b.held[t := Holders(b, t) + {s}], b.subjects + {s})
  }

  function ObserveOne(lexicon: Lexicon, b: Bank, s: string, word: string): Result<Bank, Refusal> {
    var t :- CheckToken(lexicon, Strip(word));
    if s in Holders(b, Opposite(t)) then Err(HoldsBoth(t)) else Ok(Add(b, s, t))
  }

  /** What a call keeps before it is refused stays. */
  function Observed(lexicon: Lexicon, b: Bank, s: string, words: seq<string>): (Bank, Option<Refusal>)
    decreases words
  {
    if words == [] then (b, None)
    else
      match ObserveOne(lexicon, b, s, words[0])
      case Err(why) => (b, Some(why))
      case Ok(b1) => Observed(lexicon, b1, s, words[1..])
  }

  function Recorded(lexicon: Lexicon, b: Bank, s: string, words: seq<string>): (Bank, Option<Refusal>) {
    if s == "" then (b, Some(NoLabel)) else Observed(lexicon, b, s, words)
  }

  datatype Observation = Observation(subject: string, words: seq<string>)

  const NOTHING := Bank(map[], {})

  function Run(lexicon: Lexicon, calls: seq<Observation>): Bank {
    if calls == [] then NOTHING
    else
      var last := calls[|calls| - 1];
      Recorded(lexicon, Run(lexicon, calls[..|calls| - 1]), last.subject, last.words).0
  }

  // ---------------------------------------------------------------- what a call comes to

  /** The token is among the first `n` given. */
  ghost predicate Among(words: seq<string>, n: nat, t: string)
    requires n <= |words|
  {
    exists i :: 0 <= i < n && Strip(words[i]) == t
  }

  /** The token could be taken up by a subject who holds `b` and the tokens before it. */
  ghost predicate Takes(lexicon: Lexicon, b: Bank, s: string, words: seq<string>, i: nat)
    requires i < |words|
  {
    var t := Strip(words[i]);
    Allowed(lexicon, t) && s !in Holders(b, Opposite(t)) && !Among(words, i, Opposite(t))
  }

  lemma OneTaken(lexicon: Lexicon, b: Bank, s: string, words: seq<string>)
    requires words != []
    ensures ObserveOne(lexicon, b, s, words[0]).Ok? <==> Takes(lexicon, b, s, words, 0)
    ensures ObserveOne(lexicon, b, s, words[0]).Ok? ==> ObserveOne(lexicon, b, s, words[0]).value == Add(b, s, Strip(words[0]))
  {
    CheckedIsAllowed(lexicon, Strip(words[0]));
    hide Allowed, Strip, Opposite, Holders, CheckToken;
  }

  lemma AmongMore(words: seq<string>, n: nat, t: string)
    requires n < |words|
    ensures Among(words, n + 1, t) <==> Strip(words[0]) == t || Among(words[1..], n, t)
  {
    hide Strip;
    if Among(words, n + 1, t) && Strip(words[0]) != t {
      var i :| 0 <= i < n + 1 && Strip(words[i]) == t;
      assert words[1..][i - 1] == words[i];
    }
    if Among(words[1..], n, t) {
      var i :| 0 <= i < n && Strip(words[1..][i]) == t;
      assert words[i + 1] == words[1..][i];
    }
  }

  lemma TakesMore(lexicon: Lexicon, b: Bank, s: string, words: seq<string>, i: nat)
    requires i + 1 < |words|
    ensures Takes(lexicon, Add(b, s, Strip(words[0])), s, words[1..], i) <==> Takes(lexicon, b, s, words, i + 1)
  {
    hide Allowed, Strip, Opposite, Holders, Add, Among;
    var t := Strip(words[i + 1]);
    HoldersAdded(b, s, Strip(words[0]), Opposite(t));
    AmongMore(words, i, Opposite(t));
    assert words[1..][i] == words[i + 1];
  }

  /** Tokens are taken up one by one until one cannot be, and those before it stay. */
  lemma {:induction false} ObservedMeans(lexicon: Lexicon, b: Bank, s: string, words: seq<string>) returns (n: nat)
    ensures n <= |words| && (forall i :: 0 <= i < n ==> Takes(lexicon, b, s, words, i)) && (n < |words| ==> !Takes(lexicon, b, s, words, n))
    ensures var (c, why) := Observed(lexicon, b, s, words);
            && (why.None? <==> n == |words|)
            && c.subjects == b.subjects + (if n > 0 then {s} else {})
            && forall t :: Holders(c, t) == Holders(b, t) + if Among(words, n, t) then {s} else {}
    decreases words
  {
    hide Allowed, Strip, Opposite, Holders, ObserveOne, Takes, Among;
    n := 0;
    NoneAmong(words);
    if words != [] {
      OneTaken(lexicon, b, s, words);
      if Takes(lexicon, b, s, words, 0) {
        var b1, t := Add(b, s, Strip(words[0])), Strip(words[0]);
        var m := ObservedMeans(lexicon, b1, s, words[1..]);
        n := m + 1;
        forall i | 0 < i < |words|
          ensures Takes(lexicon, b1, s, words[1..], i - 1) <==> Takes(lexicon, b, s, words, i)
        {
          TakesMore(lexicon, b, s, words, i - 1);
        }
        forall u
          ensures Holders(b1, u) == Holders(b, u) + if u == t then {s} else {}
          ensures Among(words, n, u) <==> t == u || Among(words[1..], m, u)
        {
          HoldersAdded(b, s, t, u);
          AmongMore(words, m, u);
        }
      }
    }
  }

  lemma NoneAmong(words: seq<string>)
    ensures forall t :: !Among(words, 0, t)
  {
  }

  /**
   A call by somebody with a label takes up tokens until one is not allowed or is opposed by what they
   hold; a call without a label is refused and takes up none.
   */
  lemma RecordedMeans(lexicon: Lexicon, b: Bank, s: string, words: seq<string>) returns (n: nat)
    ensures n <= |words| && (s == "" ==> n == 0)
    ensures s != "" ==> (forall i :: 0 <= i < n ==> Takes(lexicon, b, s, words, i)) && (n < |words| ==> !Takes(lexicon, b, s, words, n))
    ensures var (c, why) := Recorded(lexicon, b, s, words);
            && (why.None? <==> s != "" && n == |words|)
            && c.subjects == b.subjects + (if n > 0 then {s} else {})
            && forall t :: Holders(c, t) == Holders(b, t) + if Among(words, n, t) then {s} else {}
  {
    n := 0;
    NoneAmong(words);
    hide Holders, Among, Takes, Observed;
    if s != "" {
      n := ObservedMeans(lexicon, b, s, words);
    }
  }

  // ---------------------------------------------------------------- what every run keeps

  /** Only checked tokens, each held by somebody, and nobody holding a token and its opposite. */
  ghost predicate Sound(lexicon: Lexicon, b: Bank) {
    && (forall t :: t in b.held ==> Allowed(lexicon, t))
    && (forall t :: t in b.held ==> b.held[t] != {} && b.held[t] <= b.subjects)
    && (forall t :: t in b.held ==> b.held[t] !! Holders(b, Opposite(t)))
  }

  lemma CheckedIsAllowed(lexicon: Lexicon, t: string)
    ensures CheckToken(lexicon, t).Ok? <==> Allowed(lexicon, t)
    ensures CheckToken(lexicon, t).Ok? ==> CheckToken(lexicon, t).value == t
  {
    hide Identifying, ForeignWord;
  }

  lemma AddKeepsSound(lexicon: Lexicon, b: Bank, s: string, t: string)
    requires Sound(lexicon, b) && Allowed(lexicon, t) && s !in Holders(b, Opposite(t))
    ensures Sound(lexicon, Add(b, s, t))
  {
    hide Allowed, Opposite;
    var c := Add(b, s, t);
    forall u | u in c.held
      ensures c.held[u] !! Holders(c, Opposite(u))
    {
      StillApart(lexicon, b, s, t, u);
    }
  }

  lemma StillApart(lexicon: Lexicon, b: Bank, s: string, t: string, u: string)
    requires Sound(lexicon, b) && Allowed(lexicon, t) && s !in Holders(b, Opposite(t))
    requires u in b.held || u == t
    ensures Holders(Add(b, s, t), u) !! Holders(Add(b, s, t), Opposite(u))
  {
    OppositeTwice(lexicon, t);
    OppositeTwice(lexicon, u);
    ApartBefore(lexicon, b, u);
    ApartBefore(lexicon, b, t);
    hide Allowed, Opposite, Sound;
    HoldersAdded(b, s, t, u);
    HoldersAdded(b, s, t, Opposite(u));
    hide Add, Holders;
  }

  lemma HoldersAdded(b: Bank, s: string, t: string, u: string)
    ensures Holders(Add(b, s, t), u) == Holders(b, u) + if u == t then {s} else {}
  {
  }

  lemma ApartBefore(lexicon: Lexicon, b: Bank, u: string)
    requires Sound(lexicon, b)
    ensures Holders(b, u) !! Holders(b, Opposite(u))
  {
    hide Allowed, Opposite;
  }

  lemma {:induction false} ObservedKeepsSound(lexicon: Lexicon, b: Bank, s: string, words: seq<string>)
    requires Sound(lexicon, b)
    ensures Sound(lexicon, Observed(lexicon, b, s, words).0)
    decreases words
  {
    hide Sound, CheckToken, Strip, Opposite, Holders, Add, Allowed;
    if words != [] {
      var t := Strip(words[0]);
      CheckedIsAllowed(lexicon, t);
      if ObserveOne(lexicon, b, s, words[0]).Ok? {
        AddKeepsSound(lexicon, b, s, t);
        ObservedKeepsSound(lexicon, Add(b, s, t), s, words[1..]);
      }
    }
  }

  lemma NothingIsSound(lexicon: Lexicon)
    ensures Sound(lexicon, NOTHING)
  {
  }

  /** Whatever is observed, and whatever is refused on the way. */
  lemma {:induction false} EveryRunIsSound(lexicon: Lexicon, calls: seq<Observation>)
    ensures Sound(lexicon, Run(lexicon, calls))
  {
    hide Sound, Observed;
    if calls == [] {
      NothingIsSound(lexicon);
    } else {
      var last := calls[|calls| - 1];
      EveryRunIsSound(lexicon, calls[..|calls| - 1]);
      ObservedKeepsSound(lexicon, Run(lexicon, calls[..|calls| - 1]), last.subject, last.words);
    }
  }

  // ---------------------------------------------------------------- what a pair counts

  function Support(b: Bank, p: string, q: string): nat {
    |Holders(b, p) * Holders(b, q)|
  }

  function Refute(b: Bank, p: string, q: string): nat {
    |Holders(b, p) * Holders(b, Opposite(q))|
  }

  /** How often a consequent holds among those with a position on it. */
  function Popularity(b: Bank, q: string): Option<real> {
    var yes, no := |Holders(b, Bare(q))|, |Holders(b, NEGATION + Bare(q))|;
    if yes + no == 0 then None
    else if Negated(q) then Some(1.0 - Rate(yes, yes + no))
    else Some(Rate(yes, yes + no))
  }

  /** The three tests a published pattern passes. */
  predicate Clears(root: Root, b: Bank, p: string, q: string) {
    var support, total := Support(b, p, q), Support(b, p, q) + Refute(b, p, q);
    && |Holders(b, p)| >= PRIOR_FLOOR_N
    && Bare(q) != Bare(p)
    && support >= PRIOR_FLOOR_N
    && Rate(support, total) >= PRIOR_MIN_RATE
    && Popularity(b, q).Some?
    && WilsonLower(root, support, total) >= Popularity(b, q).value + PRIOR_MIN_LIFT
  }

  /** The nearest multiple of a ten-thousandth, ties to the even one. */
  function Round4(x: real): real {
    var f := (x * 10000.0).Floor;
    var over := x * 10000.0 - f as real;
    (if over > 0.5 || (over == 0.5 && f % 2 == 1) then f + 1 else f) as real / 10000.0
  }

  /** `y` is `k` parts in `scale`, and `k` as near as an integer comes to `x` so scaled, of two as near the even one. */
  predicate NearestAt(k: int, y: real, x: real, scale: real) {
    var over := x * scale - k as real;
    y * scale == k as real && -0.5 <= over <= 0.5 && (over == 0.5 || over == -0.5 ==> k % 2 == 0)
  }

  /** `y` is `x` rounded to a multiple of one part in `scale`. */
  ghost predicate Nearest(y: real, x: real, scale: real) {
    exists k :: NearestAt(k, y, x, scale)
  }

  lemma Round4Nearest(x: real)
    ensures Nearest(Round4(x), x, 10000.0)
  {
    var f := (x * 10000.0).Floor;
    var over := x * 10000.0 - f as real;
    var k := if over > 0.5 || (over == 0.5 && f % 2 == 1) then f + 1 else f;
    assert NearestAt(k, Round4(x), x, 10000.0);
  }

  datatype Pattern = Pattern(antecedent: string, consequent: string, support: nat, refute: nat, subjects: nat, base: real)

  function RowOf(b: Bank, p: string, q: string): Pattern {
    Pattern(p, q, Support(b, p, q), Refute(b, p, q), |Holders(b, p)|,
            if Popularity(b, q).Some? then Round4(Popularity(b, q).value) else 0.0)
  }

  // ---------------------------------------------------------------- strongest first

  predicate StrongerOrSame(r: Pattern, w: Pattern) {
    || r.support > w.support
    || (r.support == w.support
        && (Before(r.antecedent, w.antecedent)
            || (r.antecedent == w.antecedent && TestimonyRecord.AtOrBefore(r.consequent, w.consequent))))
  }

  lemma TextsOrdered(a: string, b: string, c: string)
    ensures TestimonyRecord.AtOrBefore(a, b) || TestimonyRecord.AtOrBefore(b, a)
    ensures TestimonyRecord.AtOrBefore(a, b) && TestimonyRecord.AtOrBefore(b, c) ==> TestimonyRecord.AtOrBefore(a, c)
    ensures TestimonyRecord.AtOrBefore(a, b) && TestimonyRecord.AtOrBefore(b, a) ==> a == b
    ensures Before(a, b) && Before(b, c) ==> Before(a, c)
    ensures Before(a, b) || a == b || Before(b, a)
    ensures !(Before(a, b) && Before(b, a)) && !Before(a, a)
  {
    BeforeIsStrict(a, b);
    BeforeIsStrict(b, c);
    BeforeIsStrict(a, c);
    hide Before;
    if Before(a, b) && Before(b, c) {
      BeforeIsTransitive(a, b, c);
    }
    if Before(c, a) && (a == b || Before(a, b)) {
      if Before(a, b) {
        BeforeIsTransitive(c, a, b);
      }
    }
  }

  lemma StrengthOrders(r: Pattern, w: Pattern, x: Pattern)
    ensures StrongerOrSame(r, w) || StrongerOrSame(w, r)
    ensures StrongerOrSame(r, w) && StrongerOrSame(w, x) ==> StrongerOrSame(r, x)
    ensures StrongerOrSame(r, w) && StrongerOrSame(w, r) ==> r.antecedent == w.antecedent && r.consequent == w.consequent
  {
    TextsOrdered(r.antecedent, w.antecedent, x.antecedent);
    TextsOrdered(r.consequent, w.consequent, x.consequent);
    hide Before, TestimonyRecord.AtOrBefore;
  }

  lemma StrengthIsTotal()
    ensures TotalOrder(StrongerOrSame)
  {
    hide StrongerOrSame;
    forall r, w
      ensures StrongerOrSame(r, w) || StrongerOrSame(w, r)
    {
      StrengthOrders(r, w, w);
    }
    forall r, w, x | StrongerOrSame(r, w) && StrongerOrSame(w, x)
      ensures StrongerOrSame(r, x)
    {
      StrengthOrders(r, w, x);
    }
  }

  // ---------------------------------------------------------------- every pair that clears the bar

  function RowsFrom(root: Root, b: Bank, p: string, qs: seq<string>): seq<Pattern> {
    if qs == [] then []
    else
      var q := qs[|qs| - 1];
      RowsFrom(root, b, p, qs[..|qs| - 1]) + if Clears(root, b, p, q) then [RowOf(b, p, q)] else []
  }

  function Rows(root: Root, b: Bank, ps: seq<string>, qs: seq<string>): seq<Pattern> {
    if ps == [] then []
    else Rows(root, b, ps[..|ps| - 1], qs) + RowsFrom(root, b, ps[|ps| - 1], qs)
  }

  lemma {:induction false} RowsFromAre(root: Root, b: Bank, p: string, qs: seq<string>)
    ensures forall r :: r in RowsFrom(root, b, p, qs) <==> r.consequent in qs && Clears(root, b, p, r.consequent) && r == RowOf(b, p, r.consequent)
  {
    hide Clears, Support, Refute, Popularity;
    if qs != [] {
      RowsFromAre(root, b, p, qs[..|qs| - 1]);
      assert forall q :: q in qs <==> q in qs[..|qs| - 1] || q == qs[|qs| - 1];
    }
  }

  lemma {:induction false} RowsAre(root: Root, b: Bank, ps: seq<string>, qs: seq<string>)
    ensures forall r :: r in Rows(root, b, ps, qs) <==>
                    && r.antecedent in ps && r.consequent in qs
                    && Clears(root, b, r.antecedent, r.consequent) && r == RowOf(b, r.antecedent, r.consequent)
  {
    hide Clears, Support, Refute, Popularity, RowsFrom;
    if ps != [] {
      RowsAre(root, b, ps[..|ps| - 1], qs);
      RowsFromAre(root, b, ps[|ps| - 1], qs);
      assert forall p :: p in ps <==> p in ps[..|ps| - 1] || p == ps[|ps| - 1];
    }
  }

  lemma {:induction false} RowsFromDistinct(root: Root, b: Bank, p: string, qs: seq<string>)
    requires Distinct(qs)
    ensures Distinct(RowsFrom(root, b, p, qs))
  {
    hide Clears, RowOf;
    if qs != [] {
      var q := qs[|qs| - 1];
      RowsFromDistinct(root, b, p, qs[..|qs| - 1]);
      RowsFromAre(root, b, p, qs[..|qs| - 1]);
      RowIsOf(b, p, q);
      assert q !in qs[..|qs| - 1];
      JoinDistinct(RowsFrom(root, b, p, qs[..|qs| - 1]), if Clears(root, b, p, q) then [RowOf(b, p, q)] else []);
    }
  }

  lemma {:induction false} RowsDistinct(root: Root, b: Bank, ps: seq<string>, qs: seq<string>)
    requires Distinct(ps) && Distinct(qs)
    ensures Distinct(Rows(root, b, ps, qs))
  {
    hide Clears, RowOf, RowsFrom;
    if ps != [] {
      var p := ps[|ps| - 1];
      RowsDistinct(root, b, ps[..|ps| - 1], qs);
      RowsAre(root, b, ps[..|ps| - 1], qs);
      RowsFromDistinct(root, b, p, qs);
      RowsFromAre(root, b, p, qs);
      RowsFromFrom(root, b, p, qs);
      assert p !in ps[..|ps| - 1];
      JoinDistinct(Rows(root, b, ps[..|ps| - 1], qs), RowsFrom(root, b, p, qs));
    }
  }

  lemma RowsFromFrom(root: Root, b: Bank, p: string, qs: seq<string>)
    ensures forall r :: r in RowsFrom(root, b, p, qs) ==> r.antecedent == p
  {
    hide Clears, RowsFrom;
    RowsFromAre(root, b, p, qs);
  }

  /** Whoever clears the bar is held, so is found among the tokens held. */
  lemma ClearsIsHeld(root: Root, b: Bank, p: string, q: string)
    requires Clears(root, b, p, q)
    ensures p in b.held && q in b.held
  {
    hide WilsonLower, Popularity, Rate;
  }

  /**
   What is published: rows of pairs that clear the bar, each once, strongest first, and every such row unless
   the cap is reached, in which case whatever is left out is weaker.
   */
  ghost predicate Publishes(root: Root, b: Bank, out: seq<Pattern>) {
    && |out| <= 500
    && (forall r :: r in out ==> Clears(root, b, r.antecedent, r.consequent) && r == RowOf(b, r.antecedent, r.consequent))
    && InOrder(StrongerOrSame, out) && Distinct(out)
    && (forall p, q :: Clears(root, b, p, q) ==>
         || RowOf(b, p, q) in out
         || (|out| == 500 && forall r :: r in out ==> StrongerOrSame(r, RowOf(b, p, q))))
  }

  /** What is published runs from the most supported, then by antecedent and by consequent. */
  lemma StrongestFirst(root: Root, b: Bank, out: seq<Pattern>, i: nat, j: nat)
    requires Publishes(root, b, out) && i < j < |out|
    ensures var r, w := out[i], out[j];
            || r.support > w.support
            || (r.support == w.support && (Before(r.antecedent, w.antecedent) || (r.antecedent == w.antecedent && Before(r.consequent, w.consequent))))
  {
    hide Clears, RowOf, Before;
    var r, w := out[i], out[j];
    assert r in out && w in out;
    assert StrongerOrSame(r, w);
    TextsOrdered(r.consequent, w.consequent, w.consequent);
  }

  function Top(sorted: seq<Pattern>): (top: seq<Pattern>)
    ensures |top| <= MAX_PATTERNS && top <= sorted && (|top| == MAX_PATTERNS || top == sorted)
  {
    if |sorted| < MAX_PATTERNS then sorted else sorted[..MAX_PATTERNS]
  }

  lemma TopPublishes(root: Root, b: Bank, space: seq<string>)
    requires Distinct(space) && forall t :: t in b.held ==> t in space
    ensures Publishes(root, b, Top(SortBy(StrongerOrSame, Rows(root, b, space, space))))
  {
    hide *;
    var all := Rows(root, b, space, space);
    var sorted := SortBy(StrongerOrSame, all);
    var out := Top(sorted);
    RowsAre(root, b, space, space);
    StrengthIsTotal();
    SortOrders(StrongerOrSame, all);
    SortKeeps(StrongerOrSame, all);
    RowsDistinct(root, b, space, space);
    SortDistinct(StrongerOrSame, all);
    PrefixInOrder(sorted, out);
    forall p, q | Clears(root, b, p, q)
      ensures RowOf(b, p, q) in out || (|out| == MAX_PATTERNS && forall r :: r in out ==> StrongerOrSame(r, RowOf(b, p, q)))
    {
      ClearsIsHeld(root, b, p, q);
      RowIsOf(b, p, q);
      LeftOut(sorted, out, RowOf(b, p, q));
    }
    AllPublished(root, b, out);
  }

  lemma AllPublished(root: Root, b: Bank, out: seq<Pattern>)
    requires |out| <= MAX_PATTERNS && InOrder(StrongerOrSame, out) && Distinct(out)
    requires forall r :: r in out ==> Clears(root, b, r.antecedent, r.consequent) && r == RowOf(b, r.antecedent, r.consequent)
    requires forall p, q :: Clears(root, b, p, q) ==>
               || RowOf(b, p, q) in out
               || (|out| == MAX_PATTERNS && forall r :: r in out ==> StrongerOrSame(r, RowOf(b, p, q)))
    ensures Publishes(root, b, out)
  {
    hide Clears, RowOf, StrongerOrSame, InOrder;
  }

  lemma PrefixInOrder(sorted: seq<Pattern>, out: seq<Pattern>)
    requires InOrder(StrongerOrSame, sorted) && Distinct(sorted) && out <= sorted
    ensures InOrder(StrongerOrSame, out) && Distinct(out) && forall r :: r in out ==> r in sorted
  {
    hide StrongerOrSame;
    assert forall k :: 0 <= k < |out| ==> out[k] == sorted[k];
  }

  lemma RowIsOf(b: Bank, p: string, q: string)
    ensures RowOf(b, p, q).antecedent == p && RowOf(b, p, q).consequent == q
  {
  }

  lemma LeftOut(sorted: seq<Pattern>, out: seq<Pattern>, w: Pattern)
    requires InOrder(StrongerOrSame, sorted) && w in sorted
    requires out <= sorted && (|out| == MAX_PATTERNS || out == sorted)
    ensures w in out || (|out| == MAX_PATTERNS && forall r :: r in out ==> StrongerOrSame(r, w))
  {
    hide StrongerOrSame;
    var i :| 0 <= i < |sorted| && sorted[i] == w;
    assert forall k :: 0 <= k < |out| ==> out[k] == sorted[k];
    if |out| <= i {
      forall r | r in out
        ensures StrongerOrSame(r, w)
      {
        var k :| 0 <= k < |out| && out[k] == r;
      }
    }
  }

  // ---------------------------------------------------------------- the contributor

  class Contributor {
    const lexicon: Lexicon
    var held: map<string, set<string>>
    var subjects: set<string>

    function Contents(): Bank
      reads this
    {
      Bank(held, subjects)
    }

    constructor (lexicon: Lexicon)
      ensures this.lexicon == lexicon && Contents() == NOTHING
    {
      this.lexicon := lexicon;
      held, subjects := map[], {};
    }

    method Observe(s: string, words: seq<string>) returns (refused: Option<Refusal>)
      modifies this
      ensures (Contents(), refused) == Recorded(lexicon, old(Contents()), s, words)
    {
      if s == "" {
        return Some(NoLabel);
      }
      for i := 0 to |words|
        invariant Observed(lexicon, Contents(), s, words[i..]) == Observed(lexicon, old(Contents()), s, words)
      {
        assert words[i..][0] == words[i] && words[i..][1..] == words[i + 1..];
        var t := Strip(words[i]);
        var checked := CheckToken(lexicon, t);
        if checked.Err? {
          return Some(checked.error);
        }
        if s in Holders(Contents(), Opposite(t)) {
          return Some(HoldsBoth(t));
        }
        held := held[t := Holders(Contents(), t) + {s}];
        subjects := subjects + {s};
      }
      return None;
    }

    method Space() returns (space: seq<string>)
      requires Sound(lexicon, Contents())
      ensures Distinct(space) && forall t :: t in held ==> t in space
    {
      var bare := Listed(TestimonyRecord.AtOrBefore, set t | t in held :: Bare(t));
      space := [];
      for i := 0 to |bare|
        invariant forall k :: 0 <= k < i ==> bare[k] in space && NEGATION + bare[k] in space
        invariant forall t :: t in space ==> Bare(t) in bare[..i]
        invariant Distinct(space)
      {
        assert bare[i] in bare;
        assert bare[i] in set t | t in held :: Bare(t);
        BareIsBare(lexicon, held, bare[i]);
        SpaceGrows(space, bare, i);
        space := space + [bare[i], NEGATION + bare[i]];
      }
      HeldInSpace(held, bare, space);
    }

    method RowsOf(root: Root, p: string, space: seq<string>) returns (rows: seq<Pattern>)
      ensures rows == if |Holders(Contents(), p)| < PRIOR_FLOOR_N then [] else RowsFrom(root, Contents(), p, space)
    {
      rows := [];
      var b, holders := Contents(), Holders(Contents(), p);
      if |holders| < PRIOR_FLOOR_N {
        return;
      }
      for j := 0 to |space|
        invariant rows == RowsFrom(root, b, p, space[..j])
      {
        var q := space[j];
        assert space[..j + 1][..j] == space[..j];
        if Bare(q) == Bare(p) {
          continue;
        }
        var support := |holders * Holders(b, q)|;
        if support < PRIOR_FLOOR_N {
          continue;
        }
        var refute := |holders * Holders(b, Opposite(q))|;
        var total := support + refute;
        if Rate(support, total) < PRIOR_MIN_RATE {
          continue;
        }
        var base := Popularity(b, q);
        if base.None? || WilsonLower(root, support, total) < base.value + PRIOR_MIN_LIFT {
          continue;
        }
        rows := rows + [Pattern(p, q, support, refute, |holders|, Round4(base.value))];
      }
      assert space[..|space|] == space;
    }

    method Patterns(root: Root) returns (out: seq<Pattern>)
      requires Sound(lexicon, Contents())
      ensures Publishes(root, Contents(), out)
    {
      var space := Space();
      var b, all := Contents(), [];
      for i := 0 to |space|
        invariant all == Rows(root, b, space[..i], space)
      {
        assert space[..i + 1][..i] == space[..i];
        var rows := RowsOf(root, space[i], space);
        NoneBelowFloor(root, b, space[i], space);
        all := all + rows;
      }
      assert space[..|space|] == space;
      out := Top(SortBy(StrongerOrSame, all));
      TopPublishes(root, b, space);
    }
  }

  lemma BareIsBare(lexicon: Lexicon, held: map<string, set<string>>, q: string)
    requires (exists t :: t in held && Bare(t) == q) && forall t :: t in held ==> Allowed(lexicon, t)
    ensures Bare(q) == q && Bare(NEGATION + q) == q && q != NEGATION + q
  {
    var t :| t in held && Bare(t) == q;
    OppositeTwice(lexicon, t);
    NegationHasColon(q);
    assert !Identifying(t);
  }

  lemma SpaceGrows(space: seq<string>, bare: seq<string>, i: nat)
    requires i < |bare| && Distinct(bare) && Distinct(space) && forall t :: t in space ==> Bare(t) in bare[..i]
    requires var q := bare[i]; Bare(q) == q && Bare(NEGATION + q) == q && q != NEGATION + q
    ensures var more := space + [bare[i], NEGATION + bare[i]];
            Distinct(more) && forall t :: t in more ==> Bare(t) in bare[..i + 1]
  {
    var q := bare[i];
    hide Bare;
    assert q !in bare[..i];
    JoinDistinct(space, [q, NEGATION + q]);
    assert bare[..i + 1] == bare[..i] + [q];
  }

  lemma HeldInSpace(held: map<string, set<string>>, bare: seq<string>, space: seq<string>)
    requires forall t :: t in held ==> Bare(t) in bare
    requires forall k :: 0 <= k < |bare| ==> bare[k] in space && NEGATION + bare[k] in space
    ensures forall t :: t in held ==> t in space
  {
    forall t | t in held
      ensures t in space
    {
      assert t == Bare(t) || t == NEGATION + Bare(t);
    }
  }

  lemma {:induction false} NoneBelowFloor(root: Root, b: Bank, p: string, qs: seq<string>)
    ensures |Holders(b, p)| < PRIOR_FLOOR_N ==> RowsFrom(root, b, p, qs) == []
  {
    if qs != [] {
      NoneBelowFloor(root, b, p, qs[..|qs| - 1]);
    }
  }
}
