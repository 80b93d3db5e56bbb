/**
 The two programs together: what the standalone contributor publishes, the collector keeps.

 They were written apart, and the collector sees less: counts and a base rate, not who holds what.
 What carries a row across is that nobody holds a token and its opposite. So support and refutation
 count different people and fit among the holders, a token that is held passed every test the
 collector makes of it, and a base rate is a rate.

 Two things can still stop a row. A population past ten million is out of the collector's range and
 refuses the whole contribution. And the base rate travels rounded to four places, so a row whose
 lift is closer than half a ten-thousandth to the line can be passed over. Both are exact here: a
 row is kept exactly when its lift survives the rounding, and one that does not is given at the end,
 for any two behaviours of the vocabulary.
 */
module PublishedIsKept {
  import opened Wrappers
  import opened Ordering
  import opened CommonsTokens
  import opened Wilson
  import opened Contribution
  import opened Collector

  // ---------------------------------------------------------------- counts over people

  lemma {:induction false} SubsetIsSmaller<T>(a: set<T>, b: set<T>)
    requires a <= b
    ensures |a| <= |b|
  {
    assert b == a + (b - a) && a !! (b - a);
  }

  lemma PartsFit<T>(a: set<T>, b: set<T>, c: set<T>)
    requires b !! c
    ensures |a * b| + |a * c| <= |a|
  {
    var x, y := a * b, a * c;
    assert x !! y && x + y <= a;
    assert |x + y| == |x| + |y|;
    SubsetIsSmaller(x + y, a);
  }

  lemma HoldersApart(lexicon: Lexicon, b: Bank, q: string)
    requires Sound(lexicon, b)
    ensures Holders(b, q) !! Holders(b, Opposite(q))
  {
    ApartBefore(lexicon, b, q);
  }

  /** Nobody is counted both ways. */
  lemma CountsFit(lexicon: Lexicon, b: Bank, p: string, q: string)
    requires Sound(lexicon, b)
    ensures Support(b, p, q) + Refute(b, p, q) <= |Holders(b, p)|
  {
    HoldersApart(lexicon, b, q);
    PartsFit(Holders(b, p), Holders(b, q), Holders(b, Opposite(q)));
  }

  lemma ClearsMeans(root: Root, b: Bank, p: string, q: string)
    requires Clears(root, b, p, q)
    ensures var s, n := Support(b, p, q), Support(b, p, q) + Refute(b, p, q);
            && s >= PRIOR_FLOOR_N && s > 0 && Rate(s, n) >= PRIOR_MIN_RATE && Rate(s, n) > 0.5 && Popularity(b, q).Some?
            && WilsonLower(root, s, n) >= Popularity(b, q).value + PRIOR_MIN_LIFT
  {
    hide Support, Refute, Rate, WilsonLower, Popularity;
  }

  lemma Turned(b: Bank, p: string, q: string)
    requires Opposite(Opposite(q)) == q
    ensures Support(b, p, Opposite(q)) == Refute(b, p, q) && Refute(b, p, Opposite(q)) == Support(b, p, q)
  {
    hide Opposite, Holders;
  }

  /** A pattern and its denial are never both mined. */
  lemma NeverBothWays(lexicon: Lexicon, root: Root, b: Bank, p: string, q: string)
    requires Sound(lexicon, b) && Clears(root, b, p, q)
    ensures !Clears(root, b, p, Opposite(q))
  {
    ClearsIsHeld(root, b, p, q);
    HeldIsAllowed(lexicon, b, q);
    OppositeTwice(lexicon, q);
    hide *;
    Turned(b, p, q);
    ClearsMeans(root, b, p, q);
    BothRates(Support(b, p, q), Refute(b, p, q));
    if Clears(root, b, p, Opposite(q)) {
      ClearsMeans(root, b, p, Opposite(q));
    }
  }

  lemma BothRates(s: nat, r: nat)
    requires s + r > 0
    ensures Rate(s, s + r) + Rate(r, s + r) == 1.0 && r + s == s + r
  {
    var n := (s + r) as real;
    RateIsARate(s, s + r);
    RateIsARate(r, s + r);
    Distributes(Rate(s, s + r), Rate(r, s + r), n);
    hide Rate;
    assert s as real + r as real == n && n != 0.0;
    assert Rate(s, s + r) * n == s as real;
    assert Rate(r, s + r) * n == r as real;
    Cancel(Rate(s, s + r) + Rate(r, s + r), 1.0, n);
  }

  lemma Distributes(x: real, y: real, n: real)
    ensures (x + y) * n == x * n + y * n && 1.0 * n == n
  {
  }

  // ---------------------------------------------------------------- the base rate that is sent

  lemma Round4Near(x: real)
    ensures -0.00005 <= Round4(x) - x <= 0.00005
    ensures 0.0 <= x <= 1.0 ==> 0.0 <= Round4(x) <= 1.0
  {
    var y := x * 10000.0;
    var f := y.Floor;
    assert f as real <= y < f as real + 1.0;
  }

  /** How often a consequent holds among those with a position on it, whichever of the two tokens it is. */
  lemma PopularityMeans(b: Bank, q: string)
    ensures var yes, no := |Holders(b, q)|, |Holders(b, Opposite(q))|;
            Popularity(b, q) == if yes + no == 0 then None else Some(yes as real / (yes + no) as real)
  {
    assert Negated(q) ==> q == NEGATION + Bare(q);
    var yes, no := |Holders(b, q)|, |Holders(b, Opposite(q))|;
    hide Holders;
    if Negated(q) && yes + no > 0 {
      OneLess(no, yes);
    }
  }

  lemma OneLess(k: nat, m: nat)
    requires k + m > 0
    ensures 1.0 - k as real / (k + m) as real == m as real / (k + m) as real
  {
    var n := (k + m) as real;
    assert k as real / n + m as real / n == (k as real + m as real) / n == 1.0;
  }

  lemma PopularityIsARate(b: Bank, q: string)
    requires Popularity(b, q).Some?
    ensures 0.0 <= Popularity(b, q).value <= 1.0
  {
    var yes, no := |Holders(b, Bare(q))|, |Holders(b, NEGATION + Bare(q))|;
    RateIsARate(yes, yes + no);
    hide Rate, Holders;
  }

  /** A pattern is published exactly when it passes the three tests, in counts of people. */
  lemma ClearsIff(root: Root, b: Bank, p: string, q: string)
    ensures var yes, no := Holders(b, q), Holders(b, Opposite(q));
            var s, f := |Holders(b, p) * yes|, |Holders(b, p) * no|;
            Clears(root, b, p, q) <==>
              && Bare(p) != Bare(q) && |Holders(b, p)| >= 3 && s >= 3 && |yes| > 0
              && s as real / (s + f) as real >= 0.6
              && WilsonLower(root, s, s + f) >= |yes| as real / (|yes| + |no|) as real + 0.1
  {
    PopularityMeans(b, q);
    InCounts(b, p, q);
    hide Holders, Opposite, WilsonLower, Popularity;
    var yes := Holders(b, q);
    assert |yes| == 0 ==> yes == {};
  }

  /** What is published of a pair, in counts of people: and the base rate sent is the nearest ten-thousandth. */
  lemma RowMeans(root: Root, b: Bank, p: string, q: string)
    requires Clears(root, b, p, q)
    ensures var r := RowOf(b, p, q);
            var yes, no := Holders(b, q), Holders(b, Opposite(q));
            && Bare(p) != Bare(q) && |Holders(b, p)| >= 3
            && r.support == |Holders(b, p) * yes| >= 3 && r.refute == |Holders(b, p) * no| && r.subjects == |Holders(b, p)|
            && r.support as real >= 0.6 * (r.support + r.refute) as real
            && |yes| + |no| > 0 && Nearest(r.base, |yes| as real / (|yes| + |no|) as real, 10000.0)
  {
    PopularityMeans(b, q);
    InCounts(b, p, q);
    Round4Nearest(Popularity(b, q).value);
    RateFloor(Support(b, p, q), Support(b, p, q) + Refute(b, p, q));
    hide Holders, Opposite, WilsonLower, Round4, Popularity, Rate, Nearest;
  }

  lemma RateFloor(k: nat, n: nat)
    requires n > 0
    ensures Rate(k, n) >= 0.6 ==> k as real >= 0.6 * n as real
  {
    var x := Rate(k, n);
    assert x * n as real == k as real;
    if x >= 0.6 {
      assert (x - 0.6) * n as real >= 0.0;
    }
  }

  // ---------------------------------------------------------------- the composition

  function Sent(r: Pattern): Offered {
    Offered(r.antecedent, r.consequent, r.support, r.refute, r.subjects, Some(r.base))
  }

  lemma TokensPass(lexicon: Lexicon, root: Root, p: Offered)
    requires Allowed(lexicon, p.antecedent) && Allowed(lexicon, p.consequent)
    ensures Judge(lexicon, root, p) == JudgeCounts(root, p)
  {
    hide Identifying, ForeignWord, JudgeCounts;
  }

  /**
   A mined row is refused only for a population past ten million, and otherwise kept exactly when
   its lift survives the rounding of its base rate.
   */
  lemma MinedVerdict(lexicon: Lexicon, root: Root, b: Bank, p: string, q: string)
    requires Sound(lexicon, b) && Clears(root, b, p, q)
    ensures var r := RowOf(b, p, q);
            var total := r.support + r.refute;
            Judge(lexicon, root, Sent(r)) ==
            if total > MAX_COUNT then Refused(CountsOutOfRange)
            else if WilsonLower(root, r.support, total) >= r.base + PRIOR_MIN_LIFT then Kept
            else Skipped
  {
    hide *;
    ClearsIsHeld(root, b, p, q);
    ClearsMeans(root, b, p, q);
    HeldIsAllowed(lexicon, b, p);
    HeldIsAllowed(lexicon, b, q);
    PopularityIsARate(b, q);
    Round4Near(Popularity(b, q).value);
    RowUnfolds(b, p, q);
    TokensPass(lexicon, root, Sent(RowOf(b, p, q)));
    CountsJudged(root, Sent(RowOf(b, p, q)));
  }

  lemma RowUnfolds(b: Bank, p: string, q: string)
    requires Popularity(b, q).Some?
    ensures var r := RowOf(b, p, q);
            && Sent(r) == Offered(p, q, r.support, r.refute, r.subjects, Some(r.base))
            && r.support == Support(b, p, q) && r.refute == Refute(b, p, q) && r.base == Round4(Popularity(b, q).value)
  {
    hide Support, Refute, Popularity, Round4;
  }

  lemma CountsJudged(root: Root, p: Offered)
    requires p.support >= PRIOR_FLOOR_N && p.refute >= 0 && p.subjects >= 0 && p.base.Some? && 0.0 <= p.base.value <= 1.0
    requires Rate(p.support, p.support + p.refute) >= PRIOR_MIN_RATE
    ensures JudgeCounts(root, p) ==
            if p.support + p.refute > MAX_COUNT then Refused(CountsOutOfRange)
            else if WilsonLower(root, p.support, p.support + p.refute) >= p.base.value + PRIOR_MIN_LIFT then Kept
            else Skipped
  {
    hide Rate, WilsonLower;
  }

  lemma HeldIsAllowed(lexicon: Lexicon, b: Bank, t: string)
    requires Sound(lexicon, b) && t in b.held
    ensures Allowed(lexicon, t)
  {
  }

  /** How far a row's bound is above what it has to beat. */
  function Margin(root: Root, b: Bank, r: Pattern): real {
    var base := Popularity(b, r.consequent);
    WilsonLower(root, r.support, r.support + r.refute) - (if base.Some? then base.value else 0.0) - PRIOR_MIN_LIFT
  }

  function SentAll(out: seq<Pattern>): seq<Offered> {
    seq(|out|, i requires 0 <= i < |out| => Sent(out[i]))
  }

  /** Who passes. */
  predicate Survives(root: Root, r: Pattern) {
    WilsonLower(root, r.support, r.support + r.refute) >= r.base + PRIOR_MIN_LIFT
  }

  lemma {:induction false} KeptAre(lexicon: Lexicon, root: Root, out: seq<Pattern>)
    requires forall r :: r in out ==> Judge(lexicon, root, Sent(r)) == if Survives(root, r) then Kept else Skipped
    ensures KeptOf(lexicon, root, SentAll(out)) == SentAll(Surviving(root, out))
  {
    hide Judge, Survives, Sent;
    if out != [] {
      var n := |out| - 1;
      KeptAre(lexicon, root, out[..n]);
      assert SentAll(out)[..n] == SentAll(out[..n]);
      assert out[n] in out;
    }
  }

  function Surviving(root: Root, out: seq<Pattern>): seq<Pattern> {
    if out == [] then []
    else Surviving(root, out[..|out| - 1]) + if Survives(root, out[|out| - 1]) then [out[|out| - 1]] else []
  }

  /**
   After any run of observations over at most ten million people, the collector refuses nothing that
   is published, and keeps, in order, the rows whose lift survives rounding.
   */
  lemma PublishedPassesTheDoor(lexicon: Lexicon, root: Root, calls: seq<Observation>, out: seq<Pattern>)
    requires Publishes(root, Run(lexicon, calls), out)
    requires |Run(lexicon, calls).subjects| <= MAX_COUNT
    ensures Door(lexicon, root, SentAll(out)) == Ok(SentAll(Surviving(root, out)))
  {
    var b := Run(lexicon, calls);
    EveryRunIsSound(lexicon, calls);
    hide *;
    forall r | r in out
      ensures Judge(lexicon, root, Sent(r)) == if Survives(root, r) then Kept else Skipped
    {
      PublishedClears(root, b, out, r);
      MinedVerdict(lexicon, root, b, r.antecedent, r.consequent);
      PopulationBounds(lexicon, b, r.antecedent, r.consequent);
      VerdictOf(root, b, r);
    }
    KeptAre(lexicon, root, out);
    AllLetIn(lexicon, root, out);
    PublishedClearsAll(root, b, out);
  }

  lemma VerdictOf(root: Root, b: Bank, r: Pattern)
    requires r == RowOf(b, r.antecedent, r.consequent)
    ensures r.support == Support(b, r.antecedent, r.consequent) && r.refute == Refute(b, r.antecedent, r.consequent)
    ensures Survives(root, r) <==> WilsonLower(root, r.support, r.support + r.refute) >= r.base + PRIOR_MIN_LIFT
  {
    hide WilsonLower, Round4, Popularity;
  }

  lemma PublishedClears(root: Root, b: Bank, out: seq<Pattern>, r: Pattern)
    requires Publishes(root, b, out) && r in out
    ensures Clears(root, b, r.antecedent, r.consequent) && r == RowOf(b, r.antecedent, r.consequent)
  {
    hide Clears, RowOf, StrongerOrSame;
  }

  lemma PublishedClearsAll(root: Root, b: Bank, out: seq<Pattern>)
    requires Publishes(root, b, out)
    ensures |SentAll(out)| <= MAX_PATTERNS
  {
    hide Clears, RowOf, StrongerOrSame;
  }

  lemma PopulationBounds(lexicon: Lexicon, b: Bank, p: string, q: string)
    requires Sound(lexicon, b)
    ensures Support(b, p, q) + Refute(b, p, q) <= |b.subjects|
  {
    CountsFit(lexicon, b, p, q);
    hide Allowed, Opposite;
    SubsetIsSmaller(Holders(b, p), b.subjects);
  }

  lemma AllLetIn(lexicon: Lexicon, root: Root, out: seq<Pattern>)
    requires forall r :: r in out ==> !Judge(lexicon, root, Sent(r)).Refused?
    ensures |SentAll(out)| <= MAX_PATTERNS ==> Door(lexicon, root, SentAll(out)) == Ok(KeptOf(lexicon, root, SentAll(out)))
  {
    hide Judge, Sent, Clean, KeptOf;
    LetInIff(lexicon, root, SentAll(out));
    forall p | p in SentAll(out)
      ensures !Judge(lexicon, root, p).Refused?
    {
      var i :| 0 <= i < |SentAll(out)| && SentAll(out)[i] == p;
      assert out[i] in out;
    }
  }

  lemma {:induction false} AllSurvive(root: Root, b: Bank, out: seq<Pattern>)
    requires forall r :: r in out ==> Clears(root, b, r.antecedent, r.consequent) && r == RowOf(b, r.antecedent, r.consequent)
    requires forall r :: r in out ==> Margin(root, b, r) >= 0.00005
    ensures Surviving(root, out) == out
  {
    hide Clears, RowOf, Margin, Survives;
    if out != [] {
      var n := |out| - 1;
      AllSurvive(root, b, out[..n]);
      assert out[n] in out;
      SurvivesRounding(root, b, out[n]);
    }
  }

  lemma SurvivesRounding(root: Root, b: Bank, r: Pattern)
    requires Clears(root, b, r.antecedent, r.consequent) && r == RowOf(b, r.antecedent, r.consequent)
    requires Margin(root, b, r) >= 0.00005
    ensures Survives(root, r)
  {
    hide WilsonLower, Round4, Popularity, Rate, Support, Refute;
    Round4Near(Popularity(b, r.consequent).value);
  }

  /** So nothing published is lost whose margin is at least what rounding to four places can take. */
  lemma NothingLostWithMargin(lexicon: Lexicon, root: Root, calls: seq<Observation>, out: seq<Pattern>)
    requires Publishes(root, Run(lexicon, calls), out)
    requires |Run(lexicon, calls).subjects| <= MAX_COUNT
    requires forall r :: r in out ==> Margin(root, Run(lexicon, calls), r) >= 0.00005
    ensures Door(lexicon, root, SentAll(out)) == Ok(SentAll(out))
  {
    hide *;
    var b := Run(lexicon, calls);
    PublishedPassesTheDoor(lexicon, root, calls, out);
    forall r | r in out
      ensures Clears(root, b, r.antecedent, r.consequent) && r == RowOf(b, r.antecedent, r.consequent)
    {
      PublishedClears(root, b, out, r);
    }
    AllSurvive(root, b, out);
  }

  /**
   And of the holders of `p` with a position on `q`, the share that holds `q` is above the share that
   holds it in the whole population by at least the lift.
   */
  lemma PublishedBeatsPopularity(lexicon: Lexicon, root: Root, b: Bank, p: string, q: string)
    requires SquareRoot(root) && Sound(lexicon, b) && Clears(root, b, p, q)
    ensures var yes, no := Holders(b, q), Holders(b, Opposite(q));
            var s, f := |Holders(b, p) * yes|, |Holders(b, p) * no|;
            s + f > 0 && |yes| + |no| > 0 && s as real / (s + f) as real >= |yes| as real / (|yes| + |no|) as real + 0.1
  {
    hide *;
    ClearsMeans(root, b, p, q);
    PopularityMeans(b, q);
    InCounts(b, p, q);
    LiftIsReal(root, Support(b, p, q), Support(b, p, q) + Refute(b, p, q), Popularity(b, q).value + PRIOR_MIN_LIFT);
  }

  lemma InCounts(b: Bank, p: string, q: string)
    ensures Support(b, p, q) == |Holders(b, p) * Holders(b, q)| && Refute(b, p, q) == |Holders(b, p) * Holders(b, Opposite(q))|
    ensures forall k: int, n: int :: n > 0 ==> Rate(k, n) == k as real / n as real
    ensures PRIOR_MIN_LIFT == 0.1
  {
    hide Holders, Opposite;
  }

  // ---------------------------------------------------------------- a row that rounding loses

  function Person(n: nat): string {
    seq(n, i => 'c')
  }

  function People(from: nat, to: nat): set<string>
    decreases to
  {
    if from >= to then {} else People(from, to - 1) + {Person(to)}
  }

  lemma {:induction false} PeopleAre(from: nat, to: nat)
    requires from <= to
    ensures |People(from, to)| == to - from
    ensures forall x :: x in People(from, to) ==> from < |x| <= to
  {
    if from < to {
      PeopleAre(from, to - 1);
      assert |Person(to)| == to;
      assert Person(to) !in People(from, to - 1);
    }
  }

  lemma {:induction false} FewerPeople(from: nat, to: nat, more: nat)
    requires to <= more
    ensures People(from, to) <= People(from, more)
  {
    if to < more {
      FewerPeople(from, to, more - 1);
    }
  }

  /** Of 56 people 45 hold `q` and 11 oppose it; 36 of the 45 hold `p`. */
  function Said(p: string, q: string, n: nat): seq<string> {
    if n <= 36 then [p, q] else if n <= 45 then [q] else [NEGATION + q]
  }

  function SkewedCalls(p: string, q: string, n: nat): seq<Observation> {
    if n == 0 then [] else SkewedCalls(p, q, n - 1) + [Observation(Person(n), Said(p, q, n))]
  }

  function Skewed(lexicon: Lexicon, p: string, q: string): Bank {
    Run(lexicon, SkewedCalls(p, q, 56))
  }

  predicate TwoBehaviours(lexicon: Lexicon, p: string, q: string) {
    Allowed(lexicon, p) && Allowed(lexicon, q) && !Negated(p) && !Negated(q) && p != q
  }

  lemma NegatedToken(lexicon: Lexicon, q: string)
    requires Allowed(lexicon, q) && !Negated(q)
    ensures Negated(NEGATION + q) && Opposite(NEGATION + q) == q && Opposite(q) == NEGATION + q && Bare(NEGATION + q) == q && Bare(q) == q
  {
    assert (NEGATION + q)[4..] == q;
  }

  lemma NoSpaceInside(lexicon: Lexicon, t: string)
    requires Allowed(lexicon, t)
    ensures Strip(t) == t
  {
    hide ForeignWord;
    assert forall i :: 0 <= i < |t| ==> t[i] in t;
    assert forall c :: c in Bare(t) ==> Letter(c);
    assert t[0] == if Negated(t) then 'n' else Bare(t)[0];
    assert t[|t| - 1] == Bare(t)[|Bare(t)| - 1];
    assert Bare(t)[0] in Bare(t) && Bare(t)[|Bare(t)| - 1] in Bare(t);
  }

  /** A word nobody refuses is added. */
  lemma OneIsAdded(lexicon: Lexicon, b: Bank, s: string, t: string)
    requires Allowed(lexicon, t) && s !in Holders(b, Opposite(t))
    ensures ObserveOne(lexicon, b, s, t) == Ok(Add(b, s, t))
  {
    NoSpaceInside(lexicon, t);
    CheckedIsAllowed(lexicon, t);
    hide Strip, CheckToken, Allowed;
  }

  /** Who holds what after the first `n` calls. */
  ghost predicate HeldAfter(b: Bank, p: string, q: string, n: nat) {
    && b.subjects == People(0, n)
    && Holders(b, p) == People(0, if n <= 36 then n else 36)
    && Holders(b, q) == People(0, if n <= 45 then n else 45)
    && Holders(b, NEGATION + q) == People(45, n)
    && (forall t :: t !in {p, q, NEGATION + q} ==> t !in b.held)
  }

  lemma OneMorePerson(n: nat)
    requires 1 <= n
    ensures Person(n) != ""
    ensures forall from: nat :: People(from, n) == if from >= n then {} else People(from, n - 1) + {Person(n)}
  {
    assert |Person(n)| == n;
  }

  lemma ThreeTokens(lexicon: Lexicon, p: string, q: string)
    requires TwoBehaviours(lexicon, p, q)
    ensures p != q && p != NEGATION + q && q != NEGATION + q
    ensures Opposite(p) == NEGATION + p && Opposite(q) == NEGATION + q && Opposite(NEGATION + q) == q
    ensures NEGATION + p !in {p, q, NEGATION + q}
  {
    NegatedToken(lexicon, p);
    NegatedToken(lexicon, q);
    assert Negated(NEGATION + p) && Negated(NEGATION + q);
    assert (NEGATION + p)[4..] == p && (NEGATION + q)[4..] == q;
  }

  lemma HeldAdded(b: Bank, s: string, t: string)
    ensures var c := Add(b, s, t);
            && c.subjects == b.subjects + {s}
            && (forall u :: Holders(c, u) == Holders(b, u) + if u == t then {s} else {})
            && (forall u :: u in c.held <==> u in b.held || u == t)
  {
  }

  lemma ObservedNext(lexicon: Lexicon, b: Bank, s: string, t: string, rest: seq<string>)
    requires Allowed(lexicon, t) && s !in Holders(b, Opposite(t))
    ensures Observed(lexicon, b, s, [t] + rest) == Observed(lexicon, Add(b, s, t), s, rest)
  {
    hide ObserveOne, Add, Holders, Allowed, Opposite;
    OneIsAdded(lexicon, b, s, t);
    assert ([t] + rest)[1..] == rest;
  }

  /** Two words that nothing held opposes. */
  lemma BothAreAdded(lexicon: Lexicon, b: Bank, s: string, p: string, q: string)
    requires TwoBehaviours(lexicon, p, q) && s != ""
    requires s !in Holders(b, NEGATION + p) && s !in Holders(b, NEGATION + q)
    ensures Recorded(lexicon, b, s, [p, q]).0 == Add(Add(b, s, p), s, q)
  {
    hide ObserveOne, Observed, Add, Holders, Allowed, Opposite;
    ThreeTokens(lexicon, p, q);
    TwoAllowed(lexicon, p, q);
    HeldAdded(b, s, p);
    assert [p, q] == [p] + ([q] + []);
    ObservedNext(lexicon, b, s, p, [q] + []);
    ObservedNext(lexicon, Add(b, s, p), s, q, []);
    ObservedNothing(lexicon, Add(Add(b, s, p), s, q), s);
  }

  lemma ObservedNothing(lexicon: Lexicon, b: Bank, s: string)
    ensures Observed(lexicon, b, s, []) == (b, None)
  {
  }

  lemma TwoAllowed(lexicon: Lexicon, p: string, q: string)
    requires TwoBehaviours(lexicon, p, q)
    ensures Allowed(lexicon, p) && Allowed(lexicon, q)
  {
    hide Allowed;
  }

  lemma OneIsRecorded(lexicon: Lexicon, b: Bank, s: string, t: string)
    requires Allowed(lexicon, t) && s != "" && s !in Holders(b, Opposite(t))
    ensures Recorded(lexicon, b, s, [t]).0 == Add(b, s, t)
  {
    hide ObserveOne, Observed, Add, Holders, Allowed, Opposite;
    assert [t] == [t] + [];
    ObservedNext(lexicon, b, s, t, []);
    ObservedNothing(lexicon, Add(b, s, t), s);
  }

  /** The next person is not among those before. */
  lemma PersonIsNew(from: nat, n: nat, m: nat)
    requires n < m
    ensures Person(m) !in People(from, n)
  {
    hide People;
    assert |Person(m)| == m;
    if from <= n {
      PeopleAre(from, n);
    } else {
      NoneYet(from, n);
    }
  }

  lemma HoldsBoth(lexicon: Lexicon, b: Bank, p: string, q: string, n: nat)
    requires TwoBehaviours(lexicon, p, q) && 1 <= n <= 36 && HeldAfter(b, p, q, n - 1)
    ensures HeldAfter(Recorded(lexicon, b, Person(n), [p, q]).0, p, q, n)
  {
    hide Recorded, Add, Opposite, People, Person, TwoBehaviours;
    var s := Person(n);
    ThreeTokens(lexicon, p, q);
    OneMorePerson(n);
    NoneYet(45, n - 1);
    BothAreAdded(lexicon, b, s, p, q);
    HeldAdded(b, s, p);
    HeldAdded(Add(b, s, p), s, q);
    hide Holders;
  }

  lemma HoldsOne(lexicon: Lexicon, b: Bank, p: string, q: string, n: nat)
    requires TwoBehaviours(lexicon, p, q) && 36 < n <= 45 && HeldAfter(b, p, q, n - 1)
    ensures HeldAfter(Recorded(lexicon, b, Person(n), [q]).0, p, q, n)
  {
    hide Recorded, Add, Opposite, People, Person, TwoBehaviours, Allowed, Holders;
    var s := Person(n);
    ThreeTokens(lexicon, p, q);
    TwoAllowed(lexicon, p, q);
    OneMorePerson(n);
    NoneYet(45, n - 1);
    OneIsRecorded(lexicon, b, s, q);
    HeldAdded(b, s, q);
  }

  lemma HoldsTheOpposite(lexicon: Lexicon, b: Bank, p: string, q: string, n: nat)
    requires TwoBehaviours(lexicon, p, q) && Allowed(lexicon, NEGATION + q) && 45 < n && HeldAfter(b, p, q, n - 1)
    ensures HeldAfter(Recorded(lexicon, b, Person(n), [NEGATION + q]).0, p, q, n)
  {
    hide Recorded, Add, Opposite, People, Person, TwoBehaviours, Allowed, Holders;
    var s := Person(n);
    ThreeTokens(lexicon, p, q);
    OneMorePerson(n);
    PersonIsNew(0, 45, n);
    OneIsRecorded(lexicon, b, s, NEGATION + q);
    HeldAdded(b, s, NEGATION + q);
  }

  lemma SkewedStep(lexicon: Lexicon, b: Bank, p: string, q: string, n: nat)
    requires TwoBehaviours(lexicon, p, q) && Allowed(lexicon, NEGATION + q) && 1 <= n && HeldAfter(b, p, q, n - 1)
    ensures HeldAfter(Recorded(lexicon, b, Person(n), Said(p, q, n)).0, p, q, n)
  {
    hide Recorded, Allowed, TwoBehaviours, HeldAfter, Person;
    if n <= 36 {
      HoldsBoth(lexicon, b, p, q, n);
    } else if n <= 45 {
      HoldsOne(lexicon, b, p, q, n);
    } else {
      HoldsTheOpposite(lexicon, b, p, q, n);
    }
  }

  lemma NoneYet(from: nat, to: nat)
    requires from >= to
    ensures People(from, to) == {}
  {
  }

  lemma {:induction false} SkewedRun(lexicon: Lexicon, p: string, q: string, n: nat)
    requires TwoBehaviours(lexicon, p, q) && Allowed(lexicon, NEGATION + q)
    ensures HeldAfter(Run(lexicon, SkewedCalls(p, q, n)), p, q, n)
  {
    hide HeldAfter, TwoBehaviours, Allowed, Recorded, Person, Said;
    if n == 0 {
      NothingHeld(p, q);
    } else {
      SkewedRun(lexicon, p, q, n - 1);
      SkewedStep(lexicon, Run(lexicon, SkewedCalls(p, q, n - 1)), p, q, n);
      var calls := SkewedCalls(p, q, n);
      assert calls[..|calls| - 1] == SkewedCalls(p, q, n - 1) && calls[|calls| - 1] == Observation(Person(n), Said(p, q, n));
    }
  }

  lemma NothingHeld(p: string, q: string)
    ensures HeldAfter(NOTHING, p, q, 0)
  {
  }

  lemma SkewedHolders(lexicon: Lexicon, p: string, q: string)
    requires TwoBehaviours(lexicon, p, q) && Allowed(lexicon, NEGATION + q)
    ensures var b, n := Skewed(lexicon, p, q), NEGATION + q;
            && Holders(b, p) == People(0, 36) && Holders(b, q) == People(0, 45) && Holders(b, n) == People(45, 56)
            && (forall t :: t in b.held ==> t in {p, q, n}) && b.subjects == People(0, 56)
  {
    SkewedRun(lexicon, p, q, 56);
    hide People, Allowed, Run, SkewedCalls, TwoBehaviours;
  }

  lemma Overlaps()
    ensures |People(0, 36)| == 36 && |People(0, 45)| == 45 && |People(45, 56)| == 11
    ensures People(0, 36) * People(0, 45) == People(0, 36) && People(0, 36) * People(45, 56) == {}
  {
    hide People;
    PeopleAre(0, 36);
    PeopleAre(0, 45);
    PeopleAre(45, 56);
    FewerPeople(0, 36, 45);
  }

  lemma SkewedCounts(lexicon: Lexicon, p: string, q: string)
    requires TwoBehaviours(lexicon, p, q) && Allowed(lexicon, NEGATION + q)
    ensures var b := Skewed(lexicon, p, q);
            && |Holders(b, p)| == 36 && Support(b, p, q) == 36 && Refute(b, p, q) == 0
            && Popularity(b, q) == Some(Rate(45, 56))
  {
    NegatedToken(lexicon, q);
    SkewedHolders(lexicon, p, q);
    Overlaps();
    hide Skewed, People, Holders, Rate, Opposite, Bare, Allowed;
  }

  lemma AllOfThirtySix(root: Root)
    requires SquareRoot(root)
    ensures WilsonLower(root, 36, 36) == 36.0 / 39.8416 && Rate(36, 36) == 1.0
  {
    var t, a := WilsonLower(root, 36, 36), 3.8416 / 36.0;
    WilsonIsSmallerRoot(root, 36, 36);
    assert Rate(36, 36) == 1.0 && Spread(36.0) == a;
    hide WilsonLower;
    ZeroProduct(1.0 - t, 1.0 - t - a * t);
  }

  lemma ZeroProduct(x: real, y: real)
    ensures x * y == 0.0 ==> x == 0.0 || y == 0.0
  {
  }

  lemma PopularityRoundsUp()
    ensures Rate(45, 56) == 45.0 / 56.0 && Round4(Rate(45, 56)) == 0.8036
  {
    assert (45.0 / 56.0 * 10000.0).Floor == 8035;
  }

  lemma Apart(lexicon: Lexicon, p: string, q: string)
    requires TwoBehaviours(lexicon, p, q)
    ensures Allowed(lexicon, p) && Allowed(lexicon, q) && !Negated(q) && !Negated(p) && p != q
  {
    hide Allowed, Negated;
  }

  lemma SkewedClears(lexicon: Lexicon, root: Root, p: string, q: string)
    requires SquareRoot(root) && TwoBehaviours(lexicon, p, q) && Allowed(lexicon, NEGATION + q)
    ensures var b := Skewed(lexicon, p, q); Clears(root, b, p, q) && !Survives(root, RowOf(b, p, q))
  {
    hide *;
    Apart(lexicon, p, q);
    NegatedToken(lexicon, p);
    NegatedToken(lexicon, q);
    SkewedCounts(lexicon, p, q);
    AllOfThirtySix(root);
    PopularityRoundsUp();
    RowUnfolds(Skewed(lexicon, p, q), p, q);
    BarMet(root, Skewed(lexicon, p, q), p, q);
  }

  lemma {:induction false} DistinctFit<T>(xs: seq<T>, within: set<T>)
    requires Distinct(xs) && forall x :: x in xs ==> x in within
    ensures |xs| <= |within|
  {
    if xs != [] {
      var n := |xs| - 1;
      assert xs[n] in xs && forall x :: x in xs[..n] ==> x in xs && x != xs[n];
      DistinctFit(xs[..n], within - {xs[n]});
    }
  }

  /** Three tokens make few rows. */
  lemma FewRows(root: Root, b: Bank, out: seq<Pattern>, x: string, y: string, z: string)
    requires Publishes(root, b, out) && forall t :: t in b.held ==> t in {x, y, z}
    ensures |out| <= 9
  {
    hide Clears, RowOf, StrongerOrSame, InOrder;
    var rows := {RowOf(b, x, x), RowOf(b, x, y), RowOf(b, x, z)} + {RowOf(b, y, x), RowOf(b, y, y), RowOf(b, y, z)}
                + {RowOf(b, z, x), RowOf(b, z, y), RowOf(b, z, z)};
    forall r | r in out
      ensures r in rows
    {
      ClearsIsHeld(root, b, r.antecedent, r.consequent);
    }
    DistinctFit(out, rows);
  }

  lemma {:induction false} SurvivorsSurvive(root: Root, out: seq<Pattern>)
    ensures forall r :: r in Surviving(root, out) ==> Survives(root, r)
  {
    hide Survives;
    if out != [] {
      SurvivorsSurvive(root, out[..|out| - 1]);
    }
  }

  lemma NotSentOn(root: Root, out: seq<Pattern>, r: Pattern)
    requires !Survives(root, r)
    ensures Sent(r) !in SentAll(Surviving(root, out))
  {
    hide Surviving, Survives;
    SurvivorsSurvive(root, out);
    var kept := Surviving(root, out);
    forall i | 0 <= i < |kept|
      ensures SentAll(kept)[i] != Sent(r)
    {
      assert kept[i] in kept;
    }
  }

  /**
   The margin cannot be dropped: for any two behaviours there is a run of observations that publishes
   a row the collector's door lets through without.
   */
  lemma RoundingLosesARow(lexicon: Lexicon, root: Root, p: string, q: string, out: seq<Pattern>)
    requires SquareRoot(root) && TwoBehaviours(lexicon, p, q) && Allowed(lexicon, NEGATION + q)
    requires Publishes(root, Run(lexicon, SkewedCalls(p, q, 56)), out)
    ensures var r, kept := RowOf(Run(lexicon, SkewedCalls(p, q, 56)), p, q), Door(lexicon, root, SentAll(out));
            r in out && kept.Ok? && Sent(r) !in kept.value
  {
    hide *;
    var b := Run(lexicon, SkewedCalls(p, q, 56));
    IsSkewed(lexicon, p, q);
    SkewedHolders(lexicon, p, q);
    PeopleAre(0, 56);
    FewRows(root, b, out, p, q, NEGATION + q);
    SkewedClears(lexicon, root, p, q);
    PublishedOrFull(root, b, out, p, q);
    SmallPopulation();
    PublishedPassesTheDoor(lexicon, root, SkewedCalls(p, q, 56), out);
    NotSentOn(root, out, RowOf(b, p, q));
  }

  lemma IsSkewed(lexicon: Lexicon, p: string, q: string)
    ensures Skewed(lexicon, p, q) == Run(lexicon, SkewedCalls(p, q, 56))
  {
    hide Run, SkewedCalls;
  }

  lemma SmallPopulation()
    ensures 56 <= MAX_COUNT
  {
  }

  lemma PublishedOrFull(root: Root, b: Bank, out: seq<Pattern>, p: string, q: string)
    requires Publishes(root, b, out) && Clears(root, b, p, q) && |out| <= 9
    ensures RowOf(b, p, q) in out
  {
    hide Clears, RowOf, StrongerOrSame, InOrder, Distinct;
  }

  lemma BarMet(root: Root, b: Bank, p: string, q: string)
    requires |Holders(b, p)| == 36 && Support(b, p, q) == 36 && Refute(b, p, q) == 0 && Bare(p) == p && Bare(q) == q && p != q
    requires Popularity(b, q) == Some(45.0 / 56.0) && RowOf(b, p, q).base == 0.8036
    requires WilsonLower(root, 36, 36) == 36.0 / 39.8416 && Rate(36, 36) == 1.0
    ensures Clears(root, b, p, q) && !Survives(root, RowOf(b, p, q))
  {
    hide WilsonLower, Popularity, Support, Refute, Holders, Rate, Round4, Bare;
  }
}
