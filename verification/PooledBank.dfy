/**
 What pooling keeps: one bank whatever order the contributors come in, nothing validated dropped,
 and no pooled rate outside what its contributors reported.
 */
module PooledBank {
  import opened Wrappers
  import opened Json
  import opened Ordering
  import opened CommonsTokens
  import opened Wilson
  import opened Contribution
  import opened Collector
  import opened Pooling

  // ---------------------------------------------------------------- whatever the order

  lemma PlusOrder(t: Totals, u: Totals, v: Totals)
    ensures Plus(Plus(t, u), v) == Plus(Plus(t, v), u)
  {
  }

  lemma {:induction false} SentTotalWithout(lexicon: Lexicon, sent: seq<seq<Row>>, i: nat, k: Pair)
    requires i < |sent|
    ensures SentTotal(lexicon, sent, k) == Plus(SentTotal(lexicon, sent[..i] + sent[i + 1..], k), Share(lexicon, sent[i], k))
  {
    hide Share, Plus;
    var n := |sent| - 1;
    var rest := sent[..i] + sent[i + 1..];
    if i < n {
      SentTotalWithout(lexicon, sent[..n], i, k);
      assert rest[..|rest| - 1] == sent[..n][..i] + sent[..n][i + 1..] && rest[|rest| - 1] == sent[n];
      PlusOrder(SentTotal(lexicon, rest[..|rest| - 1], k), Share(lexicon, sent[i], k), Share(lexicon, sent[n], k));
    } else {
      assert rest == sent[..n];
    }
  }

  lemma {:induction false} TotalForgetsOrder(lexicon: Lexicon, sent: seq<seq<Row>>, sent': seq<seq<Row>>, k: Pair)
    requires multiset(sent) == multiset(sent')
    ensures SentTotal(lexicon, sent, k) == SentTotal(lexicon, sent', k)
  {
    SameBag(sent, sent');
    hide Share, Plus;
    if sent != [] {
      var n := |sent| - 1;
      var i, rest := Matching(sent, sent');
      TotalForgetsOrder(lexicon, sent[..n], rest, k);
      SentTotalWithout(lexicon, sent', i, k);
    }
  }

  lemma Matching<T>(s: seq<T>, t: seq<T>) returns (i: nat, rest: seq<T>)
    requires s != [] && multiset(s) == multiset(t)
    ensures i < |t| && t[i] == s[|s| - 1] && rest == t[..i] + t[i + 1..] && multiset(rest) == multiset(s[..|s| - 1])
  {
    var n := |s| - 1;
    SameBag(s, t);
    assert s[n] in s;
    i :| 0 <= i < |t| && t[i] == s[n];
    rest := t[..i] + t[i + 1..];
    Removed(s, n);
    Removed(t, i);
    assert s[..n] + s[n + 1..] == s[..n];
  }

  lemma Removed<T>(s: seq<T>, i: nat)
    requires i < |s|
    ensures multiset(s[..i] + s[i + 1..]) == multiset(s) - multiset{s[i]}
  {
    assert s == s[..i] + [s[i]] + s[i + 1..];
  }

  // ---------------------------------------------------------------- one listing

  lemma {:induction false} FirstSpeaks(lexicon: Lexicon, rows: seq<Row>, k: Pair)
    ensures First(lexicon, rows, k).Some? ==> First(lexicon, rows, k).value in rows
    ensures First(lexicon, rows, k).Some? ==> Publishable(lexicon, First(lexicon, rows, k).value) && PairOf(First(lexicon, rows, k).value) == k
  {
    hide Publishable;
    if rows != [] {
      FirstSpeaks(lexicon, rows[1..], k);
    }
  }

  predicate Speakable(lexicon: Lexicon, k: Pair) {
    Allowed(lexicon, k.0) && Allowed(lexicon, k.1)
  }

  lemma {:induction false} OwnSourcesSpeak(lexicon: Lexicon, own: seq<Row>, k: Pair)
    ensures OwnTotal(lexicon, own, k).sources > 0 ==> Speakable(lexicon, k)
  {
    hide Allowed;
    if own != [] {
      OwnSourcesSpeak(lexicon, own[..|own| - 1], k);
    }
  }

  lemma {:induction false} SourcesSpeak(lexicon: Lexicon, sent: seq<seq<Row>>, k: Pair)
    ensures SentTotal(lexicon, sent, k).sources > 0 ==> Speakable(lexicon, k)
  {
    hide Allowed, First;
    if sent != [] {
      SourcesSpeak(lexicon, sent[..|sent| - 1], k);
      FirstSpeaks(lexicon, sent[|sent| - 1], k);
    }
  }

  lemma PooledIsSpeakable(lexicon: Lexicon, own: seq<Row>, sent: seq<seq<Row>>, k: Pair)
    ensures Total(lexicon, own, sent, k).sources > 0 ==> Speakable(lexicon, k)
  {
    hide Allowed, OwnTotal, SentTotal;
    OwnSourcesSpeak(lexicon, own, k);
    SourcesSpeak(lexicon, sent, k);
  }

  lemma NoSpaces(lexicon: Lexicon, t: string)
    requires Allowed(lexicon, t)
    ensures ' ' !in t
  {
    hide ForeignWord;
    assert forall c :: c in Bare(t) ==> Letter(c);
    assert ' ' !in Bare(t) && ' ' !in NEGATION;
    assert t == Bare(t) || t == NEGATION + Bare(t);
  }

  lemma FirstSpace(x: string, u: string)
    requires ' ' !in x
    ensures var t := x + " " + u;
            t[|x|] == ' ' && (forall i :: 0 <= i < |x| ==> t[i] != ' ') && t[..|x|] == x && t[|x| + 1..] == u
  {
    var t := x + " " + u;
    forall i | 0 <= i < |x|
      ensures t[i] != ' '
    {
      assert t[i] == x[i] && x[i] in x;
    }
  }

  lemma UpToSpace(x: string, y: string, u: string, v: string)
    requires ' ' !in x && ' ' !in y && x + " " + u == y + " " + v
    ensures x == y && u == v
  {
    FirstSpace(x, u);
    FirstSpace(y, v);
  }

  lemma Regrouped(h: string, a: string, m: string, m': string, c: string)
    requires m == " " + m'
    ensures h + a + m + c == h + (a + " " + (m' + c))
  {
  }

  lemma TakeOff(h: string, x: string, y: string)
    requires h + x == h + y
    ensures x == y
  {
    assert (h + x)[|h|..] == x && (h + y)[|h|..] == y;
  }

  lemma DescribedAs(r: Pooled)
    ensures Described(r) == "holds " + (r.antecedent + " " + ("-> holds " + r.consequent))
  {
    var m, m' := " -> holds ", "-> holds ";
    assert m == " " + m';
    Regrouped("holds ", r.antecedent, m, m', r.consequent);
  }

  lemma DescribedApart(lexicon: Lexicon, r: Pooled, w: Pooled)
    requires Speakable(lexicon, (r.antecedent, r.consequent)) && Speakable(lexicon, (w.antecedent, w.consequent))
    requires Described(r) == Described(w)
    ensures r.antecedent == w.antecedent && r.consequent == w.consequent
  {
    hide Allowed, Described;
    NoSpaces(lexicon, r.antecedent);
    NoSpaces(lexicon, w.antecedent);
    DescribedAs(r);
    DescribedAs(w);
    hide *;
    var h, m' := "holds ", "-> holds ";
    TakeOff(h, r.antecedent + " " + (m' + r.consequent), w.antecedent + " " + (m' + w.consequent));
    UpToSpace(r.antecedent, w.antecedent, m' + r.consequent, m' + w.consequent);
    TakeOff(m', r.consequent, w.consequent);
  }

  lemma BankKeysApart(lexicon: Lexicon, own: seq<Row>, sent: seq<seq<Row>>, out: seq<Pooled>)
    requires Banks(lexicon, own, sent, out)
    ensures KeysApart(WiderOrSame, out)
  {
    hide *;
    forall r, w | r in out && w in out && WiderOrSame(r, w) && WiderOrSame(w, r)
      ensures r == w
    {
      BankRow(lexicon, own, sent, out, r);
      BankRow(lexicon, own, sent, out, w);
      WidthOrders(r, w, w);
      PooledIsSpeakable(lexicon, own, sent, (r.antecedent, r.consequent));
      PooledIsSpeakable(lexicon, own, sent, (w.antecedent, w.consequent));
      DescribedApart(lexicon, r, w);
    }
    ApartWhen(out);
  }

  lemma ApartWhen(out: seq<Pooled>)
    requires forall r, w :: r in out && w in out && WiderOrSame(r, w) && WiderOrSame(w, r) ==> r == w
    ensures KeysApart(WiderOrSame, out)
  {
    hide WiderOrSame;
  }

  lemma BankRow(lexicon: Lexicon, own: seq<Row>, sent: seq<seq<Row>>, out: seq<Pooled>, r: Pooled)
    requires Banks(lexicon, own, sent, out) && r in out
    ensures var k := (r.antecedent, r.consequent);
            Total(lexicon, own, sent, k).sources > 0 && r == PooledRow(k, Total(lexicon, own, sent, k))
  {
    hide Total, PooledRow, InOrder, Distinct;
  }

  /** The bank is one list, whatever order the contributors' snapshots are read in. */
  lemma BankForgetsArrival(lexicon: Lexicon, own: seq<Row>, sent: seq<seq<Row>>, sent': seq<seq<Row>>, out: seq<Pooled>, out': seq<Pooled>)
    requires Banks(lexicon, own, sent, out) && Banks(lexicon, own, sent', out') && multiset(sent) == multiset(sent')
    ensures out == out'
  {
    forall k
      ensures Total(lexicon, own, sent, k) == Total(lexicon, own, sent', k)
    {
      TotalForgetsOrder(lexicon, sent, sent', k);
    }
    SameTotalsSameBank(lexicon, own, sent, sent', out, out');
  }

  lemma SameTotalsSameBank(lexicon: Lexicon, own: seq<Row>, sent: seq<seq<Row>>, sent': seq<seq<Row>>, out: seq<Pooled>, out': seq<Pooled>)
    requires Banks(lexicon, own, sent, out) && Banks(lexicon, own, sent', out')
    requires forall k :: Total(lexicon, own, sent, k) == Total(lexicon, own, sent', k)
    ensures out == out'
  {
    BankKeysApart(lexicon, own, sent, out);
    hide Total, Enough, PooledRow, InOrder, WiderOrSame, KeysApart, Distinct;
    assert forall r :: r in out <==> r in out';
    DistinctSame(out, out');
    OneOrder(WiderOrSame, out, out');
  }

  // ---------------------------------------------------------------- the bank, in counts

  predicate About(lexicon: Lexicon, r: Row, k: Pair) {
    (r.antecedent, r.consequent) == k && Allowed(lexicon, r.antecedent) && Allowed(lexicon, r.consequent)
  }

  /** Nobody's rows come to nothing. */
  lemma NobodySpoke(lexicon: Lexicon, k: Pair)
    ensures var t := Total(lexicon, [], [], k); t.support == 0 && t.refute == 0 && t.subjects == 0 && t.sources == 0
  {
    hide Total;
    NoneTotal(lexicon, k);
  }

  /** A row more of the collector's own adds its counts to its pair, and to no other. */
  lemma OwnRowCounts(lexicon: Lexicon, own: seq<Row>, sent: seq<seq<Row>>, r: Row, k: Pair)
    ensures var t, u, takes := Total(lexicon, own, sent, k), Total(lexicon, own + [r], sent, k), About(lexicon, r, k);
            && u.support == t.support + (if takes then r.support else 0) && u.refute == t.refute + (if takes then r.refute else 0)
            && u.subjects == t.subjects + (if takes then r.subjects else 0) && u.sources == t.sources + (if takes then 1 else 0)
  {
    hide Allowed, SentTotal;
    OwnTotalMore(lexicon, own, r, k);
  }

  /** An instance more adds the counts of the first row it has for the pair, if it has one. */
  lemma InstanceCounts(lexicon: Lexicon, own: seq<Row>, sent: seq<seq<Row>>, rows: seq<Row>, i: nat, k: Pair)
    requires i <= |rows| && (forall n :: 0 <= n < i ==> !About(lexicon, rows[n], k)) && (i < |rows| ==> About(lexicon, rows[i], k))
    ensures var t, u, takes := Total(lexicon, own, sent, k), Total(lexicon, own, sent + [rows], k), i < |rows|;
            && u.support == t.support + (if takes then rows[i].support else 0) && u.refute == t.refute + (if takes then rows[i].refute else 0)
            && u.subjects == t.subjects + (if takes then rows[i].subjects else 0) && u.sources == t.sources + (if takes then 1 else 0)
  {
    hide Allowed, OwnTotal, SentTotal, First;
    SentTotalLast(lexicon, sent, rows, k);
    FirstAt(lexicon, rows, i, k);
  }

  lemma {:induction false} FirstAt(lexicon: Lexicon, rows: seq<Row>, i: nat, k: Pair)
    requires i <= |rows| && (forall n :: 0 <= n < i ==> !About(lexicon, rows[n], k)) && (i < |rows| ==> About(lexicon, rows[i], k))
    ensures First(lexicon, rows, k) == if i < |rows| then Some(rows[i]) else None
  {
    hide Allowed;
    if i > 0 {
      assert forall n :: 0 <= n < i - 1 ==> rows[1..][n] == rows[n + 1];
      FirstAt(lexicon, rows[1..], i - 1, k);
    }
  }

  /**
   A row is in the bank exactly when somebody spoke for its pair and three at least were in support; it
   carries the sums and their rate to the nearest thousandth.
   */
  lemma BankMeans(lexicon: Lexicon, own: seq<Row>, sent: seq<seq<Row>>, out: seq<Pooled>, r: Pooled)
    requires Banks(lexicon, own, sent, out)
    ensures var t := Total(lexicon, own, sent, (r.antecedent, r.consequent));
            r in out <==>
              && t.sources >= 1 && t.support >= 3 && t.support + t.refute != 0
              && r.totals == t && r.rate == Round3(t.support as real / (t.support + t.refute) as real)
    ensures var t := Total(lexicon, own, sent, (r.antecedent, r.consequent));
            r in out ==> Nearest(r.rate, t.support as real / (t.support + t.refute) as real, 1000.0)
  {
    var t := Total(lexicon, own, sent, (r.antecedent, r.consequent));
    hide Total, InOrder, Distinct, Nearest, Round3;
    if t.support + t.refute != 0 {
      Round3Nearest(t.support as real / (t.support + t.refute) as real);
    }
  }

  lemma Round3Nearest(x: real)
    ensures Nearest(Round3(x), x, 1000.0)
  {
    var f := (x * 1000.0).Floor;
    var over := x * 1000.0 - f as real;
    var k := if over > 0.5 || (over == 0.5 && f % 2 == 1) then f + 1 else f;
    assert NearestAt(k, Round3(x), x, 1000.0);
  }

  /** The bank runs from the widest: by people, then by rate, then by what a row says. */
  lemma WidestFirst(lexicon: Lexicon, own: seq<Row>, sent: seq<seq<Row>>, out: seq<Pooled>, i: nat, j: nat)
    requires Banks(lexicon, own, sent, out) && i < j < |out|
    ensures out[i].totals.subjects >= out[j].totals.subjects
    ensures out[i].totals.subjects == out[j].totals.subjects ==> out[i].rate >= out[j].rate
    ensures out[i].totals.subjects == out[j].totals.subjects && out[i].rate == out[j].rate ==>
              !Before("holds " + out[j].antecedent + " -> holds " + out[j].consequent,
                      "holds " + out[i].antecedent + " -> holds " + out[i].consequent)
    ensures (out[i].antecedent, out[i].consequent) != (out[j].antecedent, out[j].consequent)
  {
    hide Total, Enough, PooledRow, Before;
    assert out[i] in out && out[j] in out;
    assert WiderOrSame(out[i], out[j]) && out[i] != out[j];
  }

  // ---------------------------------------------------------------- nothing validated is dropped

  function Offer(r: Row): Offered {
    Offered(r.antecedent, r.consequent, r.support, r.refute, r.subjects, Some(r.base))
  }

  /** Every row counted towards a pair meets `p`. */
  ghost predicate AllCounted(lexicon: Lexicon, own: seq<Row>, sent: seq<seq<Row>>, k: Pair, p: Row -> bool) {
    && (forall r :: r in own && Publishable(lexicon, r) && PairOf(r) == k ==> p(r))
    && (forall rows :: rows in sent && First(lexicon, rows, k).Some? ==> p(First(lexicon, rows, k).value))
  }

  /** The share of support lies between two rates. */
  ghost predicate Within(t: Totals, lo: real, hi: real) {
    var n := (t.support + t.refute) as real;
    n >= 0.0 && lo * n <= t.support as real <= hi * n && t.support >= 3 * t.sources && (t.sources > 0 ==> n > 0.0)
  }

  ghost predicate RowWithin(r: Row, lo: real, hi: real) {
    r.support >= PRIOR_FLOOR_N && r.refute >= 0 && lo <= Rate(r.support, r.support + r.refute) <= hi
  }

  lemma Distribute(x: real, m: real, n: real)
    ensures x * (m + n) == x * m + x * n
  {
  }

  lemma WithinAdds(t: Totals, u: Totals, lo: real, hi: real)
    requires Within(t, lo, hi) && Within(u, lo, hi)
    ensures Within(Plus(t, u), lo, hi)
  {
    var m, n := (t.support + t.refute) as real, (u.support + u.refute) as real;
    Distribute(lo, m, n);
    Distribute(hi, m, n);
    SumsAdd(t, u);
    var a, b := lo * (m + n), hi * (m + n);
    assert a == lo * m + lo * n && b == hi * m + hi * n;
  }

  lemma SumsAdd(t: Totals, u: Totals)
    ensures var v := Plus(t, u);
            && (v.support + v.refute) as real == (t.support + t.refute) as real + (u.support + u.refute) as real
            && v.support as real == t.support as real + u.support as real
  {
  }

  lemma OnceWithin(r: Row, lo: real, hi: real)
    requires RowWithin(r, lo, hi)
    ensures Within(Once(r), lo, hi)
  {
    var n := r.support + r.refute;
    RateIsARate(r.support, n);
    var q := Rate(r.support, n);
    hide Rate;
    Scaled(n as real, q, lo);
    Scaled(n as real, hi, q);
    Turn(lo, n as real);
    Turn(hi, n as real);
    Turn(q, n as real);
  }

  lemma Turn(x: real, y: real)
    ensures x * y == y * x
  {
  }

  lemma ZeroWithin(lo: real, hi: real)
    ensures Within(ZERO, lo, hi)
  {
  }

  lemma {:induction false} OwnWithin(lexicon: Lexicon, own: seq<Row>, k: Pair, lo: real, hi: real)
    requires forall r :: r in own && Publishable(lexicon, r) && PairOf(r) == k ==> RowWithin(r, lo, hi)
    ensures Within(OwnTotal(lexicon, own, k), lo, hi)
  {
    hide Publishable, RowWithin, Within, Plus, Once;
    ZeroWithin(lo, hi);
    if own != [] {
      var r := own[|own| - 1];
      assert r in own;
      OwnWithin(lexicon, own[..|own| - 1], k, lo, hi);
      var more := if Publishable(lexicon, r) && PairOf(r) == k then Once(r) else ZERO;
      if Publishable(lexicon, r) && PairOf(r) == k {
        OnceWithin(r, lo, hi);
      }
      WithinAdds(OwnTotal(lexicon, own[..|own| - 1], k), more, lo, hi);
    }
  }

  lemma {:induction false} SentWithin(lexicon: Lexicon, sent: seq<seq<Row>>, k: Pair, lo: real, hi: real)
    requires forall rows :: rows in sent && First(lexicon, rows, k).Some? ==> RowWithin(First(lexicon, rows, k).value, lo, hi)
    ensures Within(SentTotal(lexicon, sent, k), lo, hi)
  {
    hide First, RowWithin, Within, Plus, Once;
    ZeroWithin(lo, hi);
    if sent != [] {
      var rows := sent[|sent| - 1];
      assert rows in sent;
      SentWithin(lexicon, sent[..|sent| - 1], k, lo, hi);
      if First(lexicon, rows, k).Some? {
        OnceWithin(First(lexicon, rows, k).value, lo, hi);
      }
      WithinAdds(SentTotal(lexicon, sent[..|sent| - 1], k), Share(lexicon, rows, k), lo, hi);
    }
  }

  /** A pooled rate lies between the lowest and the highest of its contributors' rates. */
  lemma PooledRateBetween(lexicon: Lexicon, own: seq<Row>, sent: seq<seq<Row>>, k: Pair, lo: real, hi: real)
    requires AllCounted(lexicon, own, sent, k, r => RowWithin(r, lo, hi))
    requires Total(lexicon, own, sent, k).sources > 0
    ensures var t := Total(lexicon, own, sent, k);
            Enough(t) && t.support + t.refute > 0 && lo <= Ratio(t.support, t.support + t.refute) <= hi
  {
    hide First, Publishable, RowWithin, OwnTotal, SentTotal, Within;
    OwnWithin(lexicon, own, k, lo, hi);
    SentWithin(lexicon, sent, k, lo, hi);
    WithinAdds(OwnTotal(lexicon, own, k), SentTotal(lexicon, sent, k), lo, hi);
    RatioWithin(Total(lexicon, own, sent, k), lo, hi);
  }

  lemma RatioWithin(t: Totals, lo: real, hi: real)
    requires Within(t, lo, hi) && t.sources > 0
    ensures Enough(t) && t.support + t.refute > 0 && lo <= Ratio(t.support, t.support + t.refute) <= hi
  {
    var n := (t.support + t.refute) as real;
    var q := Ratio(t.support, t.support + t.refute);
    assert q * n == t.support as real;
    Turn(q, n);
    Turn(lo, n);
    Turn(hi, n);
    Scaled(n, q, lo);
    Scaled(n, hi, q);
  }

  lemma KeptWithin(lexicon: Lexicon, root: Root, r: Row)
    requires SquareRoot(root) && Judge(lexicon, root, Offer(r)) == Kept
    ensures RowWithin(r, PRIOR_MIN_RATE, 1.0)
  {
    hide Judge, Allowed;
    KeptMeans(lexicon, root, Offer(r));
    RateIsARate(r.support, r.support + r.refute);
  }

  /**
   A pair whose every counted row passed the door is in the bank, and its pooled rate is still at
   least what each of them had to reach.
   */
  lemma ValidatedIsPooled(lexicon: Lexicon, root: Root, own: seq<Row>, sent: seq<seq<Row>>, out: seq<Pooled>, k: Pair)
    requires SquareRoot(root) && Banks(lexicon, own, sent, out)
    requires AllCounted(lexicon, own, sent, k, r => Judge(lexicon, root, Offer(r)) == Kept)
    requires Total(lexicon, own, sent, k).sources > 0
    ensures var t := Total(lexicon, own, sent, k);
            && PooledRow(k, t) in out
            && t.support + t.refute > 0 && Ratio(t.support, t.support + t.refute) >= PRIOR_MIN_RATE
  {
    hide *;
    forall r | Judge(lexicon, root, Offer(r)) == Kept
      ensures RowWithin(r, PRIOR_MIN_RATE, 1.0)
    {
      KeptWithin(lexicon, root, r);
    }
    CountedStronger(lexicon, own, sent, k, r => Judge(lexicon, root, Offer(r)) == Kept, r => RowWithin(r, PRIOR_MIN_RATE, 1.0));
    PooledRateBetween(lexicon, own, sent, k, PRIOR_MIN_RATE, 1.0);
    EnoughIsBanked(lexicon, own, sent, out, k);
  }

  lemma CountedStronger(lexicon: Lexicon, own: seq<Row>, sent: seq<seq<Row>>, k: Pair, p: Row -> bool, q: Row -> bool)
    requires AllCounted(lexicon, own, sent, k, p) && forall r :: p(r) ==> q(r)
    ensures AllCounted(lexicon, own, sent, k, q)
  {
    hide First, Publishable;
  }

  lemma EnoughIsBanked(lexicon: Lexicon, own: seq<Row>, sent: seq<seq<Row>>, out: seq<Pooled>, k: Pair)
    requires Banks(lexicon, own, sent, out) && Enough(Total(lexicon, own, sent, k))
    ensures PooledRow(k, Total(lexicon, own, sent, k)) in out
  {
    hide Total, Enough, InOrder, Distinct, PooledRow;
    RowOfPair(k, Total(lexicon, own, sent, k));
  }

  lemma {:induction false} FirstFinds(lexicon: Lexicon, rows: seq<Row>, r: Row)
    requires r in rows && Publishable(lexicon, r)
    ensures First(lexicon, rows, PairOf(r)).Some?
  {
    hide Publishable;
    if rows[0] != r {
      FirstFinds(lexicon, rows[1..], r);
    }
  }

  lemma {:induction false} SpeakersCounted(lexicon: Lexicon, sent: seq<seq<Row>>, rows: seq<Row>, k: Pair)
    requires rows in sent && First(lexicon, rows, k).Some?
    ensures SentTotal(lexicon, sent, k).sources > 0
  {
    hide First;
    var n := |sent| - 1;
    if sent[n] != rows {
      assert rows in sent[..n];
      SpeakersCounted(lexicon, sent[..n], rows, k);
    }
  }

  lemma {:induction false} OwnIsNotNegative(lexicon: Lexicon, own: seq<Row>, k: Pair)
    requires forall w :: w in own ==> w.support >= 0 && w.refute >= 0
    ensures OwnTotal(lexicon, own, k).support >= 0 && OwnTotal(lexicon, own, k).refute >= 0
  {
    hide Publishable;
    if own != [] {
      assert own[|own| - 1] in own;
      OwnIsNotNegative(lexicon, own[..|own| - 1], k);
    }
  }

  lemma EnoughSent(own: Totals, sent: Totals)
    requires own.support >= 0 && own.refute >= 0 && Within(sent, PRIOR_MIN_RATE, 1.0) && sent.sources > 0
    ensures Enough(Plus(own, sent))
  {
  }

  /** What passed the door keeps what was counted from it within the rates the door asks for. */
  lemma SentPassed(lexicon: Lexicon, root: Root, sent: seq<seq<Row>>, k: Pair)
    requires SquareRoot(root)
    requires forall rs, w :: rs in sent && w in rs ==> Judge(lexicon, root, Offer(w)) == Kept
    ensures Within(SentTotal(lexicon, sent, k), PRIOR_MIN_RATE, 1.0)
  {
    hide *;
    forall rs | rs in sent && First(lexicon, rs, k).Some?
      ensures RowWithin(First(lexicon, rs, k).value, PRIOR_MIN_RATE, 1.0)
    {
      FirstSpeaks(lexicon, rs, k);
      KeptWithin(lexicon, root, First(lexicon, rs, k).value);
    }
    SentWithin(lexicon, sent, k, PRIOR_MIN_RATE, 1.0);
  }

  lemma SentCounts(lexicon: Lexicon, root: Root, sent: seq<seq<Row>>, rows: seq<Row>, r: Row)
    requires SquareRoot(root) && rows in sent && r in rows && Judge(lexicon, root, Offer(r)) == Kept
    ensures SentTotal(lexicon, sent, PairOf(r)).sources > 0
  {
    hide *;
    KeptIsPublishable(lexicon, root, r);
    FirstFinds(lexicon, rows, r);
    SpeakersCounted(lexicon, sent, rows, PairOf(r));
  }

  /**
   When every row sent passed the door, every pair anybody sent is in the bank, whatever the
   collector's own rows, which never pass it; without any, at a rate the door would accept.
   */
  lemma NothingValidatedIsDropped(lexicon: Lexicon, root: Root, own: seq<Row>, sent: seq<seq<Row>>, out: seq<Pooled>,
                                  rows: seq<Row>, r: Row)
    requires SquareRoot(root) && Banks(lexicon, own, sent, out)
    requires forall w :: w in own ==> w.support >= 0 && w.refute >= 0
    requires forall rs, w :: rs in sent && w in rs ==> Judge(lexicon, root, Offer(w)) == Kept
    requires rows in sent && r in rows
    ensures var t := Total(lexicon, own, sent, PairOf(r));
            && PooledRow(PairOf(r), t) in out
            && t.support + t.refute > 0
            && (own == [] ==> Ratio(t.support, t.support + t.refute) >= PRIOR_MIN_RATE)
  {
    hide *;
    var k := PairOf(r);
    SentCounts(lexicon, root, sent, rows, r);
    SentPassed(lexicon, root, sent, k);
    OwnIsNotNegative(lexicon, own, k);
    EnoughSent(OwnTotal(lexicon, own, k), SentTotal(lexicon, sent, k));
    TotalIsBoth(lexicon, own, sent, k);
    EnoughIsBanked(lexicon, own, sent, out, k);
    AddsUp(OwnTotal(lexicon, own, k), SentTotal(lexicon, sent, k));
    RatioWithin(SentTotal(lexicon, sent, k), PRIOR_MIN_RATE, 1.0);
  }

  lemma TotalIsBoth(lexicon: Lexicon, own: seq<Row>, sent: seq<seq<Row>>, k: Pair)
    ensures Total(lexicon, own, sent, k) == Plus(OwnTotal(lexicon, own, k), SentTotal(lexicon, sent, k))
    ensures own == [] ==> Total(lexicon, own, sent, k) == SentTotal(lexicon, sent, k)
  {
    hide SentTotal;
  }

  lemma AddsUp(own: Totals, sent: Totals)
    requires own.support >= 0 && own.refute >= 0 && Within(sent, PRIOR_MIN_RATE, 1.0) && sent.sources > 0
    ensures var t := Plus(own, sent); t.support + t.refute > 0
  {
  }

  lemma KeptIsPublishable(lexicon: Lexicon, root: Root, r: Row)
    requires SquareRoot(root) && Judge(lexicon, root, Offer(r)) == Kept
    ensures Publishable(lexicon, r)
  {
    hide Judge, Rate, Allowed;
    KeptMeans(lexicon, root, Offer(r));
  }
}
