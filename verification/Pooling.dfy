/**
 Pooling contributions into one bank: `merged` of server/commons.py.
 */
module Pooling {
  import opened Wrappers
  import opened Json
  import opened Ordering
  import opened CommonsTokens
  import opened Contribution
  import TestimonyRecord

  type Pair = (string, string)

  /** A row as it is stored: a clean pattern of a contribution, or one of the collector's own. */
  datatype Row = Row(antecedent: string, consequent: string, support: int, refute: int, subjects: int, base: real)

  function PairOf(r: Row): Pair {
    (r.antecedent, r.consequent)
  }

  predicate Publishable(lexicon: Lexicon, r: Row) {
    Allowed(lexicon, r.antecedent) && Allowed(lexicon, r.consequent)
  }

  datatype Totals = Totals(support: int, refute: int, subjects: int, sources: nat)

  const ZERO := Totals(0, 0, 0, 0)

  function Plus(t: Totals, u: Totals): Totals {
    Totals(t.support + u.support, t.refute + u.refute, t.subjects + u.subjects, t.sources + u.sources)
  }

  function Once(r: Row): Totals {
    Totals(r.support, r.refute, r.subjects, 1)
  }

  // ---------------------------------------------------------------- what a pair should come to

  function OwnTotal(lexicon: Lexicon, own: seq<Row>, k: Pair): Totals {
    if own == [] then ZERO
    else
      var r := own[|own| - 1];
      Plus(OwnTotal(lexicon, own[..|own| - 1], k), if Publishable(lexicon, r) && PairOf(r) == k then Once(r) else ZERO)
  }

  /** An instance speaks for a pair once, by its first row for it. */
  function First(lexicon: Lexicon, rows: seq<Row>, k: Pair): Option<Row> {
    if rows == [] then None
    else if Publishable(lexicon, rows[0]) && PairOf(rows[0]) == k then Some(rows[0])
    else First(lexicon, rows[1..], k)
  }

  function Share(lexicon: Lexicon, rows: seq<Row>, k: Pair): Totals {
    var r := First(lexicon, rows, k);
    if r.Some? then Once(r.value) else ZERO
  }

  function SentTotal(lexicon: Lexicon, sent: seq<seq<Row>>, k: Pair): Totals {
    if sent == [] then ZERO
    else Plus(SentTotal(lexicon, sent[..|sent| - 1], k), Share(lexicon, sent[|sent| - 1], k))
  }

  function Total(lexicon: Lexicon, own: seq<Row>, sent: seq<seq<Row>>, k: Pair): Totals {
    Plus(OwnTotal(lexicon, own, k), SentTotal(lexicon, sent, k))
  }

  // ---------------------------------------------------------------- the rows of the bank

  datatype Pooled = Pooled(antecedent: string, consequent: string, totals: Totals, rate: real)

  predicate Enough(t: Totals) {
    t.sources > 0 && t.support + t.refute != 0 && t.support >= PRIOR_FLOOR_N
  }

  /** The nearest multiple of a thousandth, ties to the even one. */
  function Round3(x: real): real {
    var f := (x * 1000.0).Floor;
    var over := x * 1000.0 - f as real;
    (if over > 0.5 || (over == 0.5 && f % 2 == 1) then f + 1 else f) as real / 1000.0
  }

  function Ratio(s: int, n: int): real
    requires n != 0
  {
    s as real / n as real
  }

  function PooledRow(k: Pair, t: Totals): Pooled {
    Pooled(k.0, k.1, t, if t.support + t.refute == 0 then 0.0 else Round3(Ratio(t.support, t.support + t.refute)))
  }

  function Described(r: Pooled): string {
    "holds " + r.antecedent + " -> holds " + r.consequent
  }

  predicate WiderOrSame(r: Pooled, w: Pooled) {
    || r.totals.subjects > w.totals.subjects
    || (r.totals.subjects == w.totals.subjects
        && (r.rate > w.rate || (r.rate == w.rate && TestimonyRecord.AtOrBefore(Described(r), Described(w)))))
  }

  /** The bank: one row for each pair with enough behind it, widest first. */
  ghost predicate Banks(lexicon: Lexicon, own: seq<Row>, sent: seq<seq<Row>>, out: seq<Pooled>) {
    && InOrder(WiderOrSame, out) && Distinct(out)
    && (forall r :: r in out <==>
         var k := (r.antecedent, r.consequent);
         Enough(Total(lexicon, own, sent, k)) && r == PooledRow(k, Total(lexicon, own, sent, k)))
  }

  // ---------------------------------------------------------------- merged

  /** Nothing is held for a pair nobody spoke of. */
  predicate Holds(agg: map<Pair, Totals>, k: Pair, t: Totals) {
    if k in agg then agg[k] == t && t.sources > 0 else t == ZERO
  }

  /** What has been added up is what each pair comes to. */
  ghost predicate Agrees(lexicon: Lexicon, agg: map<Pair, Totals>, own: seq<Row>, sent: seq<seq<Row>>) {
    forall k :: Holds(agg, k, Total(lexicon, own, sent, k))
  }

  function AddRow(agg: map<Pair, Totals>, r: Row): map<Pair, Totals> {
    agg[PairOf(r) := Plus(if PairOf(r) in agg then agg[PairOf(r)] else ZERO, Once(r))]
  }

  lemma AddHolds(agg: map<Pair, Totals>, r: Row, k: Pair, t: Totals)
    requires Holds(agg, k, t)
    ensures Holds(AddRow(agg, r), k, if k == PairOf(r) then Plus(t, Once(r)) else t)
  {
  }

  lemma OwnTotalMore(lexicon: Lexicon, own: seq<Row>, r: Row, k: Pair)
    ensures OwnTotal(lexicon, own + [r], k) == if Publishable(lexicon, r) && k == PairOf(r) then Plus(OwnTotal(lexicon, own, k), Once(r)) else OwnTotal(lexicon, own, k)
  {
    hide Publishable;
    assert (own + [r])[..|own|] == own;
  }

  lemma OwnAgrees(lexicon: Lexicon, agg: map<Pair, Totals>, own: seq<Row>, r: Row)
    requires Agrees(lexicon, agg, own, [])
    ensures Agrees(lexicon, if Publishable(lexicon, r) then AddRow(agg, r) else agg, own + [r], [])
  {
    hide Holds, Publishable, OwnTotal, AddRow;
    forall k
      ensures Holds(if Publishable(lexicon, r) then AddRow(agg, r) else agg, k, Total(lexicon, own + [r], [], k))
    {
      OwnTotalMore(lexicon, own, r, k);
      AddHolds(agg, r, k, Total(lexicon, own, [], k));
    }
  }

  lemma {:induction false} FirstMore(lexicon: Lexicon, rows: seq<Row>, r: Row, k: Pair)
    ensures First(lexicon, rows + [r], k) ==
            if First(lexicon, rows, k).Some? then First(lexicon, rows, k)
            else if Publishable(lexicon, r) && PairOf(r) == k then Some(r) else None
  {
    hide Publishable;
    if rows != [] {
      assert (rows + [r])[1..] == rows[1..] + [r];
      FirstMore(lexicon, rows[1..], r, k);
    }
  }

  lemma SentTotalLast(lexicon: Lexicon, sent: seq<seq<Row>>, rows: seq<Row>, k: Pair)
    ensures SentTotal(lexicon, sent + [rows], k) == Plus(SentTotal(lexicon, sent, k), Share(lexicon, rows, k))
  {
    assert (sent + [rows])[..|sent|] == sent;
  }

  lemma ShareMore(lexicon: Lexicon, rows: seq<Row>, r: Row, k: Pair)
    ensures Share(lexicon, rows + [r], k) ==
            if First(lexicon, rows, k).None? && Publishable(lexicon, r) && k == PairOf(r) then Once(r) else Share(lexicon, rows, k)
  {
    hide Publishable, First;
    FirstMore(lexicon, rows, r, k);
  }

  lemma PlusNothing(t: Totals)
    ensures Plus(t, ZERO) == t
  {
  }

  lemma NewInstanceAgrees(lexicon: Lexicon, agg: map<Pair, Totals>, own: seq<Row>, sent: seq<seq<Row>>)
    requires Agrees(lexicon, agg, own, sent)
    ensures Agrees(lexicon, agg, own, sent + [[]])
  {
    hide Holds, OwnTotal, SentTotal;
    forall k
      ensures Holds(agg, k, Total(lexicon, own, sent + [[]], k))
    {
      SentTotalLast(lexicon, sent, [], k);
      FirstOfNothing(lexicon, k);
      NothingShared(lexicon, [], k);
      PlusNothing(SentTotal(lexicon, sent, k));
      assert Total(lexicon, own, sent + [[]], k) == Total(lexicon, own, sent, k);
    }
  }

  lemma SentAgrees(lexicon: Lexicon, agg: map<Pair, Totals>, own: seq<Row>, sent: seq<seq<Row>>, rows: seq<Row>, r: Row)
    requires Agrees(lexicon, agg, own, sent + [rows])
    ensures var takes := Publishable(lexicon, r) && First(lexicon, rows, PairOf(r)).None?;
            Agrees(lexicon, if takes then AddRow(agg, r) else agg, own, sent + [rows + [r]])
  {
    hide Holds, Publishable, OwnTotal, SentTotal, AddRow, First, Share;
    var takes := Publishable(lexicon, r) && First(lexicon, rows, PairOf(r)).None?;
    forall k
      ensures Holds(if takes then AddRow(agg, r) else agg, k, Total(lexicon, own, sent + [rows + [r]], k))
    {
      SentTotalLast(lexicon, sent, rows, k);
      SentTotalLast(lexicon, sent, rows + [r], k);
      ShareMore(lexicon, rows, r, k);
      NothingShared(lexicon, rows, k);
      AddHolds(agg, r, k, Total(lexicon, own, sent + [rows], k));
    }
  }

  lemma NothingShared(lexicon: Lexicon, rows: seq<Row>, k: Pair)
    ensures First(lexicon, rows, k).None? ==> Share(lexicon, rows, k) == ZERO
  {
  }

  method AddOwn(lexicon: Lexicon, own: seq<Row>) returns (agg: map<Pair, Totals>)
    ensures Agrees(lexicon, agg, own, [])
  {
    hide Publishable, Agrees;
    agg := map[];
    NothingAgrees(lexicon);
    for i := 0 to |own|
      invariant Agrees(lexicon, agg, own[..i], [])
    {
      OwnAgrees(lexicon, agg, own[..i], own[i]);
      assert own[..i] + [own[i]] == own[..i + 1];
      if !Publishable(lexicon, own[i]) {
        continue;
      }
      agg := AddRow(agg, own[i]);
    }
    assert own[..|own|] == own;
  }

  lemma FirstOfNothing(lexicon: Lexicon, k: Pair)
    ensures First(lexicon, [], k).None? && OwnTotal(lexicon, [], k) == ZERO && SentTotal(lexicon, [], k) == ZERO
  {
  }

  lemma TotalIs(lexicon: Lexicon, own: seq<Row>, sent: seq<seq<Row>>, k: Pair)
    ensures Total(lexicon, own, sent, k) == Plus(OwnTotal(lexicon, own, k), SentTotal(lexicon, sent, k))
  {
    hide OwnTotal, SentTotal, Plus;
  }

  lemma NoneTotal(lexicon: Lexicon, k: Pair)
    ensures Total(lexicon, [], [], k) == ZERO
  {
    hide *;
    FirstOfNothing(lexicon, k);
    TotalIs(lexicon, [], [], k);
    PlusNothing(ZERO);
  }

  lemma NothingAgrees(lexicon: Lexicon)
    ensures Agrees(lexicon, map[], [], [])
  {
    hide OwnTotal, SentTotal, Holds;
    var agg: map<Pair, Totals> := map[];
    forall k
      ensures Holds(agg, k, Total(lexicon, [], [], k))
    {
      FirstOfNothing(lexicon, k);
      AbsentHolds(agg, k);
    }
  }

  lemma AbsentHolds(agg: map<Pair, Totals>, k: Pair)
    requires k !in agg
    ensures Holds(agg, k, ZERO)
  {
  }

  method AddInstance(lexicon: Lexicon, agg0: map<Pair, Totals>, rows: seq<Row>, ghost own: seq<Row>, ghost sent: seq<seq<Row>>)
    returns (agg: map<Pair, Totals>)
    requires Agrees(lexicon, agg0, own, sent)
    ensures Agrees(lexicon, agg, own, sent + [rows])
  {
    hide Publishable, Agrees, First, Total;
    agg := agg0;
    var seen: set<Pair> := {};
    NewInstanceAgrees(lexicon, agg, own, sent);
    forall k {
      FirstOfNothing(lexicon, k);
    }
    for j := 0 to |rows|
      invariant Agrees(lexicon, agg, own, sent + [rows[..j]])
      invariant forall k :: k in seen <==> First(lexicon, rows[..j], k).Some?
    {
      var r := rows[j];
      SentAgrees(lexicon, agg, own, sent, rows[..j], r);
      forall k {
        FirstMore(lexicon, rows[..j], r, k);
      }
      assert rows[..j] + [r] == rows[..j + 1];
      if PairOf(r) in seen {
        continue;
      }
      if !Publishable(lexicon, r) {
        continue;
      }
      seen := seen + {PairOf(r)};
      agg := AddRow(agg, r);
    }
    assert rows[..|rows|] == rows;
  }

  method Rows(agg: map<Pair, Totals>) returns (out: seq<Pooled>)
    ensures Distinct(out)
    ensures forall r :: r in out <==> var k := (r.antecedent, r.consequent); k in agg && Enough(agg[k]) && r == PooledRow(k, agg[k])
  {
    hide PooledRow, Enough;
    out := [];
    var rest := agg.Keys;
    while rest != {}
      invariant rest <= agg.Keys && Distinct(out)
      invariant forall r :: r in out <==> var k := (r.antecedent, r.consequent); k in agg.Keys - rest && Enough(agg[k]) && r == PooledRow(k, agg[k])
      decreases |rest|
    {
      var k :| k in rest;
      RowOfPair(k, agg[k]);
      rest := rest - {k};
      if Enough(agg[k]) {
        JoinDistinct(out, [PooledRow(k, agg[k])]);
        out := out + [PooledRow(k, agg[k])];
      }
    }
  }

  lemma RowOfPair(k: Pair, t: Totals)
    ensures (PooledRow(k, t).antecedent, PooledRow(k, t).consequent) == k
  {
  }

  method Merged(lexicon: Lexicon, own: seq<Row>, sent: seq<seq<Row>>) returns (out: seq<Pooled>)
    ensures Banks(lexicon, own, sent, out)
  {
    hide *;
    var agg := AddOwn(lexicon, own);
    for i := 0 to |sent|
      invariant Agrees(lexicon, agg, own, sent[..i])
    {
      agg := AddInstance(lexicon, agg, sent[i], own, sent[..i]);
      assert sent[..i] + [sent[i]] == sent[..i + 1];
    }
    assert sent[..|sent|] == sent;
    var rows := Rows(agg);
    out := SortBy(WiderOrSame, rows);
    WidthIsTotal();
    SortOrders(WiderOrSame, rows);
    SortDistinct(WiderOrSame, rows);
    SortKeeps(WiderOrSame, rows);
    forall r
      ensures r in rows <==>
                var k := (r.antecedent, r.consequent);
                Enough(Total(lexicon, own, sent, k)) && r == PooledRow(k, Total(lexicon, own, sent, k))
    {
      AgreedRow(lexicon, agg, own, sent, (r.antecedent, r.consequent));
    }
    BanksAre(lexicon, own, sent, out);
  }

  lemma AgreedRow(lexicon: Lexicon, agg: map<Pair, Totals>, own: seq<Row>, sent: seq<seq<Row>>, k: Pair)
    requires Agrees(lexicon, agg, own, sent)
    ensures Enough(Total(lexicon, own, sent, k)) ==> k in agg
    ensures k in agg ==> agg[k] == Total(lexicon, own, sent, k)
  {
    hide Total;
    assert Holds(agg, k, Total(lexicon, own, sent, k));
  }

  lemma BanksAre(lexicon: Lexicon, own: seq<Row>, sent: seq<seq<Row>>, out: seq<Pooled>)
    requires InOrder(WiderOrSame, out) && Distinct(out)
    requires forall r :: r in out <==>
               var k := (r.antecedent, r.consequent);
               Enough(Total(lexicon, own, sent, k)) && r == PooledRow(k, Total(lexicon, own, sent, k))
    ensures Banks(lexicon, own, sent, out)
  {
    hide Total, Enough, PooledRow, WiderOrSame, InOrder, Distinct;
  }

  lemma WidthOrders(r: Pooled, w: Pooled, x: Pooled)
    ensures WiderOrSame(r, w) || WiderOrSame(w, r)
    ensures WiderOrSame(r, w) && WiderOrSame(w, x) ==> WiderOrSame(r, x)
    ensures WiderOrSame(r, w) && WiderOrSame(w, r) ==> Described(r) == Described(w)
  {
    TextsOrdered(Described(r), Described(w), Described(x));
    hide Described, TestimonyRecord.AtOrBefore, Before;
  }

  lemma WidthIsTotal()
    ensures TotalOrder(WiderOrSame)
  {
    hide WiderOrSame;
    forall r, w
      ensures WiderOrSame(r, w) || WiderOrSame(w, r)
    {
      WidthOrders(r, w, w);
    }
    forall r, w, x | WiderOrSame(r, w) && WiderOrSame(w, x)
      ensures WiderOrSame(r, x)
    {
      WidthOrders(r, w, x);
    }
  }
}
