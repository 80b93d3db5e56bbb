/**
 What every answer keeps of the entries gathered, whatever the answers and their order.

 * Names are distinct. A generated name carries a number already given out, and a belief keeps the
   id the memory gave it, which must not be one the exporter could generate.
 * Whatever an entry refers to is there, is of the right type, and is dated no later than the entry:
   the evidence of a belief, the sides of a conflict, the approval of a decision and the decision of
   an approval.
 * The pool of sources leads to evidence, and the beliefs seen are exactly the beliefs gathered.

 A source cited again can only move earlier, so nothing that rested on it is left hanging.
 */
module ExporterInvariant {
  import opened Wrappers
  import opened Json
  import opened Export
  import opened Gathering
  import opened JsonReader

  // ---------------------------------------------------------------- names

  lemma NumberedIsInjective(kind: string, kind': string, m: nat, n: nat)
    requires kind in NUMBERED && kind' in NUMBERED && Numbered(kind, m) == Numbered(kind', n)
    ensures kind == kind' && m == n
  {
    var x := Numbered(kind, m);
    assert |kind| == |kind'| == 8;
    assert x[..8] == kind && x[..8] == kind';
    assert x[9..] == NatText(m) && x[9..] == NatText(n);
    DigitsRead(m, "");
    DigitsRead(n, "");
  }

  lemma IntegrityIsNotNumbered(kind: string, n: nat)
    requires kind in NUMBERED
    ensures Numbered(kind, n) != "integrity_1"
  {
    assert |kind| == 8;
    assert Numbered(kind, n)[8] == '_' && "integrity_1"[8] == 'y';
  }

  // ---------------------------------------------------------------- the invariant

  ghost predicate Linked(ds: seq<Draft>) {
    DistinctIds(ds) && AllGrounded(ds)
  }

  ghost predicate PoolLeadsToEvidence(s: State) {
    forall k :: k in s.pool ==> s.pool[k] < |s.entries| && s.entries[s.pool[k]].body.Evidence?
  }

  ghost predicate SeenAreTheBeliefs(s: State) {
    && (forall x :: x in s.seen ==> s.seen[x] < |s.entries| && s.entries[s.seen[x]].body.Belief? && s.entries[s.seen[x]].id == x)
    && (forall i :: 0 <= i < |s.entries| && s.entries[i].body.Belief? ==> s.entries[i].id in s.seen)
  }

  ghost predicate Good(s: State) {
    && Linked(s.entries)
    && AllNamed(s.entries, |s.pool|, s.rows, s.n)
    && PoolLeadsToEvidence(s)
    && SeenAreTheBeliefs(s)
  }

  /** `es` has whatever `ds` has, no later. */
  ghost predicate Keeps(ds: seq<Draft>, es: seq<Draft>) {
    forall id, kind, ts :: Has(ds, id, kind, ts) ==> Has(es, id, kind, ts)
  }

  lemma KeepsAppended(ds: seq<Draft>, more: seq<Draft>)
    ensures Keeps(ds, ds + more)
  {
    forall id, kind, ts | Has(ds, id, kind, ts)
      ensures Has(ds + more, id, kind, ts)
    {
      var j :| 0 <= j < |ds| && ds[j].id == id && TypeOf(ds[j].body) == kind && ds[j].ts <= ts;
      assert (ds + more)[j] == ds[j];
    }
  }

  lemma KeepsEarlier(ds: seq<Draft>, j: nat, ts: int)
    requires j < |ds| && ts <= ds[j].ts
    ensures Keeps(ds, ds[j := ds[j].(ts := ts)])
  {
    var es := ds[j := ds[j].(ts := ts)];
    forall id, kind, t | Has(ds, id, kind, t)
      ensures Has(es, id, kind, t)
    {
      var i :| 0 <= i < |ds| && ds[i].id == id && TypeOf(ds[i].body) == kind && ds[i].ts <= t;
      assert es[i].id == id && TypeOf(es[i].body) == kind && es[i].ts <= t;
    }
  }

  lemma KeepsGrounded(ds: seq<Draft>, es: seq<Draft>, d: Draft)
    requires Keeps(ds, es) && Grounded(ds, d)
    ensures Grounded(es, d)
  {
    hide Has;
  }

  lemma LinkedAppended(ds: seq<Draft>, more: seq<Draft>)
    requires Linked(ds) && DistinctIds(ds + more)
    requires forall i :: 0 <= i < |more| ==> Grounded(ds + more, more[i])
    ensures Linked(ds + more)
  {
    hide Grounded;
    KeepsAppended(ds, more);
    forall i | 0 <= i < |ds + more|
      ensures Grounded(ds + more, (ds + more)[i])
    {
      if i < |ds| {
        KeepsGrounded(ds, ds + more, ds[i]);
        assert (ds + more)[i] == ds[i];
      } else {
        assert (ds + more)[i] == more[i - |ds|];
      }
    }
  }

  lemma LinkedEarlier(ds: seq<Draft>, j: nat, ts: int)
    requires Linked(ds) && j < |ds| && ds[j].body.Evidence? && ts <= ds[j].ts
    ensures Linked(ds[j := ds[j].(ts := ts)])
  {
    var es := ds[j := ds[j].(ts := ts)];
    KeepsEarlier(ds, j, ts);
    forall i | 0 <= i < |es|
      ensures Grounded(es, es[i])
    {
      if i != j {
        KeepsGrounded(ds, es, ds[i]);
      }
    }
  }

  /** A name not given out before. */
  lemma FreshName(s: State, evidence: nat, rows: nat, n: nat, kind: string, m: nat)
    requires AllNamed(s.entries, evidence, rows, n) && kind in NUMBERED
    requires kind == "evidence" ==> m > evidence
    requires kind == "conflict" ==> m > rows
    requires kind == "decision" || kind == "approval" ==> m > n
    ensures forall i :: 0 <= i < |s.entries| ==> s.entries[i].id != Numbered(kind, m)
  {
    forall i | 0 <= i < |s.entries|
      ensures s.entries[i].id != Numbered(kind, m)
    {
      var d := s.entries[i];
      assert NamedWithin(d, evidence, rows, n);
      if d.id == Numbered(kind, m) {
        if d.body.Belief? {
          assert Generated(d.id);
        } else {
          var k: nat :| d.id == Numbered(TypeOf(d.body), k) && (d.body.Evidence? ==> k <= evidence)
                        && (d.body.Conflict? ==> k <= rows) && (d.body.Decision? || d.body.Approval? ==> k <= n);
          NumberedIsInjective(TypeOf(d.body), kind, k, m);
        }
      }
    }
  }

  lemma NamedMore(ds: seq<Draft>, e: nat, c: nat, a: nat, e': nat, c': nat, a': nat)
    requires AllNamed(ds, e, c, a) && e <= e' && c <= c' && a <= a'
    ensures AllNamed(ds, e', c', a')
  {
  }

  /** `id` leads `k` to an entry of the right kind, in `s` already or among those just appended. */
  ghost predicate PoolLeads(s: State, t: State) {
    forall k :: k in t.pool ==>
      || (k in s.pool && t.pool[k] == s.pool[k])
      || (|s.entries| <= t.pool[k] < |t.entries| && t.entries[t.pool[k]].body.Evidence?)
  }

  ghost predicate SeenLeads(s: State, t: State) {
    && (forall x :: x in s.seen ==> x in t.seen)
    && (forall x :: x in t.seen ==>
         || (x in s.seen && t.seen[x] == s.seen[x])
         || (|s.entries| <= t.seen[x] < |t.entries| && t.entries[t.seen[x]].body.Belief? && t.entries[t.seen[x]].id == x))
  }

  lemma AppendKeepsGood(s: State, t: State, more: seq<Draft>)
    requires Good(s) && t.entries == s.entries + more
    requires PoolLeads(s, t) && SeenLeads(s, t)
    requires |s.pool| <= |t.pool| && s.rows <= t.rows && s.n <= t.n
    requires DistinctIds(t.entries) && AllNamed(more, |t.pool|, t.rows, t.n)
    requires forall i :: 0 <= i < |more| ==> Grounded(t.entries, more[i]) && (more[i].body.Belief? ==> more[i].id in t.seen)
    ensures Good(t) && Keeps(s.entries, t.entries)
  {
    hide PoolLeads, SeenLeads, Has, Grounded, NamedWithin, DistinctIds;
    KeepsAppended(s.entries, more);
    LinkedAppended(s.entries, more);
    NamedMore(s.entries, |s.pool|, s.rows, s.n, |t.pool|, t.rows, t.n);
    NamedAppended(s.entries, more, |t.pool|, t.rows, t.n);
    hide Linked, AllNamed, Keeps;
    LeadsAppended(s, t, more);
  }

  lemma NamedAppended(ds: seq<Draft>, more: seq<Draft>, e: nat, c: nat, a: nat)
    requires AllNamed(ds, e, c, a) && AllNamed(more, e, c, a)
    ensures AllNamed(ds + more, e, c, a)
  {
  }

  lemma LeadsAppended(s: State, t: State, more: seq<Draft>)
    requires PoolLeadsToEvidence(s) && SeenAreTheBeliefs(s) && t.entries == s.entries + more
    requires PoolLeads(s, t) && SeenLeads(s, t)
    requires forall i :: 0 <= i < |more| ==> more[i].body.Belief? ==> more[i].id in t.seen
    ensures PoolLeadsToEvidence(t) && SeenAreTheBeliefs(t)
  {
    assert forall i :: 0 <= i < |s.entries| ==> t.entries[i] == s.entries[i];
    assert forall i :: |s.entries| <= i < |t.entries| ==> t.entries[i] == more[i - |s.entries|];
  }

  /** The case of one new entry. */
  lemma AppendOneKeepsGood(s: State, t: State, d: Draft)
    requires Good(s) && t.entries == s.entries + [d]
    requires PoolLeads(s, t) && SeenLeads(s, t)
    requires |s.pool| <= |t.pool| && s.rows <= t.rows && s.n <= t.n
    requires forall i :: 0 <= i < |s.entries| ==> s.entries[i].id != d.id
    requires NamedWithin(d, |t.pool|, t.rows, t.n) && Grounded(s.entries, d)
    requires d.body.Belief? ==> d.id in t.seen
    ensures Good(t) && Keeps(s.entries, t.entries)
  {
    hide PoolLeads, SeenLeads, Grounded, Has, NamedWithin;
    assert DistinctIds(t.entries);
    KeepsAppended(s.entries, [d]);
    KeepsGrounded(s.entries, t.entries, d);
    AppendKeepsGood(s, t, [d]);
  }

  // ---------------------------------------------------------------- beliefs and their sources

  lemma CiteKeepsGood(s: State, c: Citation)
    requires Good(s)
    ensures var (t, id) := Cite(s, c);
            && Good(t) && t.seen == s.seen && Keeps(s.entries, t.entries)
            && Has(t.entries, id, "evidence", c.ts)
  {
    hide Good, Keeps, Has;
    if c.key in s.pool {
      CiteAgainKeepsGood(s, c);
    } else {
      CiteNewKeepsGood(s, c);
    }
  }

  lemma CiteAgainKeepsGood(s: State, c: Citation)
    requires Good(s) && c.key in s.pool
    ensures var (t, id) := Cite(s, c);
            && Good(t) && t.seen == s.seen && Keeps(s.entries, t.entries)
            && Has(t.entries, id, "evidence", c.ts)
  {
    hide Has, Linked, Keeps, AllNamed;
    var (t, id) := Cite(s, c);
    var j := s.pool[c.key];
    if c.ts < s.entries[j].ts {
      KeepsEarlier(s.entries, j, c.ts);
      LinkedEarlier(s.entries, j, c.ts);
      NamedEarlier(s.entries, j, c.ts, |s.pool|, s.rows, s.n);
      assert forall i :: 0 <= i < |s.entries| ==> t.entries[i].id == s.entries[i].id && t.entries[i].body == s.entries[i].body;
    } else {
      KeepsItself(s.entries);
    }
    HasAt(t.entries, j, c.ts);
  }

  lemma NamedEarlier(ds: seq<Draft>, j: nat, ts: int, e: nat, c: nat, a: nat)
    requires AllNamed(ds, e, c, a) && j < |ds|
    ensures AllNamed(ds[j := ds[j].(ts := ts)], e, c, a)
  {
    var es := ds[j := ds[j].(ts := ts)];
    forall i | 0 <= i < |es|
      ensures NamedWithin(es[i], e, c, a)
    {
      assert NamedWithin(ds[i], e, c, a) && es[i].id == ds[i].id && es[i].body == ds[i].body;
    }
  }

  lemma KeepsItself(ds: seq<Draft>)
    ensures Keeps(ds, ds)
  {
  }

  lemma HasAt(ds: seq<Draft>, j: nat, ts: int)
    requires j < |ds| && ds[j].ts <= ts
    ensures Has(ds, ds[j].id, TypeOf(ds[j].body), ts)
  {
  }

  lemma CiteNewKeepsGood(s: State, c: Citation)
    requires Good(s) && c.key !in s.pool
    ensures var (t, id) := Cite(s, c);
            && Good(t) && t.seen == s.seen && Keeps(s.entries, t.entries)
            && Has(t.entries, id, "evidence", c.ts)
  {
    CiteNew(s, c);
    hide *;
    var (t, id) := Cite(s, c);
    var d := Draft(id, c.ts, Evidence, c.extra);
    AppendOneKeepsGood(s, t, d);
    HasAt(t.entries, |s.entries|, c.ts);
    TypeOfEvidence(d);
  }

  lemma TypeOfEvidence(d: Draft)
    ensures d.body.Evidence? ==> TypeOf(d.body) == "evidence"
  {
  }

  lemma CiteNew(s: State, c: Citation)
    requires Good(s) && c.key !in s.pool
    ensures var (t, id) := Cite(s, c);
            var d := Draft(id, c.ts, Evidence, c.extra);
            && t.entries == s.entries + [d] && t.seen == s.seen && t.rows == s.rows && t.n == s.n
            && |t.pool| == |s.pool| + 1 && PoolLeads(s, t) && SeenLeads(s, t)
            && NamedWithin(d, |t.pool|, t.rows, t.n) && Grounded(s.entries, d)
            && forall i :: 0 <= i < |s.entries| ==> s.entries[i].id != d.id
  {
    hide Linked, PoolLeadsToEvidence, SeenAreTheBeliefs, PoolLeads, SeenLeads, AllNamed;
    var (t, id) := Cite(s, c);
    assert |t.pool| == |s.pool| + 1 by {
      assert t.pool.Keys == s.pool.Keys + {c.key};
    }
    FreshName(s, |s.pool|, s.rows, s.n, "evidence", |s.pool| + 1);
    PoolGrows(s, t, c.key);
  }

  lemma PoolGrows(s: State, t: State, key: string)
    requires |t.entries| == |s.entries| + 1 && t.entries[|s.entries|].body.Evidence?
    requires t.pool == s.pool[key := |s.entries|] && t.seen == s.seen
    ensures PoolLeads(s, t) && SeenLeads(s, t)
  {
  }

  lemma {:induction false} CiteAllKeepsGood(s: State, cs: seq<Citation>, ts: int)
    requires Good(s) && forall c :: c in cs ==> c.ts <= ts
    ensures var (t, ids) := CiteAll(s, cs);
            && Good(t) && t.seen == s.seen && Keeps(s.entries, t.entries)
            && forall x :: x in ids ==> Has(t.entries, x, "evidence", ts)
  {
    hide Good, Has, Cite;
    if cs != [] {
      var n := |cs| - 1;
      var (t1, ids) := CiteAll(s, cs[..n]);
      CiteAllKeepsGood(s, cs[..n], ts);
      CiteKeepsGood(t1, cs[n]);
      var (t2, id) := Cite(t1, cs[n]);
      HasLater(t2.entries, id, "evidence", cs[n].ts, ts);
    }
  }

  lemma HasLater(ds: seq<Draft>, id: string, kind: string, ts: int, later: int)
    requires Has(ds, id, kind, ts) && ts <= later
    ensures Has(ds, id, kind, later)
  {
  }

  lemma {:induction false} NodesCitedByThen(nodes: seq<Node>, ts: int)
    ensures forall c :: c in NodeCitations(nodes, ts) ==> c.ts == ts
  {
    if nodes != [] {
      NodesCitedByThen(nodes[1..], ts);
    }
  }

  lemma CitedByThen(m: Memory)
    ensures forall c :: c in Citations(m) ==> c.ts <= m.recordedAt
  {
    NodesCitedByThen(m.nodes, m.recordedAt);
  }

  lemma BeliefKeepsGood(s: State, m: Memory)
    requires Good(s) && !Generated(m.assertion)
    ensures Good(AddBelief(s, m))
  {
    if m.assertion != "" && m.assertion !in s.seen {
      var (t, ids) := CiteAll(s, Citations(m));
      CitedByThen(m);
      CiteAllKeepsGood(s, Citations(m), m.recordedAt);
      var u := AddBelief(s, m);
      var d := Draft(m.assertion, m.recordedAt, Belief(ids), m.extra);
      FreshBelief(t, m.assertion);
      hide CiteAll, Citations, Has, Generated, Good;
      assert NamedWithin(d, |u.pool|, u.rows, u.n);
      AppendOneKeepsGood(t, u, d);
    }
  }

  lemma FreshBelief(s: State, id: string)
    requires Good(s) && !Generated(id) && id !in s.seen
    ensures forall i :: 0 <= i < |s.entries| ==> s.entries[i].id != id
  {
    forall i | 0 <= i < |s.entries|
      ensures s.entries[i].id != id
    {
      assert NamedWithin(s.entries[i], |s.pool|, s.rows, s.n);
    }
  }

  // ---------------------------------------------------------------- conflicts

  lemma {:induction false} LatestIsNoEarlier(s: State, sides: seq<string>)
    requires sides != [] && forall x :: x in sides ==> x in s.seen && s.seen[x] < |s.entries|
    ensures forall x :: x in sides ==> s.entries[s.seen[x]].ts <= Latest(s, sides)
  {
    if |sides| > 1 {
      LatestIsNoEarlier(s, sides[1..]);
      assert forall x :: x in sides ==> x == sides[0] || x in sides[1..];
    }
  }

  lemma ConflictKeepsGood(s: State, row: seq<string>, extra: seq<Member>)
    requires Good(s)
    ensures Good(AddConflict(s, row, extra))
  {
    hide Linked, AllNamed;
    var sides, t := Seen(s, row), AddConflict(s, row, extra);
    SeenAreSeen(s, row);
    hide Seen;
    if |sides| >= 2 {
      var d := Draft(Numbered("conflict", s.rows + 1), Latest(s, sides), Conflict(sides), extra);
      LatestIsNoEarlier(s, sides);
      forall x | x in sides
        ensures Has(s.entries, x, "belief", d.ts)
      {
        HasAt(s.entries, s.seen[x], d.ts);
      }
      FreshName(s, |s.pool|, s.rows, s.n, "conflict", s.rows + 1);
      hide Has, Latest, Good;
      assert NamedWithin(d, |t.pool|, t.rows, t.n);
      AppendOneKeepsGood(s, t, d);
    } else {
      NamedMore(s.entries, |s.pool|, s.rows, s.n, |s.pool|, s.rows + 1, s.n);
    }
  }

  // ---------------------------------------------------------------- decisions and approvals

  lemma VerdictKeepsGood(s: State, v: Verdict)
    requires Good(s)
    ensures Good(AddVerdict(s, v))
  {
    var t := AddVerdict(s, v);
    var d := Draft(Numbered("decision", s.n + 1), v.ts, Decision(v.risk, false, "model", None), v.extra);
    FreshName(s, |s.pool|, s.rows, s.n, "decision", s.n + 1);
    assert NamedWithin(d, |t.pool|, t.rows, t.n);
    hide Good, Has, AllNamed;
    AppendOneKeepsGood(s, t, d);
  }

  /** What a repair appends. */
  function Appended(s: State, r: Recovery): seq<Draft>
    requires r.ran != []
  {
    if r.approver.None? then RanDecisions(r, s.n, None)
    else
      var aid := Numbered("approval", s.n + 1);
      RanDecisions(r, s.n + 1, Some(aid)) + [Draft(aid, r.ts, Approval(Numbered("decision", s.n + 2), r.approver.value), r.extra)]
  }

  /** The number an appended entry is named by, beyond any given out before. */
  function AppendedNumber(s: State, r: Recovery, i: nat): nat {
    if i >= |r.ran| then s.n + 1 else if r.approver.None? then s.n + 1 + i else s.n + 2 + i
  }

  lemma AppendedAt(s: State, r: Recovery, i: nat)
    requires r.ran != [] && i < |Appended(s, r)|
    ensures var d, m := Appended(s, r)[i], AppendedNumber(s, r, i);
            && d.id == Numbered(TypeOf(d.body), m) && s.n < m <= AddRecovery(s, r).n && d.ts == r.ts
            && if i < |r.ran| then d.body.Decision? else d.body.Approval? && r.approver.Some?
  {
    hide NatText, Numbered;
    if i < |r.ran| {
      var k, aid := if r.approver.None? then s.n else s.n + 1, if r.approver.None? then None else Some(Numbered("approval", s.n + 1));
      assert Appended(s, r)[i] == RanDecision(r, i, k, aid);
    }
  }

  lemma AppendedNames(s: State, r: Recovery)
    requires r.ran != [] && AllNamed(s.entries, |s.pool|, s.rows, s.n)
    ensures var more, t := Appended(s, r), AddRecovery(s, r);
            && AllNamed(more, |t.pool|, t.rows, t.n) && DistinctIds(more)
            && (forall i :: 0 <= i < |more| ==> !more[i].body.Belief? && forall j :: 0 <= j < |s.entries| ==> s.entries[j].id != more[i].id)
  {
    var more, t := Appended(s, r), AddRecovery(s, r);
    hide Appended, AllNamed;
    forall i | 0 <= i < |more|
      ensures NamedWithin(more[i], |t.pool|, t.rows, t.n) && !more[i].body.Belief?
      ensures forall j :: 0 <= j < |s.entries| ==> s.entries[j].id != more[i].id
    {
      AppendedAt(s, r, i);
      FreshName(s, |s.pool|, s.rows, s.n, TypeOf(more[i].body), AppendedNumber(s, r, i));
    }
    assert AllNamed(more, |t.pool|, t.rows, t.n) by { NamedAll(more, |t.pool|, t.rows, t.n); }
    AppendedDistinct(s, r);
  }

  lemma NamedAll(ds: seq<Draft>, e: nat, c: nat, a: nat)
    requires forall i :: 0 <= i < |ds| ==> NamedWithin(ds[i], e, c, a)
    ensures AllNamed(ds, e, c, a)
  {
  }

  lemma AppendedDistinct(s: State, r: Recovery)
    requires r.ran != []
    ensures DistinctIds(Appended(s, r))
  {
    var more := Appended(s, r);
    hide Appended;
    forall i, j | 0 <= i < j < |more|
      ensures more[i].id != more[j].id
    {
      AppendedAt(s, r, i);
      AppendedAt(s, r, j);
      if more[i].id == more[j].id {
        NumberedIsInjective(TypeOf(more[i].body), TypeOf(more[j].body), AppendedNumber(s, r, i), AppendedNumber(s, r, j));
      }
    }
  }

  function Proposer(r: Recovery): string {
    if r.planSource == "" then "model" else r.planSource
  }

  /** The shape of what a repair appends. */
  lemma RepairAct(s: State, r: Recovery, i: nat)
    requires r.ran != [] && i < |Appended(s, r)|
    ensures var d := Appended(s, r)[i];
            && d.id == Numbered(TypeOf(d.body), AppendedNumber(s, r, i))
            && if i < |r.ran| then
                 d.body == Decision(r.ran[i].risk, true, Proposer(r), if r.approver.None? then None else Some(Numbered("approval", s.n + 1)))
               else
                 r.approver.Some? && i == |r.ran| && d.body == Approval(Numbered("decision", s.n + 2), r.approver.value)
  {
    hide NatText, Numbered;
    AppendedAt(s, r, i);
    if i < |r.ran| {
      var k, aid := if r.approver.None? then s.n else s.n + 1, if r.approver.None? then None else Some(Numbered("approval", s.n + 1));
      assert Appended(s, r)[i] == RanDecision(r, i, k, aid);
    }
  }

  lemma RepairLength(s: State, r: Recovery)
    requires r.ran != []
    ensures |Appended(s, r)| == |r.ran| + if r.approver.Some? then 1 else 0
  {
  }

  lemma AppendedGrounded(s: State, r: Recovery)
    requires r.ran != []
    ensures var more := Appended(s, r);
            forall i :: 0 <= i < |more| ==> Grounded(s.entries + more, more[i])
  {
    hide Appended, Numbered, Has;
    var more := Appended(s, r);
    var all := s.entries + more;
    RepairLength(s, r);
    if r.approver.Some? {
      HasAppended(s, r, 0);
      HasAppended(s, r, |r.ran|);
      RepairAct(s, r, 0);
      RepairAct(s, r, |r.ran|);
    }
    forall i | 0 <= i < |more|
      ensures Grounded(all, more[i])
    {
      RepairAct(s, r, i);
      AppendedAt(s, r, i);
    }
  }

  lemma HasAppended(s: State, r: Recovery, i: nat)
    requires r.ran != [] && i < |Appended(s, r)|
    ensures var d := Appended(s, r)[i]; Has(s.entries + Appended(s, r), d.id, TypeOf(d.body), r.ts)
  {
    hide Appended, Numbered, Has;
    AppendedAt(s, r, i);
    var all := s.entries + Appended(s, r);
    assert all[|s.entries| + i] == Appended(s, r)[i];
    HasAt(all, |s.entries| + i, r.ts);
  }

  lemma RecoveryKeepsGood(s: State, r: Recovery)
    requires Good(s)
    ensures Good(AddRecovery(s, r))
  {
    if r.ran != [] {
      RecoveryAppends(s, r);
      AppendedNames(s, r);
      AppendedGrounded(s, r);
      hide AddRecovery, Appended, Grounded, AllNamed, PoolLeadsToEvidence, SeenAreTheBeliefs, Keeps, AllGrounded;
      var t, more := AddRecovery(s, r), Appended(s, r);
      DistinctJoined(s.entries, more);
      hide Good, DistinctIds;
      AppendKeepsGood(s, t, more);
    }
  }

  lemma RecoveryAppends(s: State, r: Recovery)
    requires r.ran != []
    ensures var t := AddRecovery(s, r);
            t.entries == s.entries + Appended(s, r) && t.pool == s.pool && t.seen == s.seen && t.rows == s.rows && s.n <= t.n
    ensures PoolLeads(s, AddRecovery(s, r)) && SeenLeads(s, AddRecovery(s, r))
  {
    hide RanDecisions;
  }

  lemma DistinctJoined(ds: seq<Draft>, more: seq<Draft>)
    requires DistinctIds(ds) && DistinctIds(more)
    requires forall i :: 0 <= i < |more| ==> forall j :: 0 <= j < |ds| ==> ds[j].id != more[i].id
    ensures DistinctIds(ds + more)
  {
  }

  lemma EmptyIsGood()
    ensures Good(EMPTY)
  {
  }

  /** The memory's own names are not ones the exporter could give. */
  ghost predicate NamesApart(answers: seq<Answer>) {
    forall a :: a in answers && a.Remembered? ==> !Generated(a.memory.assertion)
  }

  /** Whatever the answers, and in whatever order they come. */
  lemma {:induction false} EveryRunIsGood(answers: seq<Answer>)
    requires NamesApart(answers)
    ensures Good(TakeAll(EMPTY, answers))
  {
    hide Good, Generated;
    if answers == [] {
      EmptyIsGood();
    } else {
      var before, a := answers[..|answers| - 1], answers[|answers| - 1];
      assert a in answers && forall b :: b in before ==> b in answers;
      EveryRunIsGood(before);
      var s := TakeAll(EMPTY, before);
      match a
      case Remembered(m) => BeliefKeepsGood(s, m);
      case Contested(row, extra) => ConflictKeepsGood(s, row, extra);
      case Judged(v) => VerdictKeepsGood(s, v);
      case Repaired(r) => RecoveryKeepsGood(s, r);
    }
  }
}
