/** The first half of `build_record`: what each answer appends, and the pool of cited sources. */
module Gathering {
  import opened Wrappers
  import opened Json
  import opened Export

  /**
   `pool` and `seen` lead to entries by position, where the source holds the entries themselves;
   `rows` counts the conflict rows read, `n` the numbers given to decisions and approvals.
   */
  datatype State = State(entries: seq<Draft>, pool: map<string, nat>, seen: map<string, nat>, rows: nat, n: nat)

  datatype Citation = Citation(key: string, ts: int, extra: seq<Member>)

  const EMPTY := State([], map[], map[], 0, 0)

  function Min(a: int, b: int): int {
    if b < a then b else a
  }

  // ---------------------------------------------------------------- beliefs and their sources

  function SourceCitations(m: Memory): seq<Citation> {
    if m.source.None? then []
    else
      var src := m.source.value;
      var received := if src.received.Some? then src.received.value else m.recordedAt;
      [Citation("src:" + src.id, Min(received, m.recordedAt), src.extra)]
  }

  function NodeCitations(nodes: seq<Node>, ts: int): seq<Citation> {
    if nodes == [] then []
    else
      var rest := NodeCitations(nodes[1..], ts);
      var nd := nodes[0];
      if nd.id == "" || nd.kind.OtherNode? then rest
      else [Citation((if nd.kind.EventNode? then "event:" else "derived:") + nd.id, ts, nd.extra)] + rest
  }

  /** Every source known for a belief, each dated no later than the belief. */
  function Citations(m: Memory): seq<Citation> {
    SourceCitations(m) + NodeCitations(m.nodes, m.recordedAt)
  }

  /** One evidence entry per real source, dated by the earliest citation of it. */
  function Cite(s: State, c: Citation): (State, string) {
    if c.key in s.pool && s.pool[c.key] < |s.entries| then
      var j := s.pool[c.key];
      var got := s.entries[j];
      (if c.ts < got.ts then s.(entries := s.entries[j := got.(ts := c.ts)]) else s, got.id)
    else
      var id := Numbered("evidence", |s.pool| + 1);
      (s.(entries := s.entries + [Draft(id, c.ts, Evidence, c.extra)], pool := s.pool[c.key := |s.entries|]), id)
  }

  function CiteAll(s: State, cs: seq<Citation>): (State, seq<string>) {
    if cs == [] then (s, [])
    else
      var n := |cs| - 1;
      var (s1, ids) := CiteAll(s, cs[..n]);
      var (s2, id) := Cite(s1, cs[n]);
      (s2, ids + [id])
  }

  lemma CiteNone(s: State)
    ensures CiteAll(s, []) == (s, [])
  {
  }

  lemma CiteOneMore(s: State, cs: seq<Citation>, i: nat)
    requires i < |cs|
    ensures var (s1, ids) := CiteAll(s, cs[..i]);
            var (s2, id) := Cite(s1, cs[i]);
            CiteAll(s, cs[..i + 1]) == (s2, ids + [id])
  {
    hide Cite;
    assert cs[..i + 1][..i] == cs[..i];
  }

  function AddBelief(s: State, m: Memory): State {
    if m.assertion == "" || m.assertion in s.seen then s
    else
      var (s1, ids) := CiteAll(s, Citations(m));
      s1.(entries := s1.entries + [Draft(m.assertion, m.recordedAt, Belief(ids), m.extra)],
          seen := s1.seen[m.assertion := |s1.entries|])
  }

  // ---------------------------------------------------------------- conflicts

  function Seen(s: State, sides: seq<string>): seq<string> {
    if sides == [] then []
    else (if sides[0] in s.seen && s.seen[sides[0]] < |s.entries| then [sides[0]] else []) + Seen(s, sides[1..])
  }

  lemma SeenNone(s: State)
    ensures Seen(s, []) == []
  {
  }

  lemma SeenOneMore(s: State, row: seq<string>, i: nat)
    requires i < |row|
    ensures Seen(s, row[i..]) == (if row[i] in s.seen && s.seen[row[i]] < |s.entries| then [row[i]] else []) + Seen(s, row[i + 1..])
  {
    assert row[i..][0] == row[i] && row[i..][1..] == row[i + 1..];
  }

  /** The later of the claims that caused it. */
  function Latest(s: State, sides: seq<string>): int
    requires sides != [] && forall x :: x in sides ==> x in s.seen && s.seen[x] < |s.entries|
  {
    var first := s.entries[s.seen[sides[0]]].ts;
    if |sides| == 1 then first
    else
      var rest := Latest(s, sides[1..]);
      if rest > first then rest else first
  }

  lemma SeenAreSeen(s: State, sides: seq<string>)
    ensures forall x :: x in Seen(s, sides) ==> x in s.seen && s.seen[x] < |s.entries|
  {
  }

  lemma {:induction false} LatestSameEntries(s: State, t: State, sides: seq<string>)
    requires sides != [] && forall x :: x in sides ==> x in s.seen && s.seen[x] < |s.entries|
    requires s.entries == t.entries && s.seen == t.seen
    ensures Latest(s, sides) == Latest(t, sides)
  {
    if |sides| > 1 {
      LatestSameEntries(s, t, sides[1..]);
    }
  }

  function AddConflict(s: State, row: seq<string>, extra: seq<Member>): State {
    var sides := Seen(s, row);
    SeenAreSeen(s, row);
    var s1 := s.(rows := s.rows + 1);
    if |sides| < 2 then s1
    else s1.(entries := s.entries + [Draft(Numbered("conflict", s1.rows), Latest(s, sides), Conflict(sides), extra)])
  }

  // ---------------------------------------------------------------- decisions and approvals

  function AddVerdict(s: State, v: Verdict): State {
    s.(entries := s.entries + [Draft(Numbered("decision", s.n + 1), v.ts, Decision(v.risk, false, "model", None), v.extra)],
       n := s.n + 1)
  }

  /** The decisions a repair records, numbered on from `n`. */
  function RanDecisions(r: Recovery, n: nat, approval: Option<string>): seq<Draft> {
    seq(|r.ran|, i requires 0 <= i < |r.ran| => RanDecision(r, i, n, approval))
  }

  function RanDecision(r: Recovery, i: nat, n: nat, approval: Option<string>): Draft
    requires i < |r.ran|
  {
    Draft(Numbered("decision", n + 1 + i), r.ts,
          Decision(r.ran[i].risk, true, if r.planSource == "" then "model" else r.planSource, approval), r.ran[i].extra)
  }

  /** The approval names the first of the actions it unlocked. */
  function AddRecovery(s: State, r: Recovery): State {
    if r.ran == [] then s
    else if r.approver.None? then
      s.(entries := s.entries + RanDecisions(r, s.n, None), n := s.n + |r.ran|)
    else
      var aid := Numbered("approval", s.n + 1);
      s.(entries := s.entries + RanDecisions(r, s.n + 1, Some(aid))
                    + [Draft(aid, r.ts, Approval(Numbered("decision", s.n + 2), r.approver.value), r.extra)],
         n := s.n + 1 + |r.ran|)
  }

  // ---------------------------------------------------------------- whole runs

  datatype Answer =
    | Remembered(memory: Memory)
    | Contested(row: seq<string>, extra: seq<Member>)
    | Judged(verdict: Verdict)
    | Repaired(recovery: Recovery)

  function Take(s: State, a: Answer): State {
    match a
    case Remembered(m) => AddBelief(s, m)
    case Contested(row, extra) => AddConflict(s, row, extra)
    case Judged(v) => AddVerdict(s, v)
    case Repaired(r) => AddRecovery(s, r)
  }

  function TakeAll(s: State, answers: seq<Answer>): State {
    if answers == [] then s else Take(TakeAll(s, answers[..|answers| - 1]), answers[|answers| - 1])
  }

  // ---------------------------------------------------------------- the exporter

  class Exporter {
    var s: State

    constructor ()
      ensures s == EMPTY
    {
      s := EMPTY;
    }

    method CiteSource(c: Citation) returns (id: string)
      modifies this
      ensures (s, id) == Cite(old(s), c)
    {
      if c.key in s.pool && s.pool[c.key] < |s.entries| {
        var j := s.pool[c.key];
        id := s.entries[j].id;
        if c.ts < s.entries[j].ts {
          s := s.(entries := s.entries[j := s.entries[j].(ts := c.ts)]);
        }
        return;
      }
      id := Numbered("evidence", |s.pool| + 1);
      s := s.(entries := s.entries + [Draft(id, c.ts, Evidence, c.extra)], pool := s.pool[c.key := |s.entries|]);
    }

    method EvidenceForBelief(m: Memory) returns (ids: seq<string>)
      modifies this
      ensures (s, ids) == CiteAll(old(s), Citations(m))
    {
      hide CiteAll, Cite, Citations;
      var cs := Citations(m);
      ids := [];
      CiteNone(s);
      for i := 0 to |cs|
        invariant (s, ids) == CiteAll(old(s), cs[..i])
      {
        CiteOneMore(old(s), cs, i);
        var id := CiteSource(cs[i]);
        ids := ids + [id];
      }
      assert cs[..|cs|] == cs;
    }

    method Recall(m: Memory)
      modifies this
      ensures s == AddBelief(old(s), m)
    {
      if m.assertion == "" || m.assertion in s.seen {
        return;
      }
      var ids := EvidenceForBelief(m);
      s := s.(entries := s.entries + [Draft(m.assertion, m.recordedAt, Belief(ids), m.extra)],
              seen := s.seen[m.assertion := |s.entries|]);
    }

    method SidesSeen(row: seq<string>) returns (sides: seq<string>)
      ensures sides == Seen(s, row)
    {
      hide Seen;
      sides := [];
      for i := 0 to |row|
        invariant sides + Seen(s, row[i..]) == Seen(s, row)
      {
        SeenOneMore(s, row, i);
        if row[i] in s.seen && s.seen[row[i]] < |s.entries| {
          sides := sides + [row[i]];
        }
      }
      SeenNone(s);
      assert row[0..] == row && row[|row|..] == [];
    }

    method LatestOf(sides: seq<string>) returns (ts: int)
      requires sides != [] && forall x :: x in sides ==> x in s.seen && s.seen[x] < |s.entries|
      ensures ts == Latest(s, sides)
    {
      ts := s.entries[s.seen[sides[|sides| - 1]]].ts;
      for i := |sides| - 1 downto 0
        invariant ts == Latest(s, sides[i..])
      {
        assert sides[i..][0] == sides[i] && sides[i..][1..] == sides[i + 1..];
        var at := s.entries[s.seen[sides[i]]].ts;
        if ts <= at {
          ts := at;
        }
      }
      assert sides[0..] == sides;
    }

    method Contradiction(row: seq<string>, extra: seq<Member>)
      modifies this
      ensures s == AddConflict(old(s), row, extra)
    {
      var sides := SidesSeen(row);
      SeenAreSeen(s, row);
      s := s.(rows := s.rows + 1);
      if |sides| >= 2 {
        var ts := LatestOf(sides);
        LatestSameEntries(s, old(s), sides);
        s := s.(entries := s.entries + [Draft(Numbered("conflict", s.rows), ts, Conflict(sides), extra)]);
      }
    }

    method Judge(v: Verdict)
      modifies this
      ensures s == AddVerdict(old(s), v)
    {
      var n := s.n + 1;
      s := s.(entries := s.entries + [Draft(Numbered("decision", n), v.ts, Decision(v.risk, false, "model", None), v.extra)], n := n);
    }

    method Unlocked(r: Recovery, n: nat, aid: Option<string>) returns (decisions: seq<Draft>)
      ensures decisions == RanDecisions(r, n, aid)
    {
      decisions := [];
      for i := 0 to |r.ran|
        invariant decisions == RanDecisions(r, n, aid)[..i]
      {
        decisions := decisions + [RanDecision(r, i, n, aid)];
      }
    }

    method Repair(r: Recovery)
      modifies this
      ensures s == AddRecovery(old(s), r)
    {
      if r.ran == [] {
        return;
      }
      var aid, n := None, s.n;
      if r.approver.Some? {
        n := n + 1;
        aid := Some(Numbered("approval", n));
      }
      var decisions := Unlocked(r, n, aid);
      if r.approver.Some? {
        assert decisions[0].id == Numbered("decision", n + 1);
        decisions := decisions + [Draft(aid.value, r.ts, Approval(decisions[0].id, r.approver.value), r.extra)];
      }
      s := s.(entries := s.entries + decisions, n := n + |r.ran|);
    }
  }
}
