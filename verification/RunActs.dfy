/**
 What a run of the exporter records of conflicts, of the gate's verdicts and of repairs, in terms of
 the answers alone.
 */
module RunActs {
  import opened Wrappers
  import opened Json
  import opened Export
  import opened Gathering
  import opened ExporterInvariant
  import opened RunRecords

  // ---------------------------------------------------------------- what is written stays

  lemma TakeExtends(s: State, answers: seq<Answer>, n: nat)
    requires n < |answers| && Recorded(s, answers, n)
    ensures Extends(s, Take(s, answers[n]))
  {
    hide Shelved, SeenAre, Written, Told, Counts, Extends;
    var a := answers[n];
    if a.Remembered? {
      TakesABelief(s, a.memory);
      if a.memory.assertion != "" && a.memory.assertion !in s.seen {
        BeliefShelves(s, Done(answers, n), a.memory);
      } else {
        ExtendsItself(s);
      }
    } else {
      var more := OthersAppended(s, a);
      NoEvidence(more);
      AppendShelves(s, Take(s, a), Done(answers, n), more);
    }
  }

  /** The state after the first `n` answers. */
  function After(answers: seq<Answer>, n: nat): State
    requires n <= |answers|
  {
    TakeAll(EMPTY, answers[..n])
  }

  lemma AfterMore(answers: seq<Answer>, n: nat)
    requires n < |answers|
    ensures After(answers, n + 1) == Take(After(answers, n), answers[n])
  {
    assert answers[..n + 1][..n] == answers[..n];
  }

  lemma {:induction false} RunExtends(answers: seq<Answer>, m: nat, n: nat)
    requires m <= n <= |answers|
    ensures Extends(After(answers, m), After(answers, n))
  {
    hide After, Take, Extends, Recorded;
    if m == n {
      ExtendsItself(After(answers, m));
    } else {
      RunExtends(answers, m, n - 1);
      AfterIsRecorded(answers, n - 1);
      TakeExtends(After(answers, n - 1), answers, n - 1);
      AfterMore(answers, n - 1);
      ExtendsOn(After(answers, m), After(answers, n - 1), After(answers, n));
    }
  }

  lemma AfterIsRecorded(answers: seq<Answer>, n: nat)
    requires n <= |answers|
    ensures Recorded(After(answers, n), answers, n)
  {
    RunIsRecorded(answers, n);
  }

  lemma AfterIsGood(answers: seq<Answer>, n: nat)
    requires n <= |answers| && NamesApart(answers)
    ensures Good(After(answers, n))
  {
    hide Good, Generated;
    assert forall a :: a in answers[..n] ==> a in answers;
    EveryRunIsGood(answers[..n]);
  }

  /** What an answer adds, but for evidence, is in the record at the end as it was added. */
  lemma StaysToTheEnd(answers: seq<Answer>, n: nat, d: Draft)
    requires n < |answers| && d in Take(After(answers, n), answers[n]).entries && !d.body.Evidence?
    ensures d in TakeAll(EMPTY, answers).entries
  {
    hide Take, TakeAll;
    AfterMore(answers, n);
    RunExtends(answers, n + 1, |answers|);
    assert answers[..|answers|] == answers;
    var s := After(answers, n + 1);
    var i :| 0 <= i < |s.entries| && s.entries[i] == d;
    assert After(answers, |answers|).entries[i] == d;
  }

  // ---------------------------------------------------------------- verdicts and repairs

  /** Every verdict is a decision that did not run, as the gate gave it. */
  lemma EveryVerdictIsADecision(answers: seq<Answer>, n: nat)
    requires n < |answers| && answers[n].Judged?
    ensures var v := answers[n].verdict;
            exists id :: Draft(id, v.ts, Decision(v.risk, false, "model", None), v.extra) in TakeAll(EMPTY, answers).entries
  {
    hide TakeAll, After, Numbered;
    var v := answers[n].verdict;
    var s := After(answers, n);
    var d := Draft(Numbered("decision", s.n + 1), v.ts, Decision(v.risk, false, "model", None), v.extra);
    assert d in Take(s, answers[n]).entries;
    StaysToTheEnd(answers, n, d);
  }

  /** A decision for each action that ran, in order, and an approval of the first when somebody approved. */
  ghost predicate RepairWritten(entries: seq<Draft>, r: Recovery, decisions: seq<Draft>, approval: Option<string>) {
    && |decisions| == |r.ran| > 0
    && (forall k :: 0 <= k < |r.ran| ==>
         && decisions[k] in entries && decisions[k].ts == r.ts && decisions[k].extra == r.ran[k].extra
         && decisions[k].body == Decision(r.ran[k].risk, true, if r.planSource == "" then "model" else r.planSource, approval))
    && (approval.Some? <==> r.approver.Some?)
    && (approval.Some? ==> Draft(approval.value, r.ts, Approval(decisions[0].id, r.approver.value), r.extra) in entries)
  }

  lemma RepairGathered(s: State, r: Recovery) returns (decisions: seq<Draft>, approval: Option<string>)
    requires r.ran != []
    ensures RepairWritten(AddRecovery(s, r).entries, r, decisions, approval)
  {
    hide Numbered;
    if r.approver.None? {
      approval := None;
      decisions := RanDecisions(r, s.n, None);
    } else {
      approval := Some(Numbered("approval", s.n + 1));
      decisions := RanDecisions(r, s.n + 1, approval);
    }
    assert forall k :: 0 <= k < |r.ran| ==> decisions[k] in decisions;
  }

  lemma EveryRepairIsWritten(answers: seq<Answer>, n: nat) returns (decisions: seq<Draft>, approval: Option<string>)
    requires n < |answers| && answers[n].Repaired? && answers[n].recovery.ran != []
    ensures RepairWritten(TakeAll(EMPTY, answers).entries, answers[n].recovery, decisions, approval)
  {
    hide TakeAll, After, Numbered, AddRecovery;
    var s, r := After(answers, n), answers[n].recovery;
    decisions, approval := RepairGathered(s, r);
    forall k | 0 <= k < |r.ran|
      ensures decisions[k] in TakeAll(EMPTY, answers).entries
    {
      StaysToTheEnd(answers, n, decisions[k]);
    }
    if approval.Some? {
      StaysToTheEnd(answers, n, Draft(approval.value, r.ts, Approval(decisions[0].id, r.approver.value), r.extra));
    }
  }

  // ---------------------------------------------------------------- conflicts

  /** The sides a row names that an answer before the `n`th remembered, in the order of the row. */
  ghost function Remembered(answers: seq<Answer>, n: nat, row: seq<string>): seq<string>
    requires n <= |answers|
  {
    if row == [] then []
    else
      var last := row[|row| - 1];
      Remembered(answers, n, row[..|row| - 1]) + if last != "" && RememberedBy(answers, n, last) then [last] else []
  }

  lemma {:induction false} SeenMore(s: State, row: seq<string>, x: string)
    ensures Seen(s, row + [x]) == Seen(s, row) + if x in s.seen && s.seen[x] < |s.entries| then [x] else []
  {
    if row == [] {
      assert row + [x] == [x] && [x][1..] == [];
    } else {
      SeenMore(s, row[1..], x);
      assert (row + [x])[1..] == row[1..] + [x];
    }
  }

  lemma {:induction false} SeenAreRemembered(s: State, answers: seq<Answer>, n: nat, row: seq<string>)
    requires n <= |answers| && SeenAre(s, answers, n) && SeenAreTheBeliefs(s)
    ensures Seen(s, row) == Remembered(answers, n, row)
  {
    hide RememberedBy;
    if row != [] {
      var k := |row| - 1;
      SeenAreRemembered(s, answers, n, row[..k]);
      SeenMore(s, row[..k], row[k]);
      assert row[..k] + [row[k]] == row;
    }
  }

  /** Some side of `sides` was recorded at `ts`, and none later. */
  ghost predicate LatestOf(answers: seq<Answer>, n: nat, sides: seq<string>, ts: int)
    requires n <= |answers|
  {
    && (forall i :: 0 <= i < n && Counts(answers, i) && answers[i].memory.assertion in sides ==> answers[i].memory.recordedAt <= ts)
    && (exists i :: 0 <= i < n && Counts(answers, i) && answers[i].memory.assertion in sides && answers[i].memory.recordedAt == ts)
  }

  lemma {:induction false} LatestIs(s: State, sides: seq<string>)
    requires sides != [] && forall x :: x in sides ==> x in s.seen && s.seen[x] < |s.entries|
    ensures forall x :: x in sides ==> s.entries[s.seen[x]].ts <= Latest(s, sides)
    ensures exists x :: x in sides && s.entries[s.seen[x]].ts == Latest(s, sides)
  {
    assert sides[0] in sides;
    if |sides| > 1 {
      LatestIs(s, sides[1..]);
      assert forall x :: x in sides <==> x == sides[0] || x in sides[1..];
    }
  }

  lemma SidesDated(s: State, answers: seq<Answer>, n: nat, sides: seq<string>)
    requires n <= |answers| && Good(s) && Recorded(s, answers, n)
    requires sides != [] && forall x :: x in sides ==> x in s.seen
    ensures forall x :: x in sides ==> s.seen[x] < |s.entries|
    ensures LatestOf(answers, n, sides, Latest(s, sides))
  {
    hide Shelved, SeenAre, Counts, BeliefOf, Linked, AllNamed, Latest, PoolLeadsToEvidence;
    assert SeenAreTheBeliefs(s);
    LatestIs(s, sides);
    forall i | 0 <= i < n && Counts(answers, i) && answers[i].memory.assertion in sides
      ensures answers[i].memory.recordedAt <= Latest(s, sides)
    {
      var d :| d in s.entries && BeliefOf(s, d, answers[i].memory);
      SideIs(s, d, answers[i].memory);
    }
    var x :| x in sides && s.entries[s.seen[x]].ts == Latest(s, sides);
    var d := s.entries[s.seen[x]];
    assert d in s.entries;
    var i :| 0 <= i < n && Counts(answers, i) && BeliefOf(s, d, answers[i].memory);
    SideIs(s, d, answers[i].memory);
  }

  lemma SideIs(s: State, d: Draft, m: Memory)
    requires Good(s) && d in s.entries && BeliefOf(s, d, m)
    ensures d.id == m.assertion && d.ts == m.recordedAt
    ensures m.assertion in s.seen ==> s.seen[m.assertion] < |s.entries| && s.entries[s.seen[m.assertion]] == d
  {
    hide NamesAll, Linked, AllNamed;
    if m.assertion in s.seen {
      assert s.entries[s.seen[m.assertion]] in s.entries;
      OneEntry(s, d, s.entries[s.seen[m.assertion]]);
    }
  }

  /**
   A contested row becomes a conflict exactly when two of its sides or more have been remembered,
   between just those, dated by the latest of them.
   */
  lemma EveryContestIsWeighed(answers: seq<Answer>, n: nat)
    requires NamesApart(answers) && n < |answers| && answers[n].Contested?
    ensures var sides := Remembered(answers, n, answers[n].row);
            if |sides| < 2 then After(answers, n + 1).entries == After(answers, n).entries
            else exists id, ts ::
              LatestOf(answers, n, sides, ts) && Draft(id, ts, Conflict(sides), answers[n].extra) in TakeAll(EMPTY, answers).entries
  {
    hide Recorded, Good, After, TakeAll, LatestOf, Remembered, NamesApart;
    var s, row := After(answers, n), answers[n].row;
    AfterIsRecorded(answers, n);
    AfterIsGood(answers, n);
    AfterMore(answers, n);
    GoodSees(s);
    RecordedSees(s, answers, n);
    SeenAreRemembered(s, answers, n, row);
    SeenAreSeen(s, row);
    var sides := Seen(s, row);
    hide Seen, SeenAre, SeenAreTheBeliefs, Numbered;
    ConflictAdded(s, row, answers[n].extra);
    if |sides| >= 2 {
      SidesDated(s, answers, n, sides);
      hide Latest;
      var d := Draft(Numbered("conflict", s.rows + 1), Latest(s, sides), Conflict(sides), answers[n].extra);
      StaysToTheEnd(answers, n, d);
    }
  }

  lemma ConflictAdded(s: State, row: seq<string>, extra: seq<Member>)
    requires forall x :: x in Seen(s, row) ==> x in s.seen && s.seen[x] < |s.entries|
    ensures var t, sides := Take(s, Contested(row, extra)), Seen(s, row);
            if |sides| < 2 then t.entries == s.entries
            else Draft(Numbered("conflict", s.rows + 1), Latest(s, sides), Conflict(sides), extra) in t.entries
  {
    hide Seen, Latest, Numbered;
  }

  lemma GoodSees(s: State)
    requires Good(s)
    ensures SeenAreTheBeliefs(s)
  {
    hide Linked, AllNamed, PoolLeadsToEvidence, SeenAreTheBeliefs;
  }

  lemma RecordedSees(s: State, answers: seq<Answer>, n: nat)
    requires n <= |answers| && Recorded(s, answers, n)
    ensures SeenAre(s, answers, n)
  {
    hide Shelved, SeenAre, Written, Told, Counts;
  }
}
