/**
 Whether the actions of an export pass the validator's checks on approvals. They need not: an
 approval names only the first of the actions it unlocked.

 The checks look at decisions and approvals alone, here the acts of an export. What each answer adds
 to them is closed under the references between them and shares no id with what was there before, so
 every batch passes or fails by itself. Sorting leaves the set of acts alone, and renumbering keeps
 every link between two of them.

 The condition a repair must meet is stated on the repair: nothing but its first action of high risk,
 that one approved, and the approver named and not its proposer.
 */
module ExportApproval {
  import opened Wrappers
  import opened Json
  import opened TestimonyRecord
  import opened Export
  import opened Gathering
  import opened Numbering
  import opened ExporterInvariant
  import opened ExportedRecord

  // ---------------------------------------------------------------- what the checks ask of drafts

  predicate IsAct(d: Draft) {
    d.body.Decision? || d.body.Approval?
  }

  function Acts(ds: seq<Draft>): set<Draft> {
    set d | d in ds && IsAct(d)
  }

  predicate HighRan(d: Draft) {
    d.body.Decision? && d.body.risk == "high" && d.body.executed
  }

  predicate Approves(a: Draft, d: Draft) {
    d.body.Decision? && d.body.approval.Some? && a.body.Approval? && a.id == d.body.approval.value
  }

  predicate Unlocks(e: Draft, a: Draft) {
    a.body.Approval? && e.body.Decision? && e.id == a.body.decision
  }

  /** What ran at high risk names an approval, and that approval names it back. */
  ghost predicate Unlocked(acts: set<Draft>, d: Draft) {
    HighRan(d) ==> exists a :: a in acts && Approves(a, d) && a.body.decision == d.id
  }

  /** An approver is named, and did not propose what was approved. */
  ghost predicate Signed(acts: set<Draft>, a: Draft) {
    a.body.Approval? ==>
      && NotBlank(Some(Str(a.body.approver)))
      && exists e :: e in acts && Unlocks(e, a) && e.body.proposer != a.body.approver
  }

  ghost predicate ActsPass(acts: set<Draft>) {
    forall d :: d in acts ==> Unlocked(acts, d) && Signed(acts, d)
  }

  // ---------------------------------------------------------------- one batch after another

  /** References between acts stay within. */
  ghost predicate Closed(acts: set<Draft>) {
    && (forall d :: d in acts && d.body.Decision? && d.body.approval.Some? ==> exists a :: a in acts && Approves(a, d))
    && (forall a :: a in acts && a.body.Approval? ==> exists e :: e in acts && Unlocks(e, a))
  }

  ghost predicate IdsApart(xs: set<Draft>, ys: set<Draft>) {
    forall x, y :: x in xs && y in ys ==> x.id != y.id
  }

  lemma UnlockedWithin(xs: set<Draft>, ys: set<Draft>, d: Draft)
    requires Closed(xs) && IdsApart(xs, ys) && d in xs
    ensures Unlocked(xs + ys, d) <==> Unlocked(xs, d)
  {
    if HighRan(d) && Unlocked(xs + ys, d) {
      var a :| a in xs + ys && Approves(a, d) && a.body.decision == d.id;
      assert exists b :: b in xs && Approves(b, d);
      assert a in xs;
    }
  }

  lemma SignedWithin(xs: set<Draft>, ys: set<Draft>, a: Draft)
    requires Closed(xs) && IdsApart(xs, ys) && a in xs
    ensures Signed(xs + ys, a) <==> Signed(xs, a)
  {
    hide NotBlank;
    if a.body.Approval? && Signed(xs + ys, a) {
      var e :| e in xs + ys && Unlocks(e, a) && e.body.proposer != a.body.approver;
      assert exists f :: f in xs && Unlocks(f, a);
      assert e in xs;
    }
  }

  lemma BatchesPassApart(xs: set<Draft>, ys: set<Draft>)
    requires Closed(xs) && Closed(ys) && IdsApart(xs, ys)
    ensures ActsPass(xs + ys) <==> ActsPass(xs) && ActsPass(ys)
  {
    hide Closed, Unlocked, Signed;
    assert xs + ys == ys + xs && IdsApart(ys, xs);
    forall d | d in xs
      ensures Unlocked(xs + ys, d) <==> Unlocked(xs, d)
      ensures Signed(xs + ys, d) <==> Signed(xs, d)
    {
      UnlockedWithin(xs, ys, d);
      SignedWithin(xs, ys, d);
    }
    forall d | d in ys
      ensures Unlocked(xs + ys, d) <==> Unlocked(ys, d)
      ensures Signed(xs + ys, d) <==> Signed(ys, d)
    {
      UnlockedWithin(ys, xs, d);
      SignedWithin(ys, xs, d);
    }
  }

  // ---------------------------------------------------------------- what each answer adds

  lemma ActsJoined(ds: seq<Draft>, more: seq<Draft>)
    ensures Acts(ds + more) == Acts(ds) + Acts(more)
  {
  }

  lemma CiteAddsNoAct(s: State, c: Citation)
    requires Good(s)
    ensures Acts(Cite(s, c).0.entries) == Acts(s.entries)
  {
    hide Linked, AllNamed, SeenAreTheBeliefs, Numbered;
    if c.key in s.pool {
      var j := s.pool[c.key];
      var es := s.entries[j := s.entries[j].(ts := c.ts)];
      assert es == s.entries[..j] + [s.entries[j].(ts := c.ts)] + s.entries[j + 1..];
      assert s.entries == s.entries[..j] + [s.entries[j]] + s.entries[j + 1..];
    }
  }

  lemma {:induction false} CiteAllAddsNoAct(s: State, cs: seq<Citation>, ts: int)
    requires Good(s) && forall c :: c in cs ==> c.ts <= ts
    ensures Acts(CiteAll(s, cs).0.entries) == Acts(s.entries)
  {
    hide Good, Cite, Acts;
    if cs != [] {
      var n := |cs| - 1;
      CiteAllAddsNoAct(s, cs[..n], ts);
      CiteAllKeepsGood(s, cs[..n], ts);
      CiteAddsNoAct(CiteAll(s, cs[..n]).0, cs[n]);
    }
  }

  lemma BeliefAddsNoAct(s: State, m: Memory)
    requires Good(s)
    ensures Acts(AddBelief(s, m).entries) == Acts(s.entries)
  {
    hide Good, CiteAll, Citations, Acts;
    if m.assertion != "" && m.assertion !in s.seen {
      var (t, ids) := CiteAll(s, Citations(m));
      CitedByThen(m);
      CiteAllAddsNoAct(s, Citations(m), m.recordedAt);
      var d := Draft(m.assertion, m.recordedAt, Belief(ids), m.extra);
      ActsJoined(t.entries, [d]);
      NoAct(d);
    }
  }

  lemma NoAct(d: Draft)
    ensures !IsAct(d) ==> Acts([d]) == {}
    ensures IsAct(d) ==> Acts([d]) == {d}
  {
  }

  lemma ConflictAddsNoAct(s: State, row: seq<string>, extra: seq<Member>)
    ensures Acts(AddConflict(s, row, extra).entries) == Acts(s.entries)
  {
    SeenAreSeen(s, row);
    hide Seen, Latest, Numbered, Acts;
    var sides := Seen(s, row);
    if |sides| >= 2 {
      var d := Draft(Numbered("conflict", s.rows + 1), Latest(s, sides), Conflict(sides), extra);
      ActsJoined(s.entries, [d]);
      NoAct(d);
    }
  }

  // ---------------------------------------------------------------- a repair

  /** Only the first action may be of high risk, and then only with an approver who is named and is not its proposer. */
  predicate RepairPasses(r: Recovery) {
    && (forall i :: 0 <= i < |r.ran| && r.ran[i].risk == "high" ==> i == 0 && r.approver.Some?)
    && (r.ran != [] && r.approver.Some? ==> NotBlank(Some(Str(r.approver.value))) && Proposer(r) != r.approver.value)
  }

  lemma ActAt(s: State, r: Recovery, d: Draft) returns (i: nat)
    requires r.ran != [] && d in Acts(Appended(s, r))
    ensures i < |Appended(s, r)| && Appended(s, r)[i] == d
  {
    hide Appended;
    i :| 0 <= i < |Appended(s, r)| && Appended(s, r)[i] == d;
  }

  lemma AllAreActs(s: State, r: Recovery, i: nat)
    requires r.ran != [] && i < |Appended(s, r)|
    ensures Appended(s, r)[i] in Acts(Appended(s, r))
  {
    RepairAct(s, r, i);
    hide Appended, Numbered;
  }

  /** The one approval among what a repair appends. */
  lemma RepairApproval(s: State, r: Recovery, a: Draft)
    requires r.ran != [] && a in Acts(Appended(s, r)) && a.body.Approval?
    ensures r.approver.Some? && a == Appended(s, r)[|r.ran|] && a.body == Approval(Numbered("decision", s.n + 2), r.approver.value)
  {
    var i := ActAt(s, r, a);
    RepairLength(s, r);
    RepairAct(s, r, i);
    hide Appended, Numbered;
  }

  lemma RepairUnlocked(s: State, r: Recovery, i: nat)
    requires r.ran != [] && i < |r.ran|
    ensures i < |Appended(s, r)|
    ensures Unlocked(Acts(Appended(s, r)), Appended(s, r)[i]) <==> (r.ran[i].risk == "high" ==> i == 0 && r.approver.Some?)
  {
    hide Appended, Acts, Numbered;
    RepairLength(s, r);
    var acts, d := Acts(Appended(s, r)), Appended(s, r)[i];
    RepairAct(s, r, i);
    NumberedOnce("decision", AppendedNumber(s, r, i), s.n + 2);
    if r.approver.Some? {
      var p := Appended(s, r)[|r.ran|];
      RepairAct(s, r, |r.ran|);
      AllAreActs(s, r, |r.ran|);
      assert Approves(p, d);
      assert p.body.decision == d.id <==> i == 0;
      forall a | a in acts && Approves(a, d)
        ensures a == p
      {
        RepairApproval(s, r, a);
      }
    }
  }

  lemma NumberedOnce(kind: string, m: nat, n: nat)
    requires kind in NUMBERED
    ensures Numbered(kind, m) == Numbered(kind, n) <==> m == n
  {
    hide Numbered;
    if Numbered(kind, m) == Numbered(kind, n) {
      NumberedIsInjective(kind, kind, m, n);
    }
  }

  lemma RepairSigned(s: State, r: Recovery)
    requires r.ran != [] && r.approver.Some?
    ensures |r.ran| < |Appended(s, r)|
    ensures Signed(Acts(Appended(s, r)), Appended(s, r)[|r.ran|]) <==>
              NotBlank(Some(Str(r.approver.value))) && Proposer(r) != r.approver.value
  {
    hide Appended, Acts, Numbered, NotBlank, Proposer;
    RepairLength(s, r);
    var acts, p, d := Acts(Appended(s, r)), Appended(s, r)[|r.ran|], Appended(s, r)[0];
    RepairAct(s, r, |r.ran|);
    RepairAct(s, r, 0);
    AllAreActs(s, r, 0);
    assert Unlocks(d, p);
    forall e | e in acts && Unlocks(e, p)
      ensures e.body.proposer == Proposer(r)
    {
      var i := ActAt(s, r, e);
      RepairAct(s, r, i);
    }
  }

  lemma RepairPassesIff(s: State, r: Recovery)
    requires r.ran != []
    ensures ActsPass(Acts(Appended(s, r))) <==> RepairPasses(r)
  {
    hide Appended, Unlocked, Signed, NotBlank, Proposer;
    var acts := Acts(Appended(s, r));
    RepairLength(s, r);
    forall i | 0 <= i < |Appended(s, r)|
      ensures Appended(s, r)[i] in acts
      ensures Unlocked(acts, Appended(s, r)[i]) <==> (i < |r.ran| && r.ran[i].risk == "high" ==> i == 0 && r.approver.Some?)
      ensures Signed(acts, Appended(s, r)[i]) <==>
                (i == |r.ran| && r.approver.Some? ==> NotBlank(Some(Str(r.approver.value))) && Proposer(r) != r.approver.value)
    {
      AllAreActs(s, r, i);
      RepairAct(s, r, i);
      if i < |r.ran| {
        RepairUnlocked(s, r, i);
        DecisionNeedsNoSignature(acts, Appended(s, r)[i]);
      } else {
        RepairSigned(s, r);
        ApprovalNeedsNoUnlocking(acts, Appended(s, r)[i]);
      }
    }
    hide Acts, RepairPasses;
    PassesByIndex(s, r, acts);
    PassesByAction(s, r, acts);
  }

  lemma PassesByAction(s: State, r: Recovery, acts: set<Draft>)
    requires r.ran != [] && |Appended(s, r)| == |r.ran| + if r.approver.Some? then 1 else 0
    requires forall i :: 0 <= i < |Appended(s, r)| ==>
               (Unlocked(acts, Appended(s, r)[i]) <==> (i < |r.ran| && r.ran[i].risk == "high" ==> i == 0 && r.approver.Some?))
    requires forall i :: 0 <= i < |Appended(s, r)| ==>
               (Signed(acts, Appended(s, r)[i]) <==>
                (i == |r.ran| && r.approver.Some? ==> NotBlank(Some(Str(r.approver.value))) && Proposer(r) != r.approver.value))
    ensures (forall i :: 0 <= i < |Appended(s, r)| ==> Unlocked(acts, Appended(s, r)[i]) && Signed(acts, Appended(s, r)[i])) <==> RepairPasses(r)
  {
    hide Appended, Unlocked, Signed, NotBlank, Proposer;
    var all := Appended(s, r);
    if forall i :: 0 <= i < |all| ==> Unlocked(acts, all[i]) && Signed(acts, all[i]) {
      forall i | 0 <= i < |r.ran| && r.ran[i].risk == "high"
        ensures i == 0 && r.approver.Some?
      {
        assert Unlocked(acts, all[i]);
      }
      if r.approver.Some? {
        assert Signed(acts, all[|r.ran|]);
      }
    }
  }

  lemma DecisionNeedsNoSignature(acts: set<Draft>, d: Draft)
    requires d.body.Decision?
    ensures Signed(acts, d)
  {
  }

  lemma ApprovalNeedsNoUnlocking(acts: set<Draft>, a: Draft)
    requires a.body.Approval?
    ensures Unlocked(acts, a)
  {
  }

  lemma PassesByIndex(s: State, r: Recovery, acts: set<Draft>)
    requires r.ran != [] && acts == Acts(Appended(s, r))
    requires forall i :: 0 <= i < |Appended(s, r)| ==> Appended(s, r)[i] in acts
    ensures ActsPass(acts) <==> forall i :: 0 <= i < |Appended(s, r)| ==> Unlocked(acts, Appended(s, r)[i]) && Signed(acts, Appended(s, r)[i])
  {
    hide Appended, Unlocked, Signed;
    forall d | d in acts
      ensures exists i :: 0 <= i < |Appended(s, r)| && Appended(s, r)[i] == d
    {
      var i := ActAt(s, r, d);
    }
    hide Acts;
  }

  // ---------------------------------------------------------------- whole runs

  lemma GoodIsClosed(s: State)
    requires Good(s)
    ensures Closed(Acts(s.entries))
  {
    assert AllGrounded(s.entries);
    hide Good, NamedWithin;
    forall d | d in Acts(s.entries)
      ensures d.body.Decision? && d.body.approval.Some? ==> exists a :: a in Acts(s.entries) && Approves(a, d)
      ensures d.body.Approval? ==> exists e :: e in Acts(s.entries) && Unlocks(e, d)
    {
      var i :| 0 <= i < |s.entries| && s.entries[i] == d;
      assert Grounded(s.entries, d);
      if d.body.Decision? && d.body.approval.Some? {
        var a := Bearer(s.entries, d.body.approval.value, "approval", d.ts);
      } else if d.body.Approval? {
        var e := Bearer(s.entries, d.body.decision, "decision", d.ts);
      }
    }
  }

  lemma Bearer(ds: seq<Draft>, id: string, kind: string, ts: int) returns (a: Draft)
    requires Has(ds, id, kind, ts)
    ensures a in ds && a.id == id && TypeOf(a.body) == kind
    ensures kind == "approval" ==> a.body.Approval? && a in Acts(ds)
    ensures kind == "decision" ==> a.body.Decision? && a in Acts(ds)
  {
    var j :| 0 <= j < |ds| && ds[j].id == id && TypeOf(ds[j].body) == kind && ds[j].ts <= ts;
    a := ds[j];
    BeliefType(a.body);
    assert "approval" != "decision";
  }

  lemma RepairIsClosed(s: State, r: Recovery)
    requires r.ran != []
    ensures Closed(Acts(Appended(s, r)))
  {
    hide Appended, Acts, Numbered;
    var acts := Acts(Appended(s, r));
    RepairLength(s, r);
    RepairAct(s, r, 0);
    AllAreActs(s, r, 0);
    if r.approver.Some? {
      RepairAct(s, r, |r.ran|);
      AllAreActs(s, r, |r.ran|);
    }
    forall d | d in acts
      ensures d.body.Decision? && d.body.approval.Some? ==> exists a :: a in acts && Approves(a, d)
      ensures d.body.Approval? ==> exists e :: e in acts && Unlocks(e, d)
    {
      var i := ActAt(s, r, d);
      RepairAct(s, r, i);
      if d.body.Decision? && d.body.approval.Some? {
        assert Approves(Appended(s, r)[|r.ran|], d);
      } else if d.body.Approval? {
        assert Unlocks(Appended(s, r)[0], d);
      }
    }
  }

  lemma NewIdsApart(s: State, r: Recovery)
    requires Good(s) && r.ran != []
    ensures IdsApart(Acts(s.entries), Acts(Appended(s, r)))
  {
    AppendedNames(s, r);
    hide Appended, AllNamed, Good, DistinctIds;
  }

  lemma RepairStep(s: State, r: Recovery)
    requires Good(s)
    ensures ActsPass(Acts(AddRecovery(s, r).entries)) <==> ActsPass(Acts(s.entries)) && RepairPasses(r)
  {
    hide *;
    if r.ran == [] {
      NothingRan(s, r);
    } else {
      RecoveryAppends(s, r);
      ActsJoined(s.entries, Appended(s, r));
      GoodIsClosed(s);
      RepairIsClosed(s, r);
      NewIdsApart(s, r);
      BatchesPassApart(Acts(s.entries), Acts(Appended(s, r)));
      RepairPassesIff(s, r);
    }
  }

  lemma NothingRan(s: State, r: Recovery)
    requires r.ran == []
    ensures AddRecovery(s, r) == s && RepairPasses(r)
  {
    hide NotBlank;
  }

  lemma RefusedAct(d: Draft)
    requires d.body.Decision? && !d.body.executed && d.body.approval.None?
    ensures Closed({d}) && ActsPass({d}) && IsAct(d)
  {
  }

  lemma FreshIsApart(ds: seq<Draft>, d: Draft)
    requires forall i :: 0 <= i < |ds| ==> ds[i].id != d.id
    ensures IdsApart(Acts(ds), {d})
  {
  }

  lemma VerdictAdds(s: State, v: Verdict) returns (d: Draft)
    ensures d.body.Decision? && !d.body.executed && d.body.approval.None?
    ensures d.id == Numbered("decision", s.n + 1) && AddVerdict(s, v).entries == s.entries + [d]
  {
    hide Numbered;
    d := Draft(Numbered("decision", s.n + 1), v.ts, Decision(v.risk, false, "model", None), v.extra);
  }

  lemma GoodNames(s: State)
    requires Good(s)
    ensures AllNamed(s.entries, |s.pool|, s.rows, s.n)
  {
    hide Linked, AllNamed, PoolLeadsToEvidence, SeenAreTheBeliefs;
  }

  lemma IsNumbered()
    ensures "decision" in NUMBERED && "decision" != "evidence" && "decision" != "conflict"
  {
  }

  lemma VerdictAppends(s: State, v: Verdict) returns (d: Draft)
    requires Good(s)
    ensures d.body.Decision? && !d.body.executed && d.body.approval.None?
    ensures AddVerdict(s, v).entries == s.entries + [d] && IdsApart(Acts(s.entries), {d})
  {
    hide *;
    d := VerdictAdds(s, v);
    GoodNames(s);
    IsNumbered();
    FreshName(s, |s.pool|, s.rows, s.n, "decision", s.n + 1);
    FreshIsApart(s.entries, d);
  }

  lemma VerdictStep(s: State, v: Verdict)
    requires Good(s)
    ensures ActsPass(Acts(AddVerdict(s, v).entries)) <==> ActsPass(Acts(s.entries))
  {
    hide *;
    var d := VerdictAppends(s, v);
    RefusedAct(d);
    GoodIsClosed(s);
    ActsJoined(s.entries, [d]);
    NoAct(d);
    BatchesPassApart(Acts(s.entries), {d});
  }

  predicate AnswerPasses(a: Answer) {
    a.Repaired? ==> RepairPasses(a.recovery)
  }

  lemma TakeStep(s: State, a: Answer)
    requires Good(s)
    ensures ActsPass(Acts(Take(s, a).entries)) <==> ActsPass(Acts(s.entries)) && AnswerPasses(a)
  {
    hide Good, ActsPass, Acts, RepairPasses, AddBelief, AddConflict, AddVerdict, AddRecovery;
    match a
    case Remembered(m) => BeliefAddsNoAct(s, m);
    case Contested(row, extra) => ConflictAddsNoAct(s, row, extra);
    case Judged(v) => VerdictStep(s, v);
    case Repaired(r) => RepairStep(s, r);
  }

  lemma NothingPasses()
    ensures ActsPass(Acts(EMPTY.entries))
  {
  }

  lemma {:induction false} RunPassesIff(answers: seq<Answer>)
    requires NamesApart(answers)
    ensures ActsPass(Acts(TakeAll(EMPTY, answers).entries)) <==> forall a :: a in answers ==> AnswerPasses(a)
  {
    hide Good, ActsPass, Acts, AnswerPasses, Take, Generated;
    if answers == [] {
      NothingPasses();
    } else {
      var before, a := answers[..|answers| - 1], answers[|answers| - 1];
      assert a in answers && forall b :: b in before ==> b in answers;
      RunPassesIff(before);
      EveryRunIsGood(before);
      TakeStep(TakeAll(EMPTY, before), a);
      assert forall b :: b in answers <==> b in before || b == a;
    }
  }

  // ---------------------------------------------------------------- whether anything was decided

  /** A verdict, or a repair that ran something. */
  predicate AnswerDecides(a: Answer) {
    a.Judged? || (a.Repaired? && a.recovery.ran != [])
  }

  ghost predicate Decides(ds: seq<Draft>) {
    exists d :: d in ds && d.body.Decision?
  }

  lemma DecidesByActs(ds: seq<Draft>, acts: set<Draft>)
    requires acts == Acts(ds)
    ensures Decides(ds) <==> exists d :: d in acts && d.body.Decision?
  {
  }

  lemma DecidesJoined(ds: seq<Draft>, more: seq<Draft>)
    ensures Decides(ds + more) <==> Decides(ds) || Decides(more)
  {
  }

  lemma RepairDecides(s: State, r: Recovery)
    ensures Decides(AddRecovery(s, r).entries) <==> Decides(s.entries) || r.ran != []
  {
    hide Decides;
    if r.ran != [] {
      RecoveryAppends(s, r);
      DecidesJoined(s.entries, Appended(s, r));
      AppendedDecides(s, r);
    }
  }

  lemma AppendedDecides(s: State, r: Recovery)
    requires r.ran != []
    ensures Decides(Appended(s, r))
  {
    hide Numbered;
    assert Appended(s, r)[0] in Appended(s, r);
  }

  lemma DecidesStep(s: State, a: Answer)
    requires Good(s)
    ensures Decides(Take(s, a).entries) <==> Decides(s.entries) || AnswerDecides(a)
  {
    hide Good, Acts, Decides, AddBelief, AddConflict, AddVerdict, AddRecovery;
    DecidesByActs(s.entries, Acts(s.entries));
    DecidesByActs(Take(s, a).entries, Acts(Take(s, a).entries));
    match a
    case Remembered(m) => BeliefAddsNoAct(s, m);
    case Contested(row, extra) => ConflictAddsNoAct(s, row, extra);
    case Judged(v) =>
      var d := VerdictAdds(s, v);
      DecidesJoined(s.entries, [d]);
      OneDecision(d);
    case Repaired(r) => RepairDecides(s, r);
  }

  lemma OneDecision(d: Draft)
    requires d.body.Decision?
    ensures Decides([d])
  {
    assert d in [d];
  }

  lemma {:induction false} RunDecidesIff(answers: seq<Answer>)
    requires NamesApart(answers)
    ensures Decides(TakeAll(EMPTY, answers).entries) <==> exists a :: a in answers && AnswerDecides(a)
  {
    hide Good, AnswerDecides, Take, Generated;
    if answers != [] {
      var before, a := answers[..|answers| - 1], answers[|answers| - 1];
      assert a in answers && forall b :: b in before ==> b in answers;
      RunDecidesIff(before);
      EveryRunIsGood(before);
      DecidesStep(TakeAll(EMPTY, before), a);
      assert forall b :: b in answers <==> b in before || b == a;
    }
  }

  // ---------------------------------------------------------------- sorting and renumbering

  lemma SortKeepsActs(ds: seq<Draft>)
    ensures Acts(Sort(ds)) == Acts(ds)
  {
    SortKeepsMembers(ds);
    hide Sort;
  }

  /** A name an entry bears. */
  ghost predicate Borne(ds: seq<Draft>, x: string) {
    exists k :: 0 <= k < |ds| && ds[k].id == x
  }

  lemma BornBy(ds: seq<Draft>, x: string) returns (k: nat)
    requires Borne(ds, x)
    ensures k < |ds| && ds[k].id == x
  {
    k :| 0 <= k < |ds| && ds[k].id == x;
  }

  lemma SettledDistinct(ds: seq<Draft>)
    requires NamesSettled(ds)
    ensures DistinctIds(ds)
  {
    hide DistinctIds, Generated;
  }

  /** Renaming keeps a reference pointing at the entry it pointed at, and at no other. */
  lemma SameReferent(ds: seq<Draft>, x: string, j: nat)
    requires NamesSettled(ds) && Borne(ds, x) && j < |ds|
    ensures Subst(Renaming(ds), x) == NewId(ds, j) <==> x == ds[j].id
  {
    hide *;
    SettledDistinct(ds);
    var k := BornBy(ds, x);
    SubstName(ds, k);
    SubstName(ds, j);
    if k < j {
      NewIdsDistinct(ds, k, j);
    } else if j < k {
      NewIdsDistinct(ds, j, k);
    }
  }

  /** Whatever an entry refers to as an approval or a decision is there. */
  ghost predicate ActsBorne(ds: seq<Draft>) {
    forall d :: d in ds ==>
      && (d.body.Decision? && d.body.approval.Some? ==> Borne(ds, d.body.approval.value))
      && (d.body.Approval? ==> Borne(ds, d.body.decision))
  }

  lemma RenumberedBody(ds: seq<Draft>, i: nat)
    requires i < |ds|
    ensures |Renumbered(ds)| == |ds|
    ensures var d, e, m := ds[i], Renumbered(ds)[i], Renaming(ds);
            && e.id == NewId(ds, i)
            && (d.body.Decision? <==> e.body.Decision?) && (d.body.Approval? <==> e.body.Approval?)
            && (d.body.Decision? ==>
                 && e.body.risk == d.body.risk && e.body.executed == d.body.executed && e.body.proposer == d.body.proposer
                 && e.body.approval == if d.body.approval.Some? then Some(Subst(m, d.body.approval.value)) else None)
            && (d.body.Approval? ==> e.body.approver == d.body.approver && e.body.decision == Subst(m, d.body.decision))
  {
    hide NewId, Renaming, Subst, SubstAll;
  }

  /** Two acts are linked after renumbering exactly when they were before. */
  lemma SameLinks(ds: seq<Draft>, i: nat, j: nat)
    requires NamesSettled(ds) && ActsBorne(ds) && i < |ds| && j < |ds|
    ensures |Renumbered(ds)| == |ds|
    ensures var out := Renumbered(ds);
            && (Approves(out[j], out[i]) <==> Approves(ds[j], ds[i]))
            && (Unlocks(out[j], out[i]) <==> Unlocks(ds[j], ds[i]))
  {
    RenumberedBody(ds, i);
    RenumberedBody(ds, j);
    hide *;
    RefersWithin(ds, i);
    if ds[i].body.Decision? && ds[i].body.approval.Some? {
      SameReferent(ds, ds[i].body.approval.value, j);
    } else if ds[i].body.Approval? {
      SameReferent(ds, ds[i].body.decision, j);
    }
    LinksAre(ds[j], ds[i]);
    LinksAre(Renumbered(ds)[j], Renumbered(ds)[i]);
  }

  lemma RefersWithin(ds: seq<Draft>, i: nat)
    requires ActsBorne(ds) && i < |ds|
    ensures ds[i].body.Decision? && ds[i].body.approval.Some? ==> Borne(ds, ds[i].body.approval.value)
    ensures ds[i].body.Approval? ==> Borne(ds, ds[i].body.decision)
  {
    hide Borne;
    assert ds[i] in ds;
  }

  lemma LinksAre(a: Draft, d: Draft)
    ensures Approves(a, d) <==> d.body.Decision? && d.body.approval.Some? && a.body.Approval? && a.id == d.body.approval.value
    ensures Unlocks(a, d) <==> d.body.Approval? && a.body.Decision? && a.id == d.body.decision
    ensures HighRan(d) <==> d.body.Decision? && d.body.risk == "high" && d.body.executed
  {
  }

  // ---------------------------------------------------------------- by position

  ghost predicate UnlockedAt(ds: seq<Draft>, i: nat)
    requires i < |ds|
  {
    HighRan(ds[i]) ==> exists j :: 0 <= j < |ds| && Approves(ds[j], ds[i]) && Unlocks(ds[i], ds[j])
  }

  ghost predicate SignedAt(ds: seq<Draft>, i: nat)
    requires i < |ds|
  {
    ds[i].body.Approval? ==>
      && NotBlank(Some(Str(ds[i].body.approver)))
      && exists j :: 0 <= j < |ds| && Unlocks(ds[j], ds[i]) && ds[j].body.proposer != ds[i].body.approver
  }

  ghost predicate AllPass(ds: seq<Draft>) {
    forall i :: 0 <= i < |ds| ==> UnlockedAt(ds, i) && SignedAt(ds, i)
  }

  lemma AtIsIn(ds: seq<Draft>, i: nat)
    requires i < |ds|
    ensures UnlockedAt(ds, i) <==> Unlocked(Acts(ds), ds[i])
    ensures SignedAt(ds, i) <==> Signed(Acts(ds), ds[i])
  {
    hide NotBlank;
    if HighRan(ds[i]) && Unlocked(Acts(ds), ds[i]) {
      var a :| a in Acts(ds) && Approves(a, ds[i]) && a.body.decision == ds[i].id;
      var j :| 0 <= j < |ds| && ds[j] == a;
      assert Approves(ds[j], ds[i]) && Unlocks(ds[i], ds[j]);
    }
    if ds[i].body.Approval? && Signed(Acts(ds), ds[i]) {
      var e :| e in Acts(ds) && Unlocks(e, ds[i]) && e.body.proposer != ds[i].body.approver;
      var j :| 0 <= j < |ds| && ds[j] == e;
    }
  }

  lemma PassByPosition(ds: seq<Draft>)
    ensures AllPass(ds) <==> ActsPass(Acts(ds))
  {
    hide Unlocked, Signed, UnlockedAt, SignedAt;
    forall i | 0 <= i < |ds|
      ensures UnlockedAt(ds, i) <==> Unlocked(Acts(ds), ds[i])
      ensures SignedAt(ds, i) <==> Signed(Acts(ds), ds[i])
      ensures !IsAct(ds[i]) ==> UnlockedAt(ds, i) && SignedAt(ds, i)
    {
      AtIsIn(ds, i);
      OthersPass(ds, i);
    }
  }

  lemma OthersPass(ds: seq<Draft>, i: nat)
    requires i < |ds|
    ensures !IsAct(ds[i]) ==> UnlockedAt(ds, i) && SignedAt(ds, i)
  {
  }

  lemma RenumberingKeepsPassing(ds: seq<Draft>)
    requires NamesSettled(ds) && ActsBorne(ds)
    ensures AllPass(Renumbered(ds)) <==> AllPass(ds)
  {
    hide *;
    SameLength(ds);
    var out := Renumbered(ds);
    forall i | 0 <= i < |ds|
      ensures UnlockedAt(out, i) <==> UnlockedAt(ds, i)
      ensures SignedAt(out, i) <==> SignedAt(ds, i)
    {
      forall j | 0 <= j < |ds|
        ensures Approves(out[j], out[i]) <==> Approves(ds[j], ds[i])
        ensures Unlocks(out[j], out[i]) <==> Unlocks(ds[j], ds[i])
        ensures Unlocks(out[i], out[j]) <==> Unlocks(ds[i], ds[j])
        ensures ds[j].body.Decision? <==> out[j].body.Decision?
        ensures ds[j].body.Decision? ==> out[j].body.proposer == ds[j].body.proposer
      {
        SameLinks(ds, i, j);
        SameLinks(ds, j, i);
        RenumberedBody(ds, j);
      }
      RenumberedBody(ds, i);
      LinksAre(ds[i], ds[i]);
      LinksAre(out[i], out[i]);
      SameAt(ds, out, i);
    }
    AllSame(ds, out);
  }

  lemma SameAt(ds: seq<Draft>, out: seq<Draft>, i: nat)
    requires |out| == |ds| && i < |ds|
    requires forall j :: 0 <= j < |ds| ==>
               && (Approves(out[j], out[i]) <==> Approves(ds[j], ds[i])) && (Unlocks(out[j], out[i]) <==> Unlocks(ds[j], ds[i]))
               && (Unlocks(out[i], out[j]) <==> Unlocks(ds[i], ds[j]))
               && (ds[j].body.Decision? <==> out[j].body.Decision?) && (ds[j].body.Decision? ==> out[j].body.proposer == ds[j].body.proposer)
    requires HighRan(ds[i]) <==> HighRan(out[i])
    requires ds[i].body.Approval? <==> out[i].body.Approval?
    requires ds[i].body.Approval? ==> out[i].body.approver == ds[i].body.approver
    ensures UnlockedAt(out, i) <==> UnlockedAt(ds, i)
    ensures SignedAt(out, i) <==> SignedAt(ds, i)
  {
    hide Approves, HighRan, NotBlank;
  }

  lemma AllSame(ds: seq<Draft>, out: seq<Draft>)
    requires |out| == |ds|
    requires forall i :: 0 <= i < |ds| ==> (UnlockedAt(out, i) <==> UnlockedAt(ds, i)) && (SignedAt(out, i) <==> SignedAt(ds, i))
    ensures AllPass(out) <==> AllPass(ds)
  {
    hide UnlockedAt, SignedAt;
  }
}
