/**
 The right to be forgotten: `_forget_entity` of server/api.py.
 */
module Erasure {
  import opened OpLog

  const ERASURE_NOTE := "[erased on request]"

  // ---------------------------------------------------------------- what has to go

  predicate Direct(E: set<Id>, op: Op) {
    || (IsClaim(op) && exists s :: s in op.subjects && s in E)
    || (op.Entity? && op.id in E)
    || (op.Corefer? && (op.entityA in E || op.entityB in E))
  }

  ghost function SeqNos(log: Log): set<nat> {
    set r | r in log :: r.seqNo
  }

  /** The ids of the claims among the rows `S`. */
  ghost function Claims(log: Log, S: set<nat>): set<Id> {
    set r | r in log && r.seqNo in S && IsClaim(r.op) :: r.op.id
  }

  ghost function Events(log: Log, S: set<nat>): set<Id> {
    set r | r in log && r.seqNo in S && r.op.Event? :: r.op.id
  }

  /** The coreferences that name an entity of `E`. */
  ghost function Coreferences(log: Log, E: set<Id>): set<Id> {
    set r | r in log && r.op.Corefer? && Direct(E, r.op) :: r.op.id
  }

  predicate Cites(op: Op, event: Id) {
    op.Derive? && event in op.antecedents
  }

  /** Some derivation of `log` cites the event, and all that do are in `S`. */
  ghost predicate OnlyCitedIn(log: Log, S: set<nat>, event: Id) {
    && (exists r :: r in log && Cites(r.op, event))
    && (forall r :: r in log && Cites(r.op, event) ==> r.seqNo in S)
  }

  /** The five rules by which removing the rows `S` forces `op` out as well. */
  ghost predicate Forced(log: Log, E: set<Id>, S: set<nat>, op: Op) {
    match op
    case Retract(_, _, _, target) => target in Claims(log, S)
    case Supersede(_, _, _, _, olds) => exists o :: o in olds && o in Claims(log, S)
    case Derive(_, consequent, antecedents) =>
      consequent in Claims(log, S)
      || exists a :: a in antecedents && (a in Claims(log, S) || a in Events(log, S))
    case Split(_, cor, _) => cor in Coreferences(log, E)
    case Event(id, _) => OnlyCitedIn(log, S, id)
    case _ => false
  }

  ghost predicate Closed(log: Log, E: set<Id>, S: set<nat>) {
    forall r :: r in log && (Direct(E, r.op) || Forced(log, E, S, r.op)) ==> r.seqNo in S
  }

  /** What every closed set holds. */
  ghost function Erased(log: Log, E: set<Id>): set<nat> {
    set n | n in SeqNos(log) && forall S :: Closed(log, E, S) ==> n in S
  }

  lemma ForcedIsMonotone(log: Log, E: set<Id>, S: set<nat>, T: set<nat>, op: Op)
    requires S <= T && Forced(log, E, S, op)
    ensures Forced(log, E, T, op)
  {
  }

  /** `Erased` is the least closed set. */
  lemma ErasedIsLeast(log: Log, E: set<Id>)
    ensures Closed(log, E, Erased(log, E))
    ensures forall S :: Closed(log, E, S) ==> Erased(log, E) <= S
  {
    var M := Erased(log, E);
    forall r | r in log && (Direct(E, r.op) || Forced(log, E, M, r.op))
      ensures r.seqNo in M
    {
      forall S | Closed(log, E, S)
        ensures r.seqNo in S
      {
        assert M <= S;
        if Forced(log, E, M, r.op) {
          ForcedIsMonotone(log, E, M, S, r.op);
        }
      }
    }
  }

  /** Nothing else goes: every row in `Erased` is there by reference or by a rule. */
  lemma ErasedOnlyIfForced(log: Log, E: set<Id>, r: Row)
    requires Keyed(log) && r in log && r.seqNo in Erased(log, E)
    ensures Direct(E, r.op) || Forced(log, E, Erased(log, E), r.op)
  {
    var M := Erased(log, E);
    ErasedIsLeast(log, E);
    var N := set q | q in log && (Direct(E, q.op) || Forced(log, E, M, q.op)) :: q.seqNo;
    forall q | q in log && Forced(log, E, N, q.op) {
      ForcedIsMonotone(log, E, N, M, q.op);
    }
    assert Closed(log, E, N);
  }

  /** The same rules, but for an event that has gone no longer forcing the derivations that cite it. */
  ghost predicate ForcedByClaims(log: Log, E: set<Id>, S: set<nat>, op: Op) {
    && Forced(log, E, S, op)
    && (op.Derive? ==> op.consequent in Claims(log, S) || exists a :: a in op.antecedents && a in Claims(log, S))
  }

  ghost predicate ClosedByClaims(log: Log, E: set<Id>, S: set<nat>) {
    forall r :: r in log && (Direct(E, r.op) || ForcedByClaims(log, E, S, r.op)) ==> r.seqNo in S
  }

  /** A removed event never forces a further derivation out: without that rule the least set is the same. */
  lemma EventsForceNothing(log: Log, E: set<Id>)
    requires Keyed(log)
    ensures forall S :: ClosedByClaims(log, E, S) ==> Erased(log, E) <= S
  {
    var W := set n | n in SeqNos(log) && forall S :: ClosedByClaims(log, E, S) ==> n in S;
    ClosedByClaimsMeets(log, E, W);
    hide Claims, Direct;
    forall r, a | r in log && r.op.Derive? && a in r.op.antecedents && a in Events(log, W)
      ensures r.seqNo in W
    {
      var v :| v in log && v.seqNo in W && v.op.Event? && v.op.id == a;
      ClosedByClaimsOnly(log, E, W, v);
      assert Cites(r.op, a);
    }
    assert Closed(log, E, W);
  }

  lemma ClosedByClaimsOnly(log: Log, E: set<Id>, W: set<nat>, r: Row)
    requires W == set n | n in SeqNos(log) && forall S :: ClosedByClaims(log, E, S) ==> n in S
    requires Keyed(log) && r in log && r.seqNo in W
    ensures Direct(E, r.op) || ForcedByClaims(log, E, W, r.op)
  {
    ClosedByClaimsMeets(log, E, W);
    var N := set q | q in log && (Direct(E, q.op) || ForcedByClaims(log, E, W, q.op)) :: q.seqNo;
    forall q | q in log && ForcedByClaims(log, E, N, q.op) {
      ForcedIsMonotone(log, E, N, W, q.op);
    }
    assert ClosedByClaims(log, E, N);
  }

  lemma ClosedByClaimsMeets(log: Log, E: set<Id>, W: set<nat>)
    requires W == set n | n in SeqNos(log) && forall S :: ClosedByClaims(log, E, S) ==> n in S
    ensures ClosedByClaims(log, E, W)
  {
    forall r | r in log && (Direct(E, r.op) || ForcedByClaims(log, E, W, r.op))
      ensures r.seqNo in W
    {
      forall S | ClosedByClaims(log, E, S)
        ensures r.seqNo in S
      {
        assert W <= S;
        if ForcedByClaims(log, E, W, r.op) {
          ForcedIsMonotone(log, E, W, S, r.op);
        }
      }
    }
  }

  // ---------------------------------------------------------------- the rewritten log

  /** An event's label is the person's words once a removed derivation cites it. */
  ghost predicate Redacted(log: Log, S: set<nat>, event: Id) {
    exists r :: r in log && Cites(r.op, event) && r.seqNo in S
  }

  ghost function Relabel(log: Log, S: set<nat>, r: Row): Row {
    if r.op.Event? && Redacted(log, S, r.op.id) then r.(op := r.op.(text := ERASURE_NOTE)) else r
  }

  /** Relabelling leaves what an op names, and provides, alone. */
  lemma RelabelledOp(log: Log, S: set<nat>, r: Row)
    ensures var q := Relabel(log, S, r);
            && q.seqNo == r.seqNo && (q == r || (q.op.Event? && r.op.Event? && q.op.id == r.op.id))
            && References(q.op) == References(r.op)
            && forall ref :: Provides(q.op, ref) == Provides(r.op, ref)
  {
  }

  /** The rows of `rows` that `S` leaves, relabelled by what `S` removes from `log`. */
  ghost function Rewrite(log: Log, S: set<nat>, rows: Log): Log {
    if rows == [] then []
    else (if rows[0].seqNo in S then [] else [Relabel(log, S, rows[0])]) + Rewrite(log, S, rows[1..])
  }

  ghost function Forgotten(log: Log, E: set<Id>): Log {
    Rewrite(log, Erased(log, E), log)
  }

  lemma {:induction false} RewriteHolds(log: Log, S: set<nat>, rows: Log, r: Row)
    ensures r in Rewrite(log, S, rows) <==> exists q :: q in rows && q.seqNo !in S && r == Relabel(log, S, q)
  {
    if rows != [] {
      RewriteHolds(log, S, rows[1..], r);
      assert forall q :: q in rows <==> q == rows[0] || q in rows[1..];
    }
  }

  /** Forgetting one person and then another is forgetting both at once. */
  lemma ForgetTwo(log: Log, E: set<Id>, F: set<Id>)
    requires Keyed(log)
    ensures Forgotten(Forgotten(log, E), F) == Forgotten(log, E + F)
  {
    ErasedTwice(log, E, F);
    RewriteTwice(log, Erased(log, E), Erased(Forgotten(log, E), F), log);
  }

  /** What a first rewriting leaves of a log, row by row: the same op but for an event's text. */
  lemma RowsLeft(log: Log, S: set<nat>)
    ensures forall r :: r in Rewrite(log, S, log) ==>
      exists q :: q in log && q.seqNo !in S && r == Relabel(log, S, q)
    ensures forall q :: q in log && q.seqNo !in S ==> Relabel(log, S, q) in Rewrite(log, S, log)
  {
    forall r { RewriteHolds(log, S, log, r); }
  }

  lemma CitesLeft(log: Log, S: set<nat>, event: Id, r: Row)
    ensures r in Rewrite(log, S, log) && Cites(r.op, event) <==> r in log && r.seqNo !in S && Cites(r.op, event)
  {
    RowsLeft(log, S);
    if r in log && r.seqNo !in S && Cites(r.op, event) {
      assert Relabel(log, S, r) == r;
    }
  }

  lemma ErasedTwice(log: Log, E: set<Id>, F: set<Id>)
    requires Keyed(log)
    ensures Erased(log, E + F) == Erased(log, E) + Erased(Forgotten(log, E), F)
  {
    ErasedIsLeast(log, E);
    ErasedIsLeast(log, E + F);
    ErasedIsLeast(Forgotten(log, E), F);
    FirstIsWithinBoth(log, E, F);
    SecondIsWithinBoth(log, E, F);
    BothIsWithinFirstAndSecond(log, E, F);
  }

  lemma FirstIsWithinBoth(log: Log, E: set<Id>, F: set<Id>)
    ensures Closed(log, E, Erased(log, E + F))
  {
    ErasedIsLeast(log, E + F);
  }

  lemma LeftNamesNoMore(log: Log, S: set<nat>, B: set<nat>, E: set<Id>, F: set<Id>)
    ensures var left := Rewrite(log, S, log);
            && Claims(left, B) <= Claims(log, B)
            && Events(left, B) <= Events(log, B)
            && Coreferences(left, F) <= Coreferences(log, E + F)
  {
    RowsLeft(log, S);
  }

  lemma NothingElseNamed(log: Log, S: set<nat>, N: set<nat>, E: set<Id>, F: set<Id>)
    requires forall r :: r in log && r.op.Corefer? && r.seqNo in S ==> Direct(E, r.op)
    ensures var left := Rewrite(log, S, log);
            && Claims(log, S + N) <= Claims(log, S) + Claims(left, N)
            && Events(log, S + N) <= Events(log, S) + Events(left, N)
            && Coreferences(log, E + F) <= Coreferences(log, E) + Coreferences(left, F)
  {
    RowsLeft(log, S);
    var left := Rewrite(log, S, log);
    forall r | r in log && r.seqNo !in S
      ensures r.seqNo in N && IsClaim(r.op) ==> r.op.id in Claims(left, N)
      ensures r.seqNo in N && r.op.Event? ==> r.op.id in Events(left, N)
      ensures Direct(F, r.op) && r.op.Corefer? ==> r.op.id in Coreferences(left, F)
    {
      assert Relabel(log, S, r) in left;
    }
  }

  lemma SecondIsWithinBoth(log: Log, E: set<Id>, F: set<Id>)
    ensures Closed(Forgotten(log, E), F, Erased(log, E + F))
  {
    var M, B, left := Erased(log, E), Erased(log, E + F), Forgotten(log, E);
    ErasedIsLeast(log, E);
    ErasedIsLeast(log, E + F);
    FirstIsWithinBoth(log, E, F);
    LeftNamesNoMore(log, M, B, E, F);
    hide Claims, Events, Coreferences, Rewrite, Erased;
    forall r | r in left && (Direct(F, r.op) || Forced(left, F, B, r.op))
      ensures r.seqNo in B
    {
      RowsLeft(log, M);
      var q :| q in log && q.seqNo !in M && r == Relabel(log, M, q);
      if r.op.Event? && Forced(left, F, B, r.op) {
        StillOnlyCitedIn(log, M, B, r.op.id);
      }
      assert Direct(E + F, q.op) || Forced(log, E + F, B, q.op);
    }
  }

  lemma StillOnlyCitedIn(log: Log, S: set<nat>, B: set<nat>, event: Id)
    requires S <= B && OnlyCitedIn(Rewrite(log, S, log), B, event)
    ensures OnlyCitedIn(log, B, event)
  {
    forall c { CitesLeft(log, S, event, c); }
  }

  lemma OnlyCitedInLeft(log: Log, S: set<nat>, N: set<nat>, event: Id)
    requires !OnlyCitedIn(log, S, event) && OnlyCitedIn(log, S + N, event)
    ensures OnlyCitedIn(Rewrite(log, S, log), N, event)
  {
    forall c { CitesLeft(log, S, event, c); }
  }

  lemma ForcedInLeft(log: Log, E: set<Id>, F: set<Id>, S: set<nat>, N: set<nat>, r: Row)
    requires r in log && r.seqNo !in S
    requires !Forced(log, E, S, r.op) && Forced(log, E + F, S + N, r.op)
    requires forall q :: q in log && q.op.Corefer? && q.seqNo in S ==> Direct(E, q.op)
    ensures Forced(Rewrite(log, S, log), F, N, Relabel(log, S, r).op)
  {
    NothingElseNamed(log, S, N, E, F);
    hide Claims, Events, Coreferences, Rewrite, Redacted;
    if r.op.Event? {
      OnlyCitedInLeft(log, S, N, r.op.id);
    }
  }

  lemma BothIsWithinFirstAndSecond(log: Log, E: set<Id>, F: set<Id>)
    requires Keyed(log)
    ensures Closed(log, E + F, Erased(log, E) + Erased(Forgotten(log, E), F))
  {
    var M, left := Erased(log, E), Forgotten(log, E);
    var N := Erased(left, F);
    ErasedIsLeast(log, E);
    ErasedIsLeast(left, F);
    RowsLeft(log, M);
    forall q | q in log && q.op.Corefer? && q.seqNo in M
      ensures Direct(E, q.op)
    {
      ErasedOnlyIfForced(log, E, q);
    }
    hide Rewrite, Erased, Claims, Events, Coreferences, Redacted;
    forall r | r in log && (Direct(E + F, r.op) || Forced(log, E + F, M + N, r.op))
      ensures r.seqNo in M + N
    {
      if r.seqNo !in M {
        var q := Relabel(log, M, r);
        assert q in left && q.seqNo == r.seqNo;
        if Forced(log, E + F, M + N, r.op) {
          ForcedInLeft(log, E, F, M, N, r);
        } else {
          assert Direct(F, q.op);
        }
      }
    }
  }

  lemma {:induction false} RewriteTwice(log: Log, S: set<nat>, T: set<nat>, rows: Log)
    ensures Rewrite(Rewrite(log, S, log), T, Rewrite(log, S, rows)) == Rewrite(log, S + T, rows)
  {
    if rows != [] {
      var left, head := Rewrite(log, S, log), rows[0];
      RewriteTwice(log, S, T, rows[1..]);
      if head.seqNo in S {
        assert Rewrite(log, S, rows) == Rewrite(log, S, rows[1..]);
      } else {
        var kept := Relabel(log, S, head);
        assert Rewrite(log, S, rows) == [kept] + Rewrite(log, S, rows[1..]);
        assert Rewrite(log, S, rows)[1..] == Rewrite(log, S, rows[1..]);
        RelabelTwice(log, S, T, head);
      }
    }
  }

  lemma RelabelTwice(log: Log, S: set<nat>, T: set<nat>, r: Row)
    ensures Relabel(Rewrite(log, S, log), T, Relabel(log, S, r)) == Relabel(log, S + T, r)
  {
    if r.op.Event? {
      forall c { CitesLeft(log, S, r.op.id, c); }
    }
  }

  /** Order does not matter, down to the last row and label; and once is enough. */
  lemma ForgettingIsConfluent(log: Log, e: Id, f: Id)
    requires Keyed(log)
    ensures Forgotten(Forgotten(log, {e}), {f}) == Forgotten(Forgotten(log, {f}), {e})
    ensures Forgotten(Forgotten(log, {e}), {e}) == Forgotten(log, {e})
  {
    ForgetTwo(log, {e}, {f});
    ForgetTwo(log, {f}, {e});
    ForgetTwo(log, {e}, {e});
    assert {e} + {f} == {f} + {e} && {e} + {e} == {e};
  }

  // ---------------------------------------------------------------- the rest still replays

  /** A row `S` leaves names, as a claim, the id of a coreference or a split that `S` removes. */
  ghost predicate NamesRemovedIdentity(log: Log, S: set<nat>, r: Row, q: Row) {
    && r in log && r.seqNo !in S
    && q in log && q.seqNo in S && IsIdentityOp(q.op)
    && (ToClaim(q.op.id) in References(r.op) || ToNode(q.op.id) in References(r.op))
  }

  /** No two rows are recorded under one claim or event id. */
  ghost predicate DistinctIds(log: Log) {
    forall p, q, id :: p in log && q in log && Provides(p.op, ToNode(id)) && Provides(q.op, ToNode(id)) ==> p == q
  }

  /** What names a removed row goes itself, but for the ids of removed coreferences and splits. */
  lemma RemovedReferenceForces(log: Log, E: set<Id>, r: Row, q: Row, ref: Ref)
    requires Keyed(log) && r in log && ref in References(r.op)
    requires q in log && q.seqNo in Erased(log, E) && Provides(q.op, ref)
    ensures || Direct(E, r.op)
            || Forced(log, E, Erased(log, E), r.op)
            || (IsIdentityOp(q.op) && (ref == ToClaim(q.op.id) || ref == ToNode(q.op.id)))
  {
    var M := Erased(log, E);
    ErasedOnlyIfForced(log, E, q);
    hide Erased, Keyed;
    if IsClaim(q.op) {
      assert q.op.id in Claims(log, M);
    } else if q.op.Event? {
      assert q.op.id in Events(log, M);
    } else if q.op.Corefer? {
      assert q.op.id in Coreferences(log, E);
    }
  }

  /** Whatever a surviving row names survives too, but for the ids of removed coreferences and splits. */
  lemma ReferenceSurvives(log: Log, E: set<Id>, before: Log, r: Row, ref: Ref)
    requires Keyed(log) && r in log && r.seqNo !in Erased(log, E) && ref in References(r.op)
    requires (forall q :: q in before ==> q in log) && Provided(before, ref)
    requires forall q :: !NamesRemovedIdentity(log, Erased(log, E), r, q)
    ensures exists q :: q in before && q.seqNo !in Erased(log, E) && Provides(q.op, ref)
  {
    ErasedIsLeast(log, E);
    var q :| q in before && Provides(q.op, ref);
    hide Erased, Keyed, Forced, References, Direct;
    assert !NamesRemovedIdentity(log, Erased(log, E), r, q);
    if q.seqNo in Erased(log, E) {
      RemovedReferenceForces(log, E, r, q, ref);
    }
  }

  lemma {:induction false} RewriteJoins(log: Log, S: set<nat>, a: Log, b: Log)
    ensures Rewrite(log, S, a + b) == Rewrite(log, S, a) + Rewrite(log, S, b)
  {
    if a == [] {
      assert a + b == b;
    } else {
      assert (a + b)[0] == a[0] && (a + b)[1..] == a[1..] + b;
      RewriteJoins(log, S, a[1..], b);
    }
  }

  lemma {:induction false} SurvivorsReplayAfter(log: Log, E: set<Id>, before: Log, rows: Log)
    requires Keyed(log) && log == before + rows && ReplaysAfter(before, rows)
    requires forall r, q :: !NamesRemovedIdentity(log, Erased(log, E), r, q)
    ensures ReplaysAfter(Rewrite(log, Erased(log, E), before), Rewrite(log, Erased(log, E), rows))
    decreases |rows|
  {
    if rows != [] {
      var M, head := Erased(log, E), rows[0];
      assert log == (before + [head]) + rows[1..];
      SurvivorsReplayAfter(log, E, before + [head], rows[1..]);
      RewriteJoins(log, M, before, [head]);
      var kept := Relabel(log, M, head);
      if head.seqNo in M {
        assert Rewrite(log, M, [head]) == [];
        assert Rewrite(log, M, rows) == Rewrite(log, M, rows[1..]);
        assert Rewrite(log, M, before + [head]) == Rewrite(log, M, before);
      } else {
        assert Rewrite(log, M, [head]) == [kept];
        assert Rewrite(log, M, rows) == [kept] + Rewrite(log, M, rows[1..]);
        assert Rewrite(log, M, rows)[1..] == Rewrite(log, M, rows[1..]);
        SurvivorResolves(log, E, before, head);
      }
    }
  }

  lemma SurvivorResolves(log: Log, E: set<Id>, before: Log, r: Row)
    requires Keyed(log) && r in log && r.seqNo !in Erased(log, E)
    requires (forall q :: q in before ==> q in log) && Resolves(before, r.op)
    requires forall q :: !NamesRemovedIdentity(log, Erased(log, E), r, q)
    ensures Resolves(Rewrite(log, Erased(log, E), before), Relabel(log, Erased(log, E), r).op)
  {
    var M := Erased(log, E);
    assert References(Relabel(log, M, r).op) == References(r.op);
    hide Erased, Keyed, References, Redacted, Rewrite, NamesRemovedIdentity;
    forall ref | ref in References(r.op)
      ensures Provided(Rewrite(log, M, before), ref)
    {
      ReferenceSurvives(log, E, before, r, ref);
      RewriteProvides(log, M, before, ref);
    }
  }

  lemma RewriteProvides(log: Log, S: set<nat>, rows: Log, ref: Ref)
    requires exists q :: q in rows && q.seqNo !in S && Provides(q.op, ref)
    ensures Provided(Rewrite(log, S, rows), ref)
  {
    var q :| q in rows && q.seqNo !in S && Provides(q.op, ref);
    RewriteHolds(log, S, rows, Relabel(log, S, q));
    assert Provides(Relabel(log, S, q).op, ref);
  }

  /**
   The scratch replay is the refusal exactly when something the erasure leaves names, as a claim,
   a coreference or a split the erasure removes.
   */
  lemma PrunedLogReplaysIff(log: Log, E: set<Id>)
    requires Keyed(log) && DistinctIds(log) && Replays(log)
    ensures Replays(Forgotten(log, E)) <==> forall r, q :: !NamesRemovedIdentity(log, Erased(log, E), r, q)
  {
    hide Erased, Keyed, References, Redacted, NamesRemovedIdentity;
    if r, q :| NamesRemovedIdentity(log, Erased(log, E), r, q) {
      IdentityLeftDangling(log, E, r, q);
    } else {
      assert log == [] + log;
      SurvivorsReplayAfter(log, E, [], log);
    }
  }

  lemma IdentityLeftDangling(log: Log, E: set<Id>, r: Row, q: Row)
    requires DistinctIds(log) && NamesRemovedIdentity(log, Erased(log, E), r, q)
    ensures !Replays(Forgotten(log, E))
  {
    var M, left := Erased(log, E), Forgotten(log, E);
    hide Erased, Rewrite, Redacted;
    var ref := if ToClaim(q.op.id) in References(r.op) then ToClaim(q.op.id) else ToNode(q.op.id);
    var kept := Relabel(log, M, r);
    assert ref in References(kept.op);
    RewriteHolds(log, M, log, kept);
    var id := q.op.id;
    forall p | p in left
      ensures !Provides(p.op, ref)
    {
      RewriteHolds(log, M, log, p);
      var p' :| p' in log && p'.seqNo !in M && p == Relabel(log, M, p');
      assert Provides(q.op, ToNode(id));
      assert Provides(p.op, ref) ==> Provides(p'.op, ToNode(id));
    }
    if Replays(left) {
      ReplayedReferences([], left, kept, ref);
    }
  }

  lemma {:induction false} ReplayedReferences(before: Log, rows: Log, r: Row, ref: Ref)
    requires ReplaysAfter(before, rows) && r in rows && ref in References(r.op)
    ensures Provided(before + rows, ref)
    decreases |rows|
  {
    if rows[0] == r {
      assert Provided(before, ref);
    } else {
      ReplayedReferences(before + [rows[0]], rows[1..], r, ref);
      assert (before + [rows[0]]) + rows[1..] == before + rows;
    }
  }
}
