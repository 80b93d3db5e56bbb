/**
 `_forget_entity` as the source runs it: a pass over the rows, a cascade of passes until nothing
 changes, a scratch replay of what is left, and only then the rewritten log.
 */
module ForgetEntity {
  import opened Wrappers
  import opened OpLog
  import opened Erasure

  datatype Refusal = NothingOnRecord | WouldBreakReplay

  datatype Report = Report(ops: nat, eventLabels: nat)

  /** Some derivation citing the event is removed (`gone`), or some is kept (`!gone`). */
  ghost predicate CitedAs(log: Log, S: set<nat>, event: Id, gone: bool) {
    exists r :: r in log && Cites(r.op, event) && (r.seqNo in S) == gone
  }

  predicate Listed(refs: map<Id, seq<bool>>, event: Id, gone: bool) {
    event in refs && gone in refs[event]
  }

  /** `refs` lists, for each event cited in `rows`, whether each citing derivation is removed. */
  ghost predicate Tallies(refs: map<Id, seq<bool>>, rows: Log, eventIds: set<Id>, S: set<nat>) {
    && (forall id :: id in refs ==> refs[id] != [])
    && (forall id, b :: Listed(refs, id, b) <==> id in eventIds && CitedAs(rows, S, id, b))
  }

  lemma CitedOneMore(rows: Log, r: Row, S: set<nat>)
    ensures forall id, b :: CitedAs(rows + [r], S, id, b)
                       <==> CitedAs(rows, S, id, b) || (Cites(r.op, id) && b == (r.seqNo in S))
  {
    assert forall q :: q in rows + [r] <==> q in rows || q == r;
  }

  method EventReferences(log: Log, eventIds: set<Id>, removedSeq: set<nat>) returns (refs: map<Id, seq<bool>>)
    ensures Tallies(refs, log, eventIds, removedSeq)
  {
    refs := map[];
    for i := 0 to |log|
      invariant Tallies(refs, log[..i], eventIds, removedSeq)
    {
      var r := log[i];
      assert log[..i + 1] == log[..i] + [r];
      CitedOneMore(log[..i], r, removedSeq);
      if r.op.Derive? {
        refs := AddReferences(refs, r.op.antecedents, eventIds, r.seqNo in removedSeq);
      }
    }
    assert log[..|log|] == log;
  }

  method AddReferences(refs: map<Id, seq<bool>>, antecedents: seq<Id>, eventIds: set<Id>, gone: bool)
      returns (more: map<Id, seq<bool>>)
    requires forall id :: id in refs ==> refs[id] != []
    ensures forall id :: id in more ==> more[id] != []
    ensures forall id, b :: Listed(more, id, b) <==>
              Listed(refs, id, b) || (id in eventIds && id in antecedents && b == gone)
  {
    more := refs;
    for k := 0 to |antecedents|
      invariant forall id :: id in more ==> more[id] != []
      invariant forall id, b :: Listed(more, id, b) <==>
                  Listed(refs, id, b) || (id in eventIds && id in antecedents[..k] && b == gone)
    {
      var a := antecedents[k];
      assert forall id :: id in antecedents[..k + 1] <==> id in antecedents[..k] || id == a;
      if a in eventIds {
        var listed := (if a in more then more[a] else []) + [gone];
        assert forall b :: b in listed <==> Listed(more, a, b) || b == gone;
        ghost var fewer := more;
        more := more[a := listed];
        assert forall id, b :: Listed(more, id, b) <==> Listed(fewer, id, b) || (id == a && b == gone);
      }
    }
    assert antecedents[..|antecedents|] == antecedents;
  }

  // ---------------------------------------------------------------- the cascade

  ghost function DirectRows(log: Log, E: set<Id>): set<nat> {
    set r | r in log && Direct(E, r.op) :: r.seqNo
  }

  /** What the loops carry: removed rows, all of which must go, and the ids they were recorded under. */
  ghost predicate Tracks(log: Log, E: set<Id>, seqs: set<nat>, claims: set<Id>, events: set<Id>) {
    DirectRows(log, E) <= seqs <= Erased(log, E) && claims == Claims(log, seqs) && events == Events(log, seqs)
  }

  lemma OneRowMore(log: Log, S: set<nat>, r: Row)
    requires Keyed(log) && r in log
    ensures Claims(log, S + {r.seqNo}) == Claims(log, S) + if IsClaim(r.op) then {r.op.id} else {}
    ensures Events(log, S + {r.seqNo}) == Events(log, S) + if r.op.Event? then {r.op.id} else {}
  {
    assert forall q :: q in log && q.seqNo == r.seqNo ==> q == r;
  }

  lemma TracksOneMore(log: Log, E: set<Id>, S: set<nat>, claims: set<Id>, events: set<Id>, r: Row)
    requires Keyed(log) && r in log && Tracks(log, E, S, claims, events) && Forced(log, E, S, r.op)
    ensures Tracks(log, E, S + {r.seqNo}, claims + (if IsClaim(r.op) then {r.op.id} else {}),
                   events + if r.op.Event? then {r.op.id} else {})
  {
    OneRowMore(log, S, r);
    ErasedIsLeast(log, E);
    ForcedIsMonotone(log, E, S, Erased(log, E), r.op);
  }

  method RemoveDirect(log: Log, entity: Id) returns (seqs: set<nat>, claims: set<Id>, coreferences: set<Id>)
    requires Keyed(log)
    ensures Tracks(log, {entity}, seqs, claims, {})
    ensures coreferences == Coreferences(log, {entity})
  {
    seqs, claims, coreferences := {}, {}, {};
    for i := 0 to |log|
      invariant seqs == DirectRows(log[..i], {entity})
      invariant claims == set r | r in log[..i] && Direct({entity}, r.op) && IsClaim(r.op) :: r.op.id
      invariant coreferences == Coreferences(log[..i], {entity})
    {
      var r := log[i];
      assert forall q :: q in log[..i + 1] <==> q in log[..i] || q == r;
      if IsClaim(r.op) && entity in r.op.subjects {
        seqs, claims := seqs + {r.seqNo}, claims + {r.op.id};
      } else if r.op.Entity? && r.op.id == entity {
        seqs := seqs + {r.seqNo};
      } else if r.op.Corefer? && (entity == r.op.entityA || entity == r.op.entityB) {
        seqs, coreferences := seqs + {r.seqNo}, coreferences + {r.op.id};
      }
    }
    assert log[..|log|] == log;
    ErasedIsLeast(log, {entity});
    DirectIds(log, {entity});
  }

  lemma DirectIds(log: Log, E: set<Id>)
    requires Keyed(log)
    ensures Claims(log, DirectRows(log, E)) == set r | r in log && Direct(E, r.op) && IsClaim(r.op) :: r.op.id
    ensures Events(log, DirectRows(log, E)) == {}
    ensures DirectRows(log, E) <= Erased(log, E)
  {
    ErasedIsLeast(log, E);
    forall r | r in log && r.seqNo in DirectRows(log, E)
      ensures Direct(E, r.op)
    {
      var q :| q in log && Direct(E, q.op) && q.seqNo == r.seqNo;
      assert q == r;
    }
  }

  /** The tests of the first inner loop, in the source's order. */
  predicate Follows(op: Op, claims: set<Id>, events: set<Id>, coreferences: set<Id>) {
    if op.Retract? then op.target in claims
    else if op.Supersede? then (set o | o in op.olds) * claims != {}
    else if op.Derive? then op.consequent in claims || (set a | a in op.antecedents) * (claims + events) != {}
    else op.Split? && op.cor in coreferences
  }

  lemma Meets(ids: seq<Id>, S: set<Id>)
    ensures (set i | i in ids) * S != {} <==> exists i :: i in ids && i in S
  {
    if i :| i in ids && i in S {
      assert i in (set j | j in ids) * S;
    }
  }

  lemma FollowsIffForced(log: Log, E: set<Id>, S: set<nat>, op: Op)
    ensures Follows(op, Claims(log, S), Events(log, S), Coreferences(log, E)) <==> Forced(log, E, S, op) && !op.Event?
  {
    var claims, events := Claims(log, S), Events(log, S);
    if op.Supersede? {
      Meets(op.olds, claims);
    } else if op.Derive? {
      Meets(op.antecedents, claims + events);
    }
  }

  method FollowReferences(log: Log, ghost E: set<Id>, seqs: set<nat>, claims: set<Id>, events: set<Id>,
                          coreferences: set<Id>)
      returns (seqs': set<nat>, claims': set<Id>, changed: bool)
    requires Keyed(log) && Tracks(log, E, seqs, claims, events) && coreferences == Coreferences(log, E)
    ensures Tracks(log, E, seqs', claims', events) && seqs <= seqs'
    ensures changed <==> seqs' != seqs
    ensures !changed ==> forall r :: r in log && Forced(log, E, seqs, r.op) && !r.op.Event? ==> r.seqNo in seqs
  {
    seqs', claims', changed := seqs, claims, false;
    for i := 0 to |log|
      invariant Tracks(log, E, seqs', claims', events) && seqs <= seqs'
      invariant changed <==> seqs' != seqs
      invariant !changed ==> forall r :: r in log[..i] && Forced(log, E, seqs, r.op) && !r.op.Event? ==> r.seqNo in seqs
    {
      var r := log[i];
      assert forall q :: q in log[..i + 1] <==> q in log[..i] || q == r;
      if r.seqNo !in seqs' {
        FollowsIffForced(log, E, seqs', r.op);
        if Follows(r.op, claims', events, coreferences) {
          TracksOneMore(log, E, seqs', claims', events, r);
          seqs', changed := seqs' + {r.seqNo}, true;
          if IsClaim(r.op) {
            claims' := claims' + {r.op.id};
          }
        }
      }
    }
    assert log[..|log|] == log;
  }

  method FollowEvents(log: Log, ghost E: set<Id>, refs: map<Id, seq<bool>>, seqs: set<nat>, ghost claims: set<Id>,
                      events: set<Id>)
      returns (seqs': set<nat>, events': set<Id>, changed: bool)
    requires Keyed(log) && Tracks(log, E, seqs, claims, events)
    requires Tallies(refs, log, Events(log, SeqNos(log)), seqs)
    ensures Tracks(log, E, seqs', claims, events') && seqs <= seqs'
    ensures changed <==> seqs' != seqs
    ensures !changed ==> events' == events
    ensures !changed ==> forall r :: r in log && Forced(log, E, seqs, r.op) && r.op.Event? ==> r.seqNo in seqs
  {
    hide Forced, Claims, Events, Erased, DirectRows, Tallies, Keyed;
    seqs', events', changed := seqs, events, false;
    for i := 0 to |log|
      invariant Tracks(log, E, seqs', claims, events') && seqs <= seqs'
      invariant changed <==> seqs' != seqs
      invariant !changed ==> events' == events
      invariant !changed ==> forall r :: r in log[..i] && Forced(log, E, seqs, r.op) && r.op.Event? ==> r.seqNo in seqs
    {
      var r := log[i];
      assert forall q :: q in log[..i + 1] <==> q in log[..i] || q == r;
      if r.op.Event? && r.seqNo !in seqs' {
        AllGoneIffForced(log, E, refs, seqs, r);
        if r.op.id in refs && false !in refs[r.op.id] {
          ForcedIsMonotone(log, E, seqs, seqs', r.op);
          TracksOneMore(log, E, seqs', claims, events', r);
          seqs', events', changed := seqs' + {r.seqNo}, events' + {r.op.id}, true;
        }
      }
    }
    assert log[..|log|] == log;
  }

  lemma AllGoneIffForced(log: Log, E: set<Id>, refs: map<Id, seq<bool>>, S: set<nat>, r: Row)
    requires Tallies(refs, log, Events(log, SeqNos(log)), S) && r in log && r.op.Event?
    ensures r.op.id in refs && false !in refs[r.op.id] <==> Forced(log, E, S, r.op)
  {
    var id := r.op.id;
    assert id in Events(log, SeqNos(log));
    assert Listed(refs, id, false) <==> CitedAs(log, S, id, false);
    assert Listed(refs, id, true) <==> CitedAs(log, S, id, true);
    if id in refs && false !in refs[id] {
      var first := refs[id][0];
      assert first in refs[id];
      assert Listed(refs, id, true);
      assert !CitedAs(log, S, id, false);
    }
    if OnlyCitedIn(log, S, id) {
      var q :| q in log && Cites(q.op, id);
      assert CitedAs(log, S, id, true) && !CitedAs(log, S, id, false);
    }
  }

  /** What goes and whose labels are redacted. However the rows are ordered, it is the least closed set. */
  method FindErased(log: Log, entity: Id) returns (seqs: set<nat>, redact: set<Id>)
    requires Keyed(log)
    ensures seqs == Erased(log, {entity})
    ensures CitedByBoth(log, seqs, redact)
  {
    var eventIds := set r | r in log && r.op.Event? :: r.op.id;
    assert eventIds == Events(log, SeqNos(log));
    var claims, coreferences;
    seqs, claims, coreferences := RemoveDirect(log, entity);
    var events, refs, changed := {}, map[], true;
    while changed
      invariant Tracks(log, {entity}, seqs, claims, events)
      invariant !changed ==> Closed(log, {entity}, seqs) && Tallies(refs, log, eventIds, seqs)
      decreases SeqNos(log) - seqs, changed
    {
      var byEvent;
      seqs, claims, changed := FollowReferences(log, {entity}, seqs, claims, events, coreferences);
      refs := EventReferences(log, eventIds, seqs);
      seqs, events, byEvent := FollowEvents(log, {entity}, refs, seqs, claims, events);
      changed := changed || byEvent;
    }
    ErasedIsLeast(log, {entity});
    redact := set id | id in refs && true in refs[id] && false in refs[id];
    forall id
      ensures id in redact <==> id in eventIds && CitedAs(log, seqs, id, true) && CitedAs(log, seqs, id, false)
    {
      assert Listed(refs, id, true) <==> id in eventIds && CitedAs(log, seqs, id, true);
      assert Listed(refs, id, false) <==> id in eventIds && CitedAs(log, seqs, id, false);
    }
  }

  // ---------------------------------------------------------------- verify, then rewrite

  /** The events both a removed and a kept derivation cite. */
  ghost predicate CitedByBoth(log: Log, S: set<nat>, redact: set<Id>) {
    forall id :: id in redact <==>
      id in Events(log, SeqNos(log)) && CitedAs(log, S, id, true) && CitedAs(log, S, id, false)
  }

  /** Of the events left behind, those redacted are the ones a removed derivation cites: a kept one does too. */
  lemma RedactedIffBoth(log: Log, E: set<Id>, redact: set<Id>, r: Row)
    requires r in log && r.op.Event? && r.seqNo !in Erased(log, E)
    requires CitedByBoth(log, Erased(log, E), redact)
    ensures r.op.id in redact <==> Redacted(log, Erased(log, E), r.op.id)
  {
    var S, id := Erased(log, E), r.op.id;
    ErasedIsLeast(log, E);
    assert id in Events(log, SeqNos(log)) && !OnlyCitedIn(log, S, id);
    if c :| c in log && Cites(c.op, id) && c.seqNo in S {
      assert CitedAs(log, S, id, true);
      var d :| d in log && Cites(d.op, id) && d.seqNo !in S;
      assert CitedAs(log, S, id, false);
    }
  }

  ghost function Relabelled(log: Log, S: set<nat>, rows: Log): set<Row> {
    set r | r in rows && r.op.Event? && r.seqNo !in S && Redacted(log, S, r.op.id)
  }

  lemma RewriteOneMore(log: Log, S: set<nat>, i: nat)
    requires i < |log|
    ensures Rewrite(log, S, log[..i + 1])
         == Rewrite(log, S, log[..i]) + if log[i].seqNo in S then [] else [Relabel(log, S, log[i])]
  {
    assert log[..i + 1] == log[..i] + [log[i]];
    RewriteJoins(log, S, log[..i], [log[i]]);
  }

  /** The rows that are left, in order, relabelled; with the number of labels redacted. */
  method Prune(log: Log, ghost E: set<Id>, seqs: set<nat>, redact: set<Id>) returns (kept: Log, labels: nat)
    requires Keyed(log) && seqs == Erased(log, E) && CitedByBoth(log, seqs, redact)
    ensures kept == Forgotten(log, E)
    ensures labels == |Relabelled(log, seqs, log)|
  {
    kept, labels := [], 0;
    RelabelledNothing(log, seqs);
    hide Rewrite, Erased, CitedByBoth, Relabelled, Redacted, Keyed;
    for i := 0 to |log|
      invariant kept == Rewrite(log, seqs, log[..i])
      invariant labels == |Relabelled(log, seqs, log[..i])|
    {
      var r := log[i];
      RewriteOneMore(log, seqs, i);
      RelabelledOneMore(log, seqs, i);
      if r.seqNo !in seqs {
        if r.op.Event? {
          RedactedIffBoth(log, E, redact, r);
        }
        if r.op.Event? && r.op.id in redact {
          kept, labels := kept + [r.(op := r.op.(text := ERASURE_NOTE))], labels + 1;
        } else {
          kept := kept + [r];
        }
      }
    }
    assert log[..|log|] == log;
  }

  lemma RelabelledNothing(log: Log, S: set<nat>)
    ensures Relabelled(log, S, log[..0]) == {} && Rewrite(log, S, log[..0]) == []
  {
  }

  lemma RelabelledOneMore(log: Log, S: set<nat>, i: nat)
    requires Keyed(log) && i < |log|
    ensures var r := log[i];
            |Relabelled(log, S, log[..i + 1])| == |Relabelled(log, S, log[..i])|
              + if r.op.Event? && r.seqNo !in S && Redacted(log, S, r.op.id) then 1 else 0
  {
    var r := log[i];
    assert forall q :: q in log[..i + 1] <==> q in log[..i] || q == r;
    assert r !in log[..i];
    var before, after := Relabelled(log, S, log[..i]), Relabelled(log, S, log[..i + 1]);
    if r.op.Event? && r.seqNo !in S && Redacted(log, S, r.op.id) {
      assert after == before + {r};
    } else {
      assert after == before;
    }
  }

  /** `apply_op` over what is left, stopping at the first op a fresh engine rejects. */
  method ScratchReplay(rows: Log) returns (ok: bool)
    ensures ok <==> Replays(rows)
  {
    for i := 0 to |rows|
      invariant ReplaysAfter(rows[..i], rows[i..]) <==> Replays(rows)
    {
      assert rows[i..][0] == rows[i] && rows[i..][1..] == rows[i + 1..] && rows[..i] + [rows[i]] == rows[..i + 1];
      if !Resolves(rows[..i], rows[i].op) {
        return false;
      }
    }
    return true;
  }

  /** The log a request to forget leaves, refusals included. */
  ghost function AfterForget(log: Log, entity: Id): Log {
    if Erased(log, {entity}) == {} || !Replays(Forgotten(log, {entity})) then log else Forgotten(log, {entity})
  }

  // ---------------------------------------------------------------- whole logs, whole runs

  /** No derivation, retraction or supersession names a coreference or a split. */
  ghost predicate NamesNoIdentity(log: Log) {
    forall r, q :: r in log && q in log && IsIdentityOp(q.op) ==>
      ToClaim(q.op.id) !in References(r.op) && ToNode(q.op.id) !in References(r.op)
  }

  lemma NothingErased(log: Log, rows: Log)
    ensures Rewrite(log, {}, rows) == rows
  {
  }

  /** On such logs what an erasure leaves replays and is such a log again: the scratch replay never refuses. */
  lemma NeverRefused(log: Log, entity: Id)
    requires Keyed(log) && Replays(log) && NamesNoIdentity(log)
    ensures Replays(Forgotten(log, {entity}))
    ensures AfterForget(log, entity) == Forgotten(log, {entity})
    ensures NamesNoIdentity(Forgotten(log, {entity})) && Keyed(Forgotten(log, {entity}))
  {
    var M := Erased(log, {entity});
    NothingErased(log, log);
    NamesNoIdentityAfter(log, M);
    KeyedAfter(log, M, log);
    hide Erased, Keyed, References, Redacted;
    assert log == [] + log;
    SurvivorsReplayAfter(log, {entity}, [], log);
  }

  lemma NamesNoIdentityAfter(log: Log, S: set<nat>)
    requires NamesNoIdentity(log)
    ensures NamesNoIdentity(Rewrite(log, S, log))
  {
    var left := Rewrite(log, S, log);
    RowsLeft(log, S);
    forall r | r in left
      ensures exists q :: q in log && References(q.op) == References(r.op)
      ensures IsIdentityOp(r.op) ==> r in log
    {
      RewriteHolds(log, S, log, r);
      var q :| q in log && r == Relabel(log, S, q);
      RelabelledOp(log, S, q);
    }
  }

  lemma RestKeyed(rows: Log)
    requires Keyed(rows) && rows != []
    ensures Keyed(rows[1..])
  {
    forall i, j | 0 <= i < |rows[1..]| && 0 <= j < |rows[1..]| && rows[1..][i].seqNo == rows[1..][j].seqNo
      ensures i == j
    {
      assert rows[i + 1].seqNo == rows[j + 1].seqNo;
    }
  }

  lemma {:induction false} KeyedAfter(log: Log, S: set<nat>, rows: Log)
    requires Keyed(rows)
    ensures Keyed(Rewrite(log, S, rows))
  {
    if rows != [] {
      RestKeyed(rows);
      KeyedAfter(log, S, rows[1..]);
      forall i | 0 <= i < |Rewrite(log, S, rows[1..])|
        ensures Rewrite(log, S, rows[1..])[i].seqNo != rows[0].seqNo
      {
        RewriteHolds(log, S, rows[1..], Rewrite(log, S, rows[1..])[i]);
        var q :| q in rows[1..] && Rewrite(log, S, rows[1..])[i] == Relabel(log, S, q);
        var k :| 0 <= k < |rows[1..]| && rows[1..][k] == q;
        assert rows[k + 1] == q;
      }
    }
  }

  /** What forgetting one of two, or both, leaves must come to for the order of the requests not to show. */
  ghost predicate OrderHidden(log: Log, e: Id, f: Id) {
    var a, b, both := Forgotten(log, {e}), Forgotten(log, {f}), Forgotten(log, {e, f});
    if Replays(a) && Replays(b) then Replays(both) || a == b
    else if Replays(a) then Replays(both) ==> both == a
    else if Replays(b) then Replays(both) ==> both == b
    else true
  }

  /** A request leaves a keyed log that replays: what it asks for, if that replays. */
  lemma AfterForgetReplays(log: Log, entity: Id)
    requires Keyed(log) && Replays(log)
    ensures AfterForget(log, entity) == if Replays(Forgotten(log, {entity})) then Forgotten(log, {entity}) else log
    ensures Keyed(AfterForget(log, entity)) && Replays(AfterForget(log, entity))
  {
    NothingErased(log, log);
    KeyedAfter(log, Erased(log, {entity}), log);
  }

  /** The second of two requests asks for both to be gone, if the first was granted. */
  lemma AfterForgetTwo(log: Log, e: Id, f: Id)
    requires Keyed(log) && Replays(log)
    ensures AfterForget(AfterForget(log, e), f) ==
              if !Replays(Forgotten(log, {e})) then AfterForget(log, f)
              else if Replays(Forgotten(log, {e, f})) then Forgotten(log, {e, f})
              else Forgotten(log, {e})
  {
    hide Forgotten, Replays, AfterForget, Keyed;
    AfterForgetReplays(log, e);
    AfterForgetReplays(AfterForget(log, e), f);
    ForgetTwo(log, {e}, {f});
    assert {e} + {f} == {e, f};
  }

  /** Two requests leave one log in either order, refusals read as no change, exactly then. */
  lemma OrderIsHiddenIff(log: Log, e: Id, f: Id)
    requires Keyed(log) && Replays(log)
    ensures AfterForget(AfterForget(log, e), f) == AfterForget(AfterForget(log, f), e) <==> OrderHidden(log, e, f)
  {
    hide Forgotten, Replays, AfterForget, Keyed;
    AfterForgetReplays(log, e);
    AfterForgetReplays(log, f);
    AfterForgetTwo(log, e, f);
    AfterForgetTwo(log, f, e);
    assert {f, e} == {e, f};
  }

  /** A repeated request leaves the log as the first did. */
  lemma ForgetAgain(log: Log, e: Id)
    requires Keyed(log) && Replays(log)
    ensures AfterForget(AfterForget(log, e), e) == AfterForget(log, e)
  {
    hide Forgotten, Replays, AfterForget, Keyed;
    AfterForgetReplays(log, e);
    AfterForgetTwo(log, e, e);
    assert {e, e} == {e};
  }

  /** In particular where no derivation, retraction or supersession names a coreference or a split. */
  lemma ForgetInAnyOrder(log: Log, e: Id, f: Id)
    requires Keyed(log) && Replays(log) && NamesNoIdentity(log)
    ensures AfterForget(AfterForget(log, e), f) == AfterForget(AfterForget(log, f), e) == Forgotten(log, {e, f})
    ensures AfterForget(AfterForget(log, e), e) == AfterForget(log, e)
  {
    hide Erased, Rewrite, Forgotten, Replays, NamesNoIdentity, Keyed, AfterForget;
    NeverRefused(log, e);
    NeverRefused(log, f);
    NeverRefused(Forgotten(log, {e}), f);
    ForgetTwo(log, {e}, {f});
    assert {e} + {f} == {e, f};
    OrderIsHiddenIff(log, e, f);
    ForgetAgain(log, e);
  }

  // ---------------------------------------------------------------- what a granted request leaves

  /** A row of the log no row of what is left stands for. */
  ghost predicate Gone(log: Log, left: Log, q: Row) {
    q in log && forall r :: r in left ==> r.seqNo != q.seqNo
  }

  /** A derivation that is gone quoted the event. */
  ghost predicate Quoted(log: Log, left: Log, event: Id) {
    exists d :: Gone(log, left, d) && Cites(d.op, event)
  }

  /**
   A granted request leaves every row that is not gone where it was: an event a gone derivation cites
   with the note for its words, any other row as it was. It adds nothing, and what is gone is exactly
   what is erased.
   */
  lemma GrantedRequest(log: Log, entity: Id)
    requires Keyed(log) && Erased(log, {entity}) != {} && Replays(Forgotten(log, {entity}))
    ensures var left := AfterForget(log, entity);
            && (forall q :: q in log ==> (Gone(log, left, q) <==> q.seqNo in Erased(log, {entity})))
            && (forall q :: q in log && !Gone(log, left, q) ==>
                 if q.op.Event? && Quoted(log, left, q.op.id)
                 then Row(q.seqNo, Event(q.op.id, "[erased on request]")) in left
                 else q in left)
            && |left| == |log| - |Erased(log, {entity})| && InLogOrder(left, log)
            && Relabelled(log, Erased(log, {entity}), log) ==
                 set q | q in log && q.op.Event? && !Gone(log, left, q) && Quoted(log, left, q.op.id)
  {
    var M := Erased(log, {entity});
    ErasedAreRows(log, {entity});
    assert AfterForget(log, entity) == Rewrite(log, M, log);
    hide *;
    RewriteInLogOrder(log, M, log);
    RewriteCounts(log, M, log);
    assert M * SeqNos(log) == M;
    GoneIsErased(log, M);
    QuotedIsRedacted(log, M);
    RowsStand(log, M);
    RelabelledAre(log, M);
  }

  lemma RowsStand(log: Log, S: set<nat>)
    requires forall event :: Quoted(log, Rewrite(log, S, log), event) <==> Redacted(log, S, event)
    ensures var left := Rewrite(log, S, log);
            forall q :: q in log && q.seqNo !in S ==>
              if q.op.Event? && Quoted(log, left, q.op.id)
              then Row(q.seqNo, Event(q.op.id, "[erased on request]")) in left
              else q in left
  {
    RowsLeft(log, S);
    var left := Rewrite(log, S, log);
    hide Rewrite, Redacted, Quoted;
    forall q | q in log && q.seqNo !in S
      ensures if q.op.Event? && Quoted(log, left, q.op.id) then Row(q.seqNo, Event(q.op.id, "[erased on request]")) in left else q in left
    {
      assert Relabel(log, S, q) in left;
    }
  }

  lemma RelabelledAre(log: Log, S: set<nat>)
    requires var left := Rewrite(log, S, log);
             && (forall q :: q in log ==> (Gone(log, left, q) <==> q.seqNo in S))
             && (forall event :: Quoted(log, left, event) <==> Redacted(log, S, event))
    ensures var left := Rewrite(log, S, log);
            Relabelled(log, S, log) == set q | q in log && q.op.Event? && !Gone(log, left, q) && Quoted(log, left, q.op.id)
  {
    hide Rewrite, Redacted, Quoted, Gone;
  }

  lemma GoneIsErased(log: Log, S: set<nat>)
    requires Keyed(log)
    ensures forall q :: q in log ==> (Gone(log, Rewrite(log, S, log), q) <==> q.seqNo in S)
  {
    RowsLeft(log, S);
    hide Rewrite;
    forall q | q in log
      ensures Gone(log, Rewrite(log, S, log), q) <==> q.seqNo in S
    {
      if q.seqNo !in S {
        assert Relabel(log, S, q) in Rewrite(log, S, log) && Relabel(log, S, q).seqNo == q.seqNo;
      }
    }
  }

  lemma QuotedIsRedacted(log: Log, S: set<nat>)
    requires forall q :: q in log ==> (Gone(log, Rewrite(log, S, log), q) <==> q.seqNo in S)
    ensures forall event :: Quoted(log, Rewrite(log, S, log), event) <==> Redacted(log, S, event)
  {
    hide Rewrite, Cites;
    var left := Rewrite(log, S, log);
    forall event
      ensures Quoted(log, left, event) <==> Redacted(log, S, event)
    {
      if d :| d in log && Cites(d.op, event) && d.seqNo in S {
        assert Gone(log, left, d);
      }
    }
  }

  /** The rows of one log are named in another, in the order they have there. */
  ghost predicate InLogOrder(left: Log, log: Log) {
    forall i, j :: 0 <= i < j < |left| ==> StandInOrder(log, left[i].seqNo, left[j].seqNo)
  }

  ghost predicate StandInOrder(log: Log, m: nat, n: nat) {
    exists i, j :: 0 <= i < j < |log| && log[i].seqNo == m && log[j].seqNo == n
  }

  lemma LaterStands(rows: Log, m: nat, n: nat)
    requires rows != [] && StandInOrder(rows[1..], m, n)
    ensures StandInOrder(rows, m, n)
  {
    var i, j :| 0 <= i < j < |rows[1..]| && rows[1..][i].seqNo == m && rows[1..][j].seqNo == n;
    assert rows[i + 1].seqNo == m && rows[j + 1].seqNo == n;
  }

  lemma FirstStands(log: Log, S: set<nat>, rows: Log, r: Row)
    requires rows != [] && r in Rewrite(log, S, rows[1..])
    ensures StandInOrder(rows, rows[0].seqNo, r.seqNo)
  {
    RewriteHolds(log, S, rows[1..], r);
    hide Rewrite, Redacted;
    var q :| q in rows[1..] && r == Relabel(log, S, q);
    RelabelledOp(log, S, q);
    var k :| 0 <= k < |rows[1..]| && rows[1..][k] == q;
    assert rows[k + 1] == q;
  }

  lemma {:induction false} RewriteInLogOrder(log: Log, S: set<nat>, rows: Log)
    ensures InLogOrder(Rewrite(log, S, rows), rows)
  {
    hide StandInOrder, Redacted;
    if rows != [] {
      var rest := Rewrite(log, S, rows[1..]);
      RewriteInLogOrder(log, S, rows[1..]);
      forall m, n | StandInOrder(rows[1..], m, n) {
        LaterStands(rows, m, n);
      }
      forall j | 0 <= j < |rest| {
        FirstStands(log, S, rows, rest[j]);
      }
      FollowsOnes(rows, rows[0].seqNo in S, Relabel(log, S, rows[0]), rest);
    }
  }

  lemma FollowsOnes(rows: Log, without: bool, first: Row, rest: Log)
    requires forall i, j :: 0 <= i < j < |rest| ==> StandInOrder(rows, rest[i].seqNo, rest[j].seqNo)
    requires forall j :: 0 <= j < |rest| ==> StandInOrder(rows, first.seqNo, rest[j].seqNo)
    ensures InLogOrder((if without then [] else [first]) + rest, rows)
  {
    hide StandInOrder;
  }

  lemma ErasedAreRows(log: Log, E: set<Id>)
    ensures Erased(log, E) <= SeqNos(log)
  {
  }

  lemma {:induction false} RewriteCounts(log: Log, S: set<nat>, rows: Log)
    requires Keyed(rows)
    ensures |Rewrite(log, S, rows)| == |rows| - |S * SeqNos(rows)|
  {
    hide Keyed, SeqNos, Relabel;
    if rows == [] {
      NoSeqNos();
      assert S * SeqNos(rows) == {};
    } else {
      RestKeyed(rows);
      RewriteCounts(log, S, rows[1..]);
      NewSeqNo(rows);
      var here := if rows[0].seqNo in S then {rows[0].seqNo} else {};
      assert S * SeqNos(rows) == here + S * SeqNos(rows[1..]);
    }
  }

  lemma NoSeqNos()
    ensures SeqNos([]) == {}
  {
  }

  lemma NewSeqNo(rows: Log)
    requires Keyed(rows) && rows != []
    ensures rows[0].seqNo !in SeqNos(rows[1..]) && SeqNos(rows) == {rows[0].seqNo} + SeqNos(rows[1..])
  {
    forall r | r in rows[1..]
      ensures r.seqNo != rows[0].seqNo
    {
      var i :| 0 <= i < |rows[1..]| && rows[1..][i] == r;
      assert rows[i + 1] == r;
    }
    assert forall r :: r in rows <==> r == rows[0] || r in rows[1..];
  }

  // ---------------------------------------------------------------- a refusal, and an order that shows

  lemma {:induction false} ReplaysByPosition(log: Log, i: nat)
    requires i <= |log| && forall k :: i <= k < |log| ==> Resolves(log[..k], log[k].op)
    ensures ReplaysAfter(log[..i], log[i..])
    decreases |log| - i
  {
    if i < |log| {
      ReplaysByPosition(log, i + 1);
      assert log[..i] + [log[i]] == log[..i + 1] && log[i..][1..] == log[i + 1..];
    }
  }

  const COREFERENCE_SUPERSEDED: Log := [
    Row(1, Entity("ann")), Row(2, Entity("bob")), Row(3, Agent("crm")),
    Row(4, Corefer("same", "ann", "bob", "crm")),
    Row(5, Supersede("new", "crm", ["bob"], "separate", ["same"]))
  ]

  lemma SupersededReplays()
    ensures Replays(COREFERENCE_SUPERSEDED)
  {
    var log := COREFERENCE_SUPERSEDED;
    assert log[..4] == [log[0], log[1], log[2], log[3]];
    assert log[..3] == [log[0], log[1], log[2]];
    forall i | 0 <= i < 5
      ensures Resolves(log[..i], log[i].op)
    {
      if i >= 3 {
        assert log[0] in log[..i] && log[1] in log[..i] && log[2] in log[..i];
        assert i == 4 ==> log[3] in log[..i];
      }
    }
    ReplaysByPosition(log, 0);
  }

  lemma DistinctInExample()
    ensures DistinctIds(COREFERENCE_SUPERSEDED)
  {
    forall p, q, id | p in COREFERENCE_SUPERSEDED && q in COREFERENCE_SUPERSEDED
                      && Provides(p.op, ToNode(id)) && Provides(q.op, ToNode(id))
      ensures p == q
    {
      assert p.op.Corefer? || p.op.Supersede?;
      assert q.op.Corefer? || q.op.Supersede?;
    }
  }

  lemma NoClaimIsNamed(S: set<nat>)
    ensures "same" !in Claims(COREFERENCE_SUPERSEDED, S)
  {
    forall r | r in COREFERENCE_SUPERSEDED && IsClaim(r.op)
      ensures r.op.id == "new"
    {
    }
  }

  /** Nothing in the example is forced out by a rule. */
  lemma NothingForced(E: set<Id>, S: set<nat>, r: Row)
    requires r in COREFERENCE_SUPERSEDED
    ensures !Forced(COREFERENCE_SUPERSEDED, E, S, r.op)
  {
    hide Claims;
    NoClaimIsNamed(S);
    assert r.op.Supersede? ==> r.op.olds == ["same"];
  }

  /** What goes is what names the person. */
  lemma OnlyDirectGo(E: set<Id>, S: set<nat>)
    requires S == set r | r in COREFERENCE_SUPERSEDED && Direct(E, r.op) :: r.seqNo
    ensures Erased(COREFERENCE_SUPERSEDED, E) == S
  {
    hide Direct, Forced, Erased;
    var log := COREFERENCE_SUPERSEDED;
    ErasedIsLeast(log, E);
    forall r | r in log {
      NothingForced(E, S, r);
    }
    assert Closed(log, E, S);
  }

  lemma DirectInExample(E: set<Id>)
    ensures (set r | r in COREFERENCE_SUPERSEDED && Direct(E, r.op) :: r.seqNo) ==
              (if "ann" in E then {1, 4} else {}) + (if "bob" in E then {2, 4, 5} else {})
  {
    var log := COREFERENCE_SUPERSEDED;
    assert log[0] in log && log[1] in log && log[2] in log && log[3] in log && log[4] in log;
    assert log[4].op.subjects == ["bob"] && "bob" in log[4].op.subjects;
  }

  lemma ErasedInExample()
    ensures Erased(COREFERENCE_SUPERSEDED, {"ann"}) == {1, 4}
    ensures Erased(COREFERENCE_SUPERSEDED, {"bob"}) == {2, 4, 5}
    ensures Erased(COREFERENCE_SUPERSEDED, {"ann", "bob"}) == {1, 2, 4, 5}
  {
    hide Erased, Direct;
    forall E
      ensures Erased(COREFERENCE_SUPERSEDED, E) == (if "ann" in E then {1, 4} else {}) + (if "bob" in E then {2, 4, 5} else {})
    {
      DirectInExample(E);
      OnlyDirectGo(E, set r | r in COREFERENCE_SUPERSEDED && Direct(E, r.op) :: r.seqNo);
    }
  }

  /** A log that replays, where forgetting ann is refused: the belief about bob would revise nothing. */
  lemma SupersededCoreferenceRefuses()
    ensures Replays(COREFERENCE_SUPERSEDED)
    ensures Erased(COREFERENCE_SUPERSEDED, {"ann"}) != {}
    ensures !Replays(Forgotten(COREFERENCE_SUPERSEDED, {"ann"}))
  {
    var log, E := COREFERENCE_SUPERSEDED, {"ann"};
    SupersededReplays();
    ErasedInExample();
    DistinctInExample();
    hide Erased, Replays, DistinctIds;
    assert log[3] in log && log[4] in log;
    assert NamesRemovedIdentity(log, Erased(log, E), log[4], log[3]);
    IdentityLeftDangling(log, E, log[4], log[3]);
  }

  lemma RewriteNext(log: Log, S: set<nat>, r: Row, rows: Log)
    requires !r.op.Event?
    ensures Rewrite(log, S, [r] + rows) == (if r.seqNo in S then [] else [r]) + Rewrite(log, S, rows)
  {
    assert ([r] + rows)[1..] == rows;
  }

  /** What is left of the example, row by row. */
  lemma LeftInExample(S: set<nat>)
    ensures var log := COREFERENCE_SUPERSEDED;
            Rewrite(log, S, log) ==
              (if 1 in S then [] else [log[0]]) + ((if 2 in S then [] else [log[1]]) + ((if 3 in S then [] else [log[2]])
              + ((if 4 in S then [] else [log[3]]) + if 5 in S then [] else [log[4]])))
  {
    var log := COREFERENCE_SUPERSEDED;
    assert log == [log[0]] + ([log[1]] + ([log[2]] + ([log[3]] + ([log[4]] + []))));
    RewriteNext(log, S, log[4], []);
    RewriteNext(log, S, log[3], [log[4]] + []);
    RewriteNext(log, S, log[2], [log[3]] + ([log[4]] + []));
    RewriteNext(log, S, log[1], [log[2]] + ([log[3]] + ([log[4]] + [])));
    RewriteNext(log, S, log[0], [log[1]] + ([log[2]] + ([log[3]] + ([log[4]] + []))));
  }

  lemma ForgottenInExample()
    ensures Forgotten(COREFERENCE_SUPERSEDED, {"bob"}) == [Row(1, Entity("ann")), Row(3, Agent("crm"))]
    ensures Forgotten(COREFERENCE_SUPERSEDED, {"ann", "bob"}) == [Row(3, Agent("crm"))]
  {
    hide Erased, Rewrite;
    ErasedInExample();
    LeftInExample({2, 4, 5});
    LeftInExample({1, 2, 4, 5});
  }

  lemma NamesNothing(log: Log)
    requires forall i :: 0 <= i < |log| ==> References(log[i].op) == {}
    ensures Replays(log)
  {
    ReplaysByPosition(log, 0);
  }

  lemma LeftReplays()
    ensures Keyed(COREFERENCE_SUPERSEDED) && Replays(COREFERENCE_SUPERSEDED) && !Replays(Forgotten(COREFERENCE_SUPERSEDED, {"ann"}))
    ensures Replays([Row(1, Entity("ann")), Row(3, Agent("crm"))]) && Replays([Row(3, Agent("crm"))])
  {
    hide Replays, Forgotten;
    SupersededCoreferenceRefuses();
    NamesNothing([Row(1, Entity("ann")), Row(3, Agent("crm"))]);
    NamesNothing([Row(3, Agent("crm"))]);
  }

  /** There the order of two requests shows: asked for first, ann stays on record; asked for second, she goes. */
  lemma OrderCanShow()
    ensures AfterForget(AfterForget(COREFERENCE_SUPERSEDED, "ann"), "bob") == [Row(1, Entity("ann")), Row(3, Agent("crm"))]
    ensures AfterForget(AfterForget(COREFERENCE_SUPERSEDED, "bob"), "ann") == [Row(3, Agent("crm"))]
  {
    hide *;
    ForgottenInExample();
    LeftReplays();
    TwoOrders(COREFERENCE_SUPERSEDED, "ann", "bob");
  }

  /** The first request refused, the second granted, and then the first. */
  lemma TwoOrders(log: Log, e: Id, f: Id)
    requires Keyed(log) && Replays(log)
    requires !Replays(Forgotten(log, {e})) && Replays(Forgotten(log, {f})) && Replays(Forgotten(log, {e, f}))
    ensures AfterForget(AfterForget(log, e), f) == Forgotten(log, {f})
    ensures AfterForget(AfterForget(log, f), e) == Forgotten(log, {e, f})
  {
    hide *;
    AfterForgetReplays(log, f);
    AfterForgetTwo(log, e, f);
    AfterForgetTwo(log, f, e);
    assert {f, e} == {e, f};
  }

  class Project {
    var log: Log

    constructor (rows: Log)
      ensures log == rows
    {
      log := rows;
    }

    /**
     Both refusals leave the log as it was. Otherwise the log is exactly what the least closed set
     leaves of it, and it replays.
     */
    method Forget(entity: Id) returns (report: Result<Report, Refusal>)
      requires Keyed(log)
      modifies this
      ensures Erased(old(log), {entity}) == {} ==> report == Err(NothingOnRecord)
      ensures Erased(old(log), {entity}) != {} && !Replays(Forgotten(old(log), {entity})) ==> report == Err(WouldBreakReplay)
      ensures Erased(old(log), {entity}) != {} && Replays(Forgotten(old(log), {entity})) ==> report.Ok?
      ensures log == AfterForget(old(log), entity)
      ensures report.Ok? ==>
                && report.value.ops == |Erased(old(log), {entity})|
                && report.value.eventLabels == |Relabelled(old(log), Erased(old(log), {entity}), old(log))|
    {
      var seqs, redact := FindErased(log, entity);
      if seqs == {} && redact == {} {
        return Err(NothingOnRecord);
      }
      assert seqs != {};
      var kept, labels := Prune(log, {entity}, seqs, redact);
      var ok := ScratchReplay(kept);
      if !ok {
        return Err(WouldBreakReplay);
      }
      log := kept;
      return Ok(Report(|seqs|, labels));
    }
  }
}
