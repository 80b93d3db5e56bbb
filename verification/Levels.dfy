/** What each level asks of a record, said of the lines as they were written. */
module Levels {
  import opened Wrappers
  import opened Hashing
  import opened Json
  import opened TestimonyRecord
  import opened Assurance
  import Calendar
  import Utf8

  // There is no id map here, no line numbers and no list of checks. A record has a level exactly when it
  // has the one below and this holds besides.

  // ---------------------------------------------------------------- what Python makes of a value

  lemma FalsyAre(v: Option<Value>)
    ensures !Truthy(v) <==> v in {None, Some(Null), Some(Bool(false)), Some(Int(0)), Some(Str("")), Some(Arr([])), Some(Obj([]))}
  {
  }

  /** As dict keys two values are one only when they are equal, or one is a truth value and the other its number. */
  lemma OneKeyIff(a: Value, b: Value)
    ensures SameKey(Some(a), Some(b)) <==>
              a == b || (a, b) in {(Bool(true), Int(1)), (Int(1), Bool(true)), (Bool(false), Int(0)), (Int(0), Bool(false))}
  {
  }

  // ---------------------------------------------------------------- the four, on the lines written

  /** TR-1: no id is used twice, and every line has a write time that is none before an earlier line's. */
  ghost predicate LinesStand(raw: seq<Entry>) {
    && (forall i, j :: 0 <= i < j < |raw| && Field(raw[i], "id").Some? && Field(raw[j], "id").Some? ==>
          !SameKey(Field(raw[i], "id"), Field(raw[j], "id")))
    && (forall i :: 0 <= i < |raw| ==> Field(raw[i], "at") == Some(Str(AtOf(raw[i]))) && Calendar.Read(AtOf(raw[i])).Some?)
    && (forall i, j :: 0 <= i < j < |raw| ==> !Before(AtOf(raw[j]), AtOf(raw[i])))
  }

  /** An entry of the given type stands under the id. */
  ghost predicate Stands(raw: seq<Entry>, id: Value, kind: string) {
    !id.Arr? && !id.Obj? && exists j :: 0 <= j < |raw| && Bears(raw[j], id, kind)
  }

  /** TR-2: what a belief cites is there, as evidence, and what a conflict is between, as beliefs. */
  ghost predicate ReferencesStand(raw: seq<Entry>, e: Entry) {
    && (Field(e, "type") == Some(Str("belief")) ==>
          && Field(e, "evidence").Some?
          && forall id :: id in Each(Field(e, "evidence")) ==> Stands(raw, id, "evidence"))
    && (Field(e, "type") == Some(Str("conflict")) ==>
          && |Each(Field(e, "sides"))| >= 2
          && forall id :: id in Each(Field(e, "sides")) ==> Stands(raw, id, "belief"))
  }

  /** Whether the system acts: a record that does not say comes from one that does. */
  ghost predicate Acts(raw: seq<Entry>) {
    forall k :: 0 <= k < |raw| && Field(raw[k], "type") == Some(Str("scope"))
                && (forall j :: 0 <= j < k ==> Field(raw[j], "type") != Some(Str("scope"))) ==>
      Truthy(Field(raw[k], "acts"))
  }

  /** TR-3 of a decision: executed at high risk, it names an approval in the record that names it. */
  ghost predicate ApprovalStands(raw: seq<Entry>, d: Entry) {
    Field(d, "type") == Some(Str("decision")) && Field(d, "risk_class") == Some(Str("high")) && Field(d, "executed") == Some(Bool(true)) ==>
      var id := OrEmpty(Field(d, "approval"));
      !id.Arr? && !id.Obj? && exists j :: 0 <= j < |raw| && Bears(raw[j], id, "approval") && SameKey(Field(raw[j], "decision"), Field(d, "id"))
  }

  /** `d` was not proposed by whoever `who` is. */
  ghost predicate ProposedByAnother(d: Entry, who: Value) {
    Truthy(Field(d, "proposed_by")) ==>
      var whose := Field(d, "proposed_by").value;
      whose.Obj? && !(Truthy(Field(whose, "id")) && SameKey(Field(whose, "id"), Field(who, "id")))
  }

  /** Something is there, and not white space alone. */
  ghost predicate SaysWho(v: Option<Value>) {
    v !in {None, Some(Null), Some(Bool(false)), Some(Int(0)), Some(Str("")), Some(Arr([])), Some(Obj([]))}
    && forall t :: v == Some(Str(t)) ==> exists i :: 0 <= i < |t| && !Space(t[i])
  }

  lemma SaysWhoIff(v: Option<Value>)
    ensures SaysWho(v) <==> NotBlank(v)
  {
    FalsyAre(v);
    hide Truthy, Space;
  }

  /** TR-3 of an approval: it is a named person's, of a decision in the record that another proposed. */
  ghost predicate ApproverStands(raw: seq<Entry>, a: Entry) {
    Field(a, "type") == Some(Str("approval")) ==>
      var who, id := Field(a, "approver"), OrEmpty(Field(a, "decision"));
      && Truthy(who) && Field(who.value, "kind") == Some(Str("human")) && SaysWho(Field(who.value, "id"))
      && !id.Arr? && !id.Obj? && exists j :: 0 <= j < |raw| && Bears(raw[j], id, "decision") && ProposedByAnother(raw[j], who.value)
  }

  /** What stands under each id, in their order. */
  ghost predicate StandUnder(raw: seq<Entry>, ids: seq<Value>, covered: seq<Entry>) {
    |covered| == |ids| && forall n :: 0 <= n < |ids| ==> StandsThere(raw, ids[n], covered[n])
  }

  ghost predicate StandsThere(raw: seq<Entry>, id: Value, e: Entry) {
    !id.Arr? && !id.Obj? && exists j :: HoldsUnder(raw, id, j) && raw[j] == e
  }

  /** TR-4: the entries an integrity entry says it covers are there, and its digest is theirs. */
  ghost predicate SealStands(sha: Hash, raw: seq<Entry>, g: Entry) {
    Field(g, "type") == Some(Str("integrity")) ==>
      var ids := Each(Field(g, "covers"));
      ids != [] && exists covered :: StandUnder(raw, ids, covered) && DigestIs(sha, Field(g, "digest"), Message(covered))
  }

  /** The member is the digest of the message, which could be written. */
  ghost predicate DigestIs(sha: Hash, digest: Option<Value>, message: Result<bytes, NotPortable>) {
    message.Ok? && digest == Some(Str("sha256:" + Hex(sha(message.value))))
  }

  // ---------------------------------------------------------------- the ladder

  lemma PassesSplit(a: seq<Check>, b: seq<Check>, level: Level)
    ensures Passes(a + b, level) <==> Passes(a, level) && Passes(b, level)
  {
    assert forall c :: c in a + b <==> c in a || c in b;
  }

  lemma PassesThree(level: Level, at: Level, x: bool, y: bool, z: bool)
    ensures Passes([Check(at, x), Check(at, y), Check(at, z)], level) <==> level != at || (x && y && z)
  {
    var cs := [Check(at, x), Check(at, y), Check(at, z)];
    assert cs[0] in cs && cs[1] in cs && cs[2] in cs;
  }

  lemma PassesTwo(level: Level, at: Level, x: bool, y: bool)
    ensures Passes([Check(at, x), Check(at, y)], level) <==> level != at || (x && y)
  {
    var cs := [Check(at, x), Check(at, y)];
    assert cs[0] in cs && cs[1] in cs;
  }

  lemma EachLevel(sha: Hash, raw: seq<Entry>, others: seq<Check>)
    ensures var n, entries := LevelOf(sha, raw, others), Annotated(raw);
            var byId := ById(entries);
            && (n >= 1 <==> Passes(others, TR1) && UniqueIds(entries) && All(entries, e => Dated(e)) && InTimeOrder(entries))
            && (n >= 2 <==> n >= 1 && Passes(others, TR2) && All(entries, e => StatesEvidence(e))
                            && All(entries, e => Cited(byId, e)) && All(entries, e => SidesRetained(byId, e)))
            && (n >= 3 <==> n >= 2 && Passes(others, TR3) && ShowsAGate(entries)
                            && All(entries, e => Approved(byId, e)) && All(entries, e => NamesAPerson(byId, e)))
            && (n >= 4 <==> n >= 3 && Passes(others, TR4) && All(entries, e => Covers(byId, e))
                            && All(entries, e => DigestMatches(sha, byId, e)))
  {
    var entries := Annotated(raw);
    var byId := ById(entries);
    hide Annotated, ById, UniqueIds, All, InTimeOrder, ShowsAGate, Passes;
    forall level
      ensures Passes(Checks(sha, raw, others), level) <==>
                && Passes(others, level)
                && (level == TR1 ==> UniqueIds(entries) && All(entries, e => Dated(e)) && InTimeOrder(entries))
                && (level == TR2 ==> All(entries, e => StatesEvidence(e)) && All(entries, e => Cited(byId, e)) && All(entries, e => SidesRetained(byId, e)))
                && (level == TR3 ==> ShowsAGate(entries) && All(entries, e => Approved(byId, e)) && All(entries, e => NamesAPerson(byId, e)))
                && (level == TR4 ==> All(entries, e => Covers(byId, e)) && All(entries, e => DigestMatches(sha, byId, e)))
    {
      Split(sha, raw, others, level);
    }
  }

  lemma Split(sha: Hash, raw: seq<Entry>, others: seq<Check>, level: Level)
    ensures var entries := Annotated(raw);
            var byId := ById(entries);
            Passes(Checks(sha, raw, others), level) <==>
              && Passes(others, level)
              && (level == TR1 ==> UniqueIds(entries) && All(entries, e => Dated(e)) && InTimeOrder(entries))
              && (level == TR2 ==> All(entries, e => StatesEvidence(e)) && All(entries, e => Cited(byId, e)) && All(entries, e => SidesRetained(byId, e)))
              && (level == TR3 ==> ShowsAGate(entries) && All(entries, e => Approved(byId, e)) && All(entries, e => NamesAPerson(byId, e)))
              && (level == TR4 ==> All(entries, e => Covers(byId, e)) && All(entries, e => DigestMatches(sha, byId, e)))
  {
    var entries := Annotated(raw);
    var byId := ById(entries);
    hide Annotated, ById, UniqueIds, All, InTimeOrder, ShowsAGate, Passes;
    var lines, refs, acts, seal := LineChecks(entries), ReferenceChecks(entries), ActionChecks(entries), IntegrityChecks(sha, entries);
    PassesSplit(others + (lines + refs) + acts, seal, level);
    PassesSplit(others + (lines + refs), acts, level);
    PassesSplit(others, lines + refs, level);
    PassesSplit(lines, refs, level);
    PassesThree(level, TR1, UniqueIds(entries), All(entries, e => Dated(e)), InTimeOrder(entries));
    PassesThree(level, TR2, All(entries, e => StatesEvidence(e)), All(entries, e => Cited(byId, e)), All(entries, e => SidesRetained(byId, e)));
    PassesThree(level, TR3, ShowsAGate(entries), All(entries, e => Approved(byId, e)), All(entries, e => NamesAPerson(byId, e)));
    PassesTwo(level, TR4, All(entries, e => Covers(byId, e)), All(entries, e => DigestMatches(sha, byId, e)));
  }

  // ---------------------------------------------------------------- TR-1

  lemma UniqueIff(raw: seq<Entry>)
    ensures UniqueIds(Annotated(raw)) <==>
              forall i, j :: 0 <= i < j < |raw| && Field(raw[i], "id").Some? && Field(raw[j], "id").Some? ==>
                !SameKey(Field(raw[i], "id"), Field(raw[j], "id"))
  {
    var entries := Annotated(raw);
    AnnotatedAt(raw);
    forall i | 0 <= i < |raw|
      ensures Field(entries[i], "id") == Field(raw[i], "id")
    {
      FieldAnnotated(raw[i], i + 1, "id");
    }
    hide Annotated, Field, SameKey;
  }

  lemma DatedIff(raw: seq<Entry>)
    ensures All(Annotated(raw), e => Dated(e)) <==>
              forall i :: 0 <= i < |raw| ==> Field(raw[i], "at") == Some(Str(AtOf(raw[i]))) && Calendar.Read(AtOf(raw[i])).Some?
  {
    AnnotatedAt(raw);
    forall i | 0 <= i < |raw|
      ensures Field(Annotated(raw)[i], "at") == Field(raw[i], "at")
    {
      FieldAnnotated(raw[i], i + 1, "at");
    }
    hide Annotated, Field, Calendar.Read;
  }

  lemma OrderIff(raw: seq<Entry>)
    requires forall i :: 0 <= i < |raw| ==> Field(raw[i], "at") == Some(Str(AtOf(raw[i])))
    ensures InTimeOrder(Annotated(raw)) <==> forall i, j :: 0 <= i < j < |raw| ==> !Before(AtOf(raw[j]), AtOf(raw[i]))
  {
    var ats := seq(|raw|, n requires 0 <= n < |raw| => AtOf(raw[n]));
    AnnotatedAt(raw);
    forall i | 0 <= i < |raw|
      ensures Field(Annotated(raw)[i], "at") == Some(Str(ats[i]))
    {
      FieldAnnotated(raw[i], i + 1, "at");
    }
    hide Annotated, Field, AtOf, Before;
    TimesAre(Annotated(raw), ats);
    if InTimeOrder(Annotated(raw)) {
      forall i, j | 0 <= i < j < |raw|
        ensures AtOrBefore(ats[i], ats[j])
      {
        StepsInOrder(ats, i, j);
      }
    }
    assert forall i, j :: 0 <= i < j < |raw| ==> (AtOrBefore(ats[i], ats[j]) <==> !Before(AtOf(raw[j]), AtOf(raw[i])));
    assert forall n :: 0 <= n < |ats| - 1 ==> (AtOrBefore(ats[n], ats[n + 1]) <==> !Before(AtOf(raw[n + 1]), AtOf(raw[n])));
  }

  // ---------------------------------------------------------------- TR-2

  lemma ResolvesIff(raw: seq<Entry>, id: Value, kind: string)
    requires UniqueIds(Annotated(raw))
    ensures Resolves(ById(Annotated(raw)), id, kind) <==> Stands(raw, id, kind)
  {
    if Resolves(ById(Annotated(raw)), id, kind) {
      var j := ResolvedIsThere(raw, id, kind);
    }
    forall j | 0 <= j < |raw| && Hashable(id) && Bears(raw[j], id, kind)
      ensures Resolves(ById(Annotated(raw)), id, kind) && ById(Annotated(raw))[Key(id)] == Annotate(raw[j], j + 1)
    {
      BornIsFound(raw, id, kind, j);
    }
  }

  lemma BornIsFound(raw: seq<Entry>, id: Value, kind: string, j: nat)
    requires UniqueIds(Annotated(raw)) && j < |raw| && Hashable(id) && Bears(raw[j], id, kind)
    ensures Resolves(ById(Annotated(raw)), id, kind) && ById(Annotated(raw))[Key(id)] == Annotate(raw[j], j + 1)
  {
    AnnotatedAt(raw);
    FieldAnnotated(raw[j], j + 1, "id");
    FieldAnnotated(raw[j], j + 1, "type");
    hide Annotated, Annotate, ById, UniqueIds, Lookup;
    ByIdFinds(Annotated(raw), j);
  }

  lemma ReferencesIff(raw: seq<Entry>, k: nat)
    requires UniqueIds(Annotated(raw)) && k < |raw|
    ensures var byId, e := ById(Annotated(raw)), Annotated(raw)[k];
            StatesEvidence(e) && Cited(byId, e) && SidesRetained(byId, e) <==> ReferencesStand(raw, raw[k])
  {
    AnnotatedAt(raw);
    FieldAnnotated(raw[k], k + 1, "type");
    FieldAnnotated(raw[k], k + 1, "evidence");
    FieldAnnotated(raw[k], k + 1, "sides");
    forall id, kind
      ensures Resolves(ById(Annotated(raw)), id, kind) <==> Stands(raw, id, kind)
    {
      ResolvesIff(raw, id, kind);
    }
    hide Annotated, ById, UniqueIds, Field, Each, Resolves, Stands;
  }

  // ---------------------------------------------------------------- TR-3

  lemma {:induction false} FirstOfType(entries: seq<Entry>, kind: string)
    ensures OfType(entries, kind) == [] <==> forall k :: 0 <= k < |entries| ==> !Is(entries[k], "type", kind)
    ensures OfType(entries, kind) != [] ==>
              exists k :: 0 <= k < |entries| && Is(entries[k], "type", kind) && OfType(entries, kind)[0] == entries[k]
                          && forall j :: 0 <= j < k ==> !Is(entries[j], "type", kind)
  {
    hide Is;
    if entries != [] {
      var rest := entries[1..];
      FirstOfType(rest, kind);
      assert forall k :: 1 <= k < |entries| ==> entries[k] == rest[k - 1];
      if !Is(entries[0], "type", kind) && OfType(rest, kind) != [] {
        var k :| 0 <= k < |rest| && Is(rest[k], "type", kind) && OfType(rest, kind)[0] == rest[k]
                 && forall j :: 0 <= j < k ==> !Is(rest[j], "type", kind);
        assert rest[k] == entries[k + 1];
        assert forall j :: 0 < j < k + 1 ==> entries[j] == rest[j - 1];
      }
    }
  }

  lemma TypesAnnotated(raw: seq<Entry>)
    ensures |Annotated(raw)| == |raw|
    ensures forall k :: 0 <= k < |raw| ==> Field(Annotated(raw)[k], "type") == Field(raw[k], "type")
    ensures forall k :: 0 <= k < |raw| ==> Field(Annotated(raw)[k], "acts") == Field(raw[k], "acts")
  {
    AnnotatedAt(raw);
    forall k | 0 <= k < |raw|
      ensures Field(Annotated(raw)[k], "type") == Field(raw[k], "type") && Field(Annotated(raw)[k], "acts") == Field(raw[k], "acts")
    {
      FieldAnnotated(raw[k], k + 1, "type");
      FieldAnnotated(raw[k], k + 1, "acts");
    }
  }

  lemma GateIff(raw: seq<Entry>)
    ensures ShowsAGate(Annotated(raw)) <==>
              (Acts(raw) ==> exists k :: 0 <= k < |raw| && Field(raw[k], "type") == Some(Str("decision")))
  {
    var entries := Annotated(raw);
    TypesAnnotated(raw);
    FirstOfType(entries, "scope");
    FirstOfType(entries, "decision");
    hide Annotated, Field, OfType, Truthy;
    assert forall k, kind :: 0 <= k < |raw| ==> (Is(entries[k], "type", kind) <==> Field(raw[k], "type") == Some(Str(kind)));
  }

  lemma FoundIs(raw: seq<Entry>, id: Value, kind: string, j: nat, name: string)
    requires UniqueIds(Annotated(raw)) && j < |raw| && Hashable(id) && Bears(raw[j], id, kind) && name != "_line"
    ensures Resolves(ById(Annotated(raw)), id, kind) && Field(ById(Annotated(raw))[Key(id)], name) == Field(raw[j], name)
  {
    BornIsFound(raw, id, kind, j);
    FieldAnnotated(raw[j], j + 1, name);
  }

  lemma ApprovalIff(raw: seq<Entry>, k: nat)
    requires UniqueIds(Annotated(raw)) && k < |raw|
    ensures Approved(ById(Annotated(raw)), Annotated(raw)[k]) <==> ApprovalStands(raw, raw[k])
  {
    var id := OrEmpty(Field(raw[k], "approval"));
    AnnotatedAt(raw);
    AnnotatedDecision(raw[k], k + 1);
    FieldAnnotated(raw[k], k + 1, "approval");
    ResolvesIff(raw, id, "approval");
    forall j | 0 <= j < |raw| && Hashable(id) && Bears(raw[j], id, "approval")
      ensures Field(ById(Annotated(raw))[Key(id)], "decision") == Field(raw[j], "decision")
    {
      FoundIs(raw, id, "approval", j, "decision");
    }
    hide Annotated, Annotate, ById, UniqueIds, Field, Bears, OrEmpty, Resolves;
  }

  lemma NamesUnfolds(byId: map<Value, Entry>, a: Entry)
    ensures var who, id := Field(a, "approver"), OrEmpty(Field(a, "decision"));
            NamesAPerson(byId, a) <==>
              (Field(a, "type") == Some(Str("approval")) ==>
                 && Truthy(who) && Field(who.value, "kind") == Some(Str("human")) && SaysWho(Field(who.value, "id"))
                 && Resolves(byId, id, "decision") && ProposedByAnother(byId[Key(id)], who.value))
  {
    var who := Field(a, "approver");
    if Truthy(who) {
      SaysWhoIff(Field(who.value, "id"));
    }
    hide Field, OrEmpty, NotBlank, SaysWho, SameKey, Truthy;
  }

  lemma NothingFalse(v: Option<Value>)
    ensures Truthy(v) ==> v.Some?
  {
  }

  lemma SameProposer(d: Entry, d': Entry, who: Value)
    requires Field(d, "proposed_by") == Field(d', "proposed_by")
    ensures ProposedByAnother(d, who) <==> ProposedByAnother(d', who)
  {
    hide Field, SameKey, Truthy;
  }

  lemma ApproverIff(raw: seq<Entry>, k: nat)
    requires UniqueIds(Annotated(raw)) && k < |raw|
    ensures NamesAPerson(ById(Annotated(raw)), Annotated(raw)[k]) <==> ApproverStands(raw, raw[k])
  {
    hide Annotated, Annotate, ById, UniqueIds, Field, Bears, OrEmpty, Is, NamesAPerson, SaysWho, ProposedByAnother, Truthy;
    var id := OrEmpty(Field(raw[k], "decision"));
    AnnotatedAt(raw);
    FieldAnnotated(raw[k], k + 1, "type");
    FieldAnnotated(raw[k], k + 1, "approver");
    FieldAnnotated(raw[k], k + 1, "decision");
    NamesUnfolds(ById(Annotated(raw)), Annotated(raw)[k]);
    NothingFalse(Field(raw[k], "approver"));
    if Field(raw[k], "approver").Some? {
      ProposerIff(raw, id, Field(raw[k], "approver").value);
    }
  }

  lemma ProposerIff(raw: seq<Entry>, id: Value, who: Value)
    requires UniqueIds(Annotated(raw))
    ensures Resolves(ById(Annotated(raw)), id, "decision") && ProposedByAnother(ById(Annotated(raw))[Key(id)], who) <==>
            Hashable(id) && exists j :: 0 <= j < |raw| && Bears(raw[j], id, "decision") && ProposedByAnother(raw[j], who)
  {
    hide Annotated, ById, UniqueIds, Bears, Is, ProposedByAnother, Field;
    ResolvesIff(raw, id, "decision");
    forall j | 0 <= j < |raw| && Hashable(id) && Bears(raw[j], id, "decision")
      ensures Resolves(ById(Annotated(raw)), id, "decision")
      ensures ProposedByAnother(ById(Annotated(raw))[Key(id)], who) <==> ProposedByAnother(raw[j], who)
    {
      FoundIs(raw, id, "decision", j, "proposed_by");
      SameProposer(ById(Annotated(raw))[Key(id)], raw[j], who);
    }
  }

  // ---------------------------------------------------------------- TR-4

  ghost predicate AllUnder(raw: seq<Entry>, ids: seq<Value>) {
    forall id :: id in ids ==> Hashable(id) && exists j :: HoldsUnder(raw, id, j)
  }

  lemma AllFoundIff(raw: seq<Entry>, ids: seq<Value>)
    ensures AllFound(ById(Annotated(raw)), ids) <==> AllUnder(raw, ids)
  {
    hide HoldsUnder, ById, Annotated, Key, Hashable;
    forall id | id in ids
      ensures Key(id) in ById(Annotated(raw)) <==> exists j :: HoldsUnder(raw, id, j)
    {
      HeldIff(raw, id);
    }
  }

  lemma HeldIff(raw: seq<Entry>, id: Value)
    ensures Key(id) in ById(Annotated(raw)) <==> exists j :: HoldsUnder(raw, id, j)
  {
    if Key(id) in ById(Annotated(raw)) {
      var j := FoundUnder(raw, id);
    }
    if j :| HoldsUnder(raw, id, j) {
      AnnotatedAt(raw);
      FieldAnnotated(raw[j], j + 1, "id");
      ByIdHolds(Annotated(raw), Key(id));
      assert HasId(Annotated(raw)[j]) && IdKey(Annotated(raw)[j]) == Key(id);
    }
  }

  lemma HeldIsFound(raw: seq<Entry>, id: Value, j: nat)
    requires UniqueIds(Annotated(raw)) && HoldsUnder(raw, id, j)
    ensures Key(id) in ById(Annotated(raw)) && ById(Annotated(raw))[Key(id)] == Annotate(raw[j], j + 1)
  {
    AnnotatedAt(raw);
    FieldAnnotated(raw[j], j + 1, "id");
    hide Annotated, Annotate, ById, UniqueIds, Lookup;
    ByIdFinds(Annotated(raw), j);
  }

  lemma UnderIsCovered(raw: seq<Entry>, ids: seq<Value>, covered: seq<Entry>)
    requires UniqueIds(Annotated(raw)) && StandUnder(raw, ids, covered)
    ensures AllFound(ById(Annotated(raw)), ids) && Message(Covered(ById(Annotated(raw)), ids)) == Message(covered)
  {
    var byId := ById(Annotated(raw));
    forall id | id in ids
      ensures Hashable(id) && exists j :: HoldsUnder(raw, id, j)
    {
      var n :| 0 <= n < |ids| && ids[n] == id;
      var j :| HoldsUnder(raw, ids[n], j) && raw[j] == covered[n];
    }
    AllFoundIff(raw, ids);
    CoveredAt(byId, ids);
    var found := Covered(byId, ids);
    hide Annotated, Annotate, ById, UniqueIds, Covered, AllFound, Canonical, Canonicals, Join, Utf8.Encode, HoldsUnder;
    forall n | 0 <= n < |ids|
      ensures Canonical(found[n]) == Canonical(covered[n])
    {
      var j :| HoldsUnder(raw, ids[n], j) && raw[j] == covered[n];
      HeldIsFound(raw, ids[n], j);
      CanonicalAnnotated(raw[j], j + 1);
    }
    CanonicalsSame(found, covered);
  }

  ghost function EntryUnder(raw: seq<Entry>, id: Value): (e: Entry)
    requires Hashable(id) && exists j :: HoldsUnder(raw, id, j)
    ensures StandsThere(raw, id, e)
  {
    var j :| HoldsUnder(raw, id, j);
    raw[j]
  }

  lemma SomeStand(raw: seq<Entry>, ids: seq<Value>) returns (covered: seq<Entry>)
    requires AllUnder(raw, ids)
    ensures StandUnder(raw, ids, covered)
  {
    hide HoldsUnder, StandsThere, Hashable;
    assert forall n :: 0 <= n < |ids| ==> ids[n] in ids;
    covered := seq(|ids|, n requires 0 <= n < |ids| => EntryUnder(raw, ids[n]));
    assert forall n :: 0 <= n < |ids| ==> covered[n] == EntryUnder(raw, ids[n]);
  }

  lemma SealUnfolds(sha: Hash, byId: map<Value, Entry>, g: Entry)
    ensures var ids := Each(Field(g, "covers"));
            Covers(byId, g) && DigestMatches(sha, byId, g) <==>
              (Field(g, "type") == Some(Str("integrity")) ==>
                 ids != [] && AllFound(byId, ids) && DigestIs(sha, Field(g, "digest"), Message(Covered(byId, ids))))
  {
    hide Field, Each, AllFound, Covered, Message, Hex;
  }

  lemma StandsIff(sha: Hash, raw: seq<Entry>, ids: seq<Value>, digest: Option<Value>)
    requires UniqueIds(Annotated(raw))
    ensures var byId := ById(Annotated(raw));
            AllFound(byId, ids) && DigestIs(sha, digest, Message(Covered(byId, ids))) <==>
            exists covered :: StandUnder(raw, ids, covered) && DigestIs(sha, digest, Message(covered))
  {
    hide *;
    var byId := ById(Annotated(raw));
    AllFoundIff(raw, ids);
    forall covered | StandUnder(raw, ids, covered)
      ensures AllFound(byId, ids) && Message(Covered(byId, ids)) == Message(covered)
    {
      UnderIsCovered(raw, ids, covered);
    }
    if AllFound(byId, ids) {
      var covered := SomeStand(raw, ids);
      assert Message(Covered(byId, ids)) == Message(covered);
    }
  }

  lemma SealIff(sha: Hash, raw: seq<Entry>, k: nat)
    requires UniqueIds(Annotated(raw)) && k < |raw|
    ensures var byId, g := ById(Annotated(raw)), Annotated(raw)[k];
            Covers(byId, g) && DigestMatches(sha, byId, g) <==> SealStands(sha, raw, raw[k])
  {
    hide Annotated, Annotate, ById, UniqueIds, Covered, AllFound, Covers, DigestMatches, Field, Message, StandUnder, Each, DigestIs;
    AnnotatedAt(raw);
    AnnotatedIntegrity(raw[k], k + 1);
    SealUnfolds(sha, ById(Annotated(raw)), Annotated(raw)[k]);
    StandsIff(sha, raw, Each(Field(raw[k], "covers")), Field(raw[k], "digest"));
  }

  // ---------------------------------------------------------------- the levels

  lemma LinesIff(raw: seq<Entry>)
    ensures UniqueIds(Annotated(raw)) && All(Annotated(raw), e => Dated(e)) && InTimeOrder(Annotated(raw)) <==> LinesStand(raw)
  {
    UniqueIff(raw);
    DatedIff(raw);
    if forall i :: 0 <= i < |raw| ==> Field(raw[i], "at") == Some(Str(AtOf(raw[i]))) {
      OrderIff(raw);
    }
    hide Annotated, UniqueIds, All, InTimeOrder, Field, AtOf, Calendar.Read, Before, SameKey;
  }

  lemma ReferencesAll(raw: seq<Entry>)
    requires UniqueIds(Annotated(raw))
    ensures var entries, byId := Annotated(raw), ById(Annotated(raw));
            All(entries, e => StatesEvidence(e)) && All(entries, e => Cited(byId, e)) && All(entries, e => SidesRetained(byId, e)) <==>
            forall k :: 0 <= k < |raw| ==> ReferencesStand(raw, raw[k])
  {
    AnnotatedAt(raw);
    hide Annotated, ById, UniqueIds, StatesEvidence, Cited, SidesRetained, ReferencesStand;
    forall k | 0 <= k < |raw|
      ensures StatesEvidence(Annotated(raw)[k]) && Cited(ById(Annotated(raw)), Annotated(raw)[k]) && SidesRetained(ById(Annotated(raw)), Annotated(raw)[k])
              <==> ReferencesStand(raw, raw[k])
    {
      ReferencesIff(raw, k);
    }
  }

  lemma ActionsAll(raw: seq<Entry>)
    requires UniqueIds(Annotated(raw))
    ensures var entries, byId := Annotated(raw), ById(Annotated(raw));
            All(entries, e => Approved(byId, e)) && All(entries, e => NamesAPerson(byId, e)) <==>
            forall k :: 0 <= k < |raw| ==> ApprovalStands(raw, raw[k]) && ApproverStands(raw, raw[k])
  {
    AnnotatedAt(raw);
    hide Annotated, ById, UniqueIds, Approved, NamesAPerson, ApprovalStands, ApproverStands;
    forall k | 0 <= k < |raw|
      ensures Approved(ById(Annotated(raw)), Annotated(raw)[k]) <==> ApprovalStands(raw, raw[k])
      ensures NamesAPerson(ById(Annotated(raw)), Annotated(raw)[k]) <==> ApproverStands(raw, raw[k])
    {
      ApprovalIff(raw, k);
      ApproverIff(raw, k);
    }
  }

  lemma SealsAll(sha: Hash, raw: seq<Entry>)
    requires UniqueIds(Annotated(raw))
    ensures var entries, byId := Annotated(raw), ById(Annotated(raw));
            All(entries, e => Covers(byId, e)) && All(entries, e => DigestMatches(sha, byId, e)) <==>
            forall k :: 0 <= k < |raw| ==> SealStands(sha, raw, raw[k])
  {
    AnnotatedAt(raw);
    hide Annotated, ById, UniqueIds, Covers, DigestMatches, SealStands;
    forall k | 0 <= k < |raw|
      ensures Covers(ById(Annotated(raw)), Annotated(raw)[k]) && DigestMatches(sha, ById(Annotated(raw)), Annotated(raw)[k])
              <==> SealStands(sha, raw, raw[k])
    {
      SealIff(sha, raw, k);
    }
  }

  /** Every level, exactly: what the checks not modelled come to at it, and what it asks of the lines. */
  lemma LevelExactly(sha: Hash, raw: seq<Entry>, others: seq<Check>)
    ensures var n := LevelOf(sha, raw, others);
            && (n >= 1 <==> (forall c :: c in others && c.level == TR1 ==> c.ok) && LinesStand(raw))
            && (n >= 2 <==> n >= 1 && (forall c :: c in others && c.level == TR2 ==> c.ok)
                            && forall k :: 0 <= k < |raw| ==> ReferencesStand(raw, raw[k]))
            && (n >= 3 <==> n >= 2 && (forall c :: c in others && c.level == TR3 ==> c.ok)
                            && (Acts(raw) ==> exists k :: 0 <= k < |raw| && Field(raw[k], "type") == Some(Str("decision")))
                            && forall k :: 0 <= k < |raw| ==> ApprovalStands(raw, raw[k]) && ApproverStands(raw, raw[k]))
            && (n >= 4 <==> n >= 3 && (forall c :: c in others && c.level == TR4 ==> c.ok)
                            && forall k :: 0 <= k < |raw| ==> SealStands(sha, raw, raw[k]))
  {
    hide LevelOf, Annotated, ById, UniqueIds, All, InTimeOrder, ShowsAGate, LinesStand, ReferencesStand, ApprovalStands, ApproverStands,
         SealStands, Acts, Field;
    EachLevel(sha, raw, others);
    LinesIff(raw);
    GateIff(raw);
    if UniqueIds(Annotated(raw)) {
      ReferencesAll(raw);
      ActionsAll(raw);
      SealsAll(sha, raw);
    }
  }
}
