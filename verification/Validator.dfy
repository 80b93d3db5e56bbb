/**
 `validate` as the source runs it: each check walks the entries and appends what is wrong to a list,
 the report collects the verdicts, and the ladder is climbed until a level has a failure.
 */
module Validator {
  import opened Wrappers
  import opened Hashing
  import opened Json
  import opened TestimonyRecord

  class Report {
    var checks: seq<Check>

    constructor (checks: seq<Check>)
      ensures this.checks == checks
    {
      this.checks := checks;
    }

    method Add(level: Level, ok: bool)
      modifies this
      ensures checks == old(checks) + [Check(level, ok)]
    {
      checks := checks + [Check(level, ok)];
    }

    method Failures(level: Level) returns (bad: seq<Check>)
      ensures forall c :: c in bad <==> c in checks && c.level == level && !c.ok
      ensures bad == [] <==> Passes(checks, level)
    {
      bad := [];
      for i := 0 to |checks|
        invariant forall c :: c in bad <==> c in checks[..i] && c.level == level && !c.ok
      {
        assert checks[..i + 1] == checks[..i] + [checks[i]];
        if checks[i].level == level && !checks[i].ok {
          bad := bad + [checks[i]];
        }
      }
      assert checks[..|checks|] == checks;
      EmptyIff(bad);
    }

    /** The highest level with nothing failing at it or below it: a count of LEVELS, none being 0. */
    method Climb() returns (reached: nat)
      ensures reached == Reached(checks)
    {
      reached := 0;
      while reached < 4
        invariant reached <= 4
        invariant forall i :: 0 <= i < reached ==> Passes(checks, LEVELS[i])
      {
        assert LEVELS == [TR1, TR2, TR3, TR4];
        var bad := Failures(LEVELS[reached]);
        if bad != [] {
          break;
        }
        reached := reached + 1;
      }
      assert LEVELS[0] == TR1 && LEVELS[1] == TR2 && LEVELS[2] == TR3 && LEVELS[3] == TR4;
    }
  }

  lemma EmptyIff<T>(s: seq<T>)
    ensures s == [] <==> forall x :: x !in s
  {
    if s != [] {
      assert s[0] in s;
    }
  }

  method IdMap(entries: seq<Entry>) returns (byId: map<Value, Entry>)
    ensures byId == ById(entries)
  {
    byId := map[];
    for i := 0 to |entries|
      invariant byId == ById(entries[..i])
    {
      assert entries[..i + 1][..i] == entries[..i];
      if HasId(entries[i]) {
        byId := byId[IdKey(entries[i]) := entries[i]];
      }
    }
    assert entries[..|entries|] == entries;
  }

  /** Line `j` carries an id already used above it. */
  ghost predicate Reuses(entries: seq<Entry>, j: int, id: Value) {
    && 0 <= j < |entries| && Field(entries[j], "id") == Some(id)
    && exists i :: 0 <= i < j && SameKey(Field(entries[i], "id"), Some(id))
  }

  /** The ids that occur more than once. */
  method ReusedIds(entries: seq<Entry>) returns (reused: seq<Value>)
    ensures forall id :: id in reused <==> exists j :: Reuses(entries, j, id)
    ensures reused == [] <==> UniqueIds(entries)
  {
    hide SameKey, Field;
    reused := [];
    for j := 0 to |entries|
      invariant forall v :: v in reused <==> exists k :: k < j && Reuses(entries, k, v)
    {
      var id := Field(entries[j], "id");
      ghost var before := reused;
      if id.Some? {
        for i := 0 to j
          invariant forall v :: v in reused <==>
                      v in before || (v == id.value && exists k :: 0 <= k < i && SameKey(Field(entries[k], "id"), id))
        {
          if SameKey(Field(entries[i], "id"), id) {
            reused := reused + [id.value];
          }
        }
      }
      assert forall v :: v in reused <==> v in before || Reuses(entries, j, v);
    }
    EmptyIff(reused);
    forall j, id | Reuses(entries, j, id)
      ensures id in reused
    {
    }
    if reused != [] {
      assert reused[0] in reused;
    }
    UniqueIffNoneReused(entries);
  }

  lemma UniqueIffNoneReused(entries: seq<Entry>)
    ensures UniqueIds(entries) <==> forall j, id :: !Reuses(entries, j, id)
  {
    hide SameKey, Field;
    forall i, j | 0 <= i < j < |entries| && Field(entries[i], "id").Some? && Field(entries[j], "id").Some?
      ensures SameKey(Field(entries[i], "id"), Field(entries[j], "id")) ==> Reuses(entries, j, Field(entries[j], "id").value)
    {
    }
    forall j, id | Reuses(entries, j, id)
      ensures !UniqueIds(entries)
    {
      var i :| 0 <= i < j && SameKey(Field(entries[i], "id"), Some(id));
      MissingIsNoKey(Some(id));
    }
  }

  lemma MissingIsNoKey(id: Option<Value>)
    ensures id.Some? ==> !SameKey(None, id)
  {
  }

  method InOrder(times: seq<string>) returns (ordered: bool)
    ensures ordered <==> forall k :: 0 <= k < |times| - 1 ==> AtOrBefore(times[k], times[k + 1])
  {
    hide AtOrBefore;
    ordered := true;
    var i := 0;
    while i + 1 < |times|
      invariant ordered <==> forall k :: 0 <= k < i && k < |times| - 1 ==> AtOrBefore(times[k], times[k + 1])
    {
      ordered := ordered && AtOrBefore(times[i], times[i + 1]);
      i := i + 1;
    }
  }

  /** Every `at` that is a string is no earlier than the one before it. */
  method OutOfOrder(entries: seq<Entry>) returns (ordered: bool)
    ensures ordered <==> InTimeOrder(entries)
  {
    hide AtOrBefore, Field;
    var times := [];
    for i := 0 to |entries|
      invariant times + Times(entries[i..]) == Times(entries)
    {
      var at := Field(entries[i], "at");
      assert entries[i..][0] == entries[i] && entries[i..][1..] == entries[i + 1..];
      if at.Some? && at.value.Str? {
        times := times + [at.value.s];
      }
    }
    assert entries[|entries|..] == [] && times == Times(entries);
    ordered := InOrder(times);
  }

  /** The lines of the entries that fail a check. */
  method Failing(entries: seq<Entry>, p: Entry -> bool) returns (lines: seq<nat>)
    ensures forall n: nat :: n in lines <==> 1 <= n <= |entries| && !p(entries[n - 1])
    ensures lines == [] <==> All(entries, p)
  {
    lines := [];
    for i := 0 to |entries|
      invariant forall n: nat :: n in lines <==> 1 <= n <= i && !p(entries[n - 1])
      invariant lines == [] <==> forall k :: 0 <= k < i ==> p(entries[k])
    {
      if !p(entries[i]) {
        lines := lines + [i + 1];
      }
    }
  }

  method ByType(entries: seq<Entry>, kind: string) returns (found: seq<Entry>)
    ensures found == OfType(entries, kind)
  {
    found := [];
    for i := 0 to |entries|
      invariant found + OfType(entries[i..], kind) == OfType(entries, kind)
    {
      assert entries[i..][0] == entries[i] && entries[i..][1..] == entries[i + 1..];
      if Is(entries[i], "type", kind) {
        found := found + [entries[i]];
      }
    }
    assert entries[|entries|..] == [];
  }

  method CheckLines(r: Report, entries: seq<Entry>)
    modifies r
    ensures r.checks == old(r.checks) + LineChecks(entries)
  {
    hide Dated, UniqueIds, InTimeOrder;
    var reused := ReusedIds(entries);
    r.Add(TR1, reused == []);
    var undated := Failing(entries, e => Dated(e));
    r.Add(TR1, undated == []);
    var ordered := OutOfOrder(entries);
    r.Add(TR1, ordered);
  }

  method CheckReferences(r: Report, entries: seq<Entry>, byId: map<Value, Entry>)
    requires byId == ById(entries)
    modifies r
    ensures r.checks == old(r.checks) + ReferenceChecks(entries)
  {
    hide StatesEvidence, Cited, SidesRetained;
    var unstated := Failing(entries, e => StatesEvidence(e));
    r.Add(TR2, unstated == []);
    var dangling := Failing(entries, e => Cited(byId, e));
    r.Add(TR2, dangling == []);
    var lost := Failing(entries, e => SidesRetained(byId, e));
    r.Add(TR2, lost == []);
  }

  method CheckActions(r: Report, entries: seq<Entry>, byId: map<Value, Entry>)
    requires byId == ById(entries)
    modifies r
    ensures r.checks == old(r.checks) + ActionChecks(entries)
  {
    hide Approved, NamesAPerson, OfType;
    var decisions := ByType(entries, "decision");
    var scopes := ByType(entries, "scope");
    var acts := scopes == [] || Truthy(Field(scopes[0], "acts"));
    if acts {
      r.Add(TR3, decisions != []);
    } else {
      r.Add(TR3, true);
    }
    var unapproved := Failing(entries, e => Approved(byId, e));
    r.Add(TR3, unapproved == []);
    var badApprover := Failing(entries, e => NamesAPerson(byId, e));
    r.Add(TR3, badApprover == []);
  }

  method CheckIntegrity(sha: Hash, r: Report, entries: seq<Entry>, byId: map<Value, Entry>)
    requires byId == ById(entries)
    modifies r
    ensures r.checks == old(r.checks) + IntegrityChecks(sha, entries)
  {
    hide Covers, DigestMatches;
    var stale := Failing(entries, e => Covers(byId, e));
    r.Add(TR4, stale == []);
    var wrong := Failing(entries, e => DigestMatches(sha, byId, e));
    r.Add(TR4, wrong == []);
  }

  /** The report on a record, and the level it reaches, whatever the checks not modelled come to. */
  method Validate(sha: Hash, raw: seq<Entry>, others: seq<Check>) returns (r: Report, level: nat)
    ensures fresh(r) && r.checks == Checks(sha, raw, others)
    ensures level == LevelOf(sha, raw, others)
  {
    hide LineChecks, ReferenceChecks, ActionChecks, IntegrityChecks, Annotated, ById, Reached;
    var entries := Annotated(raw);
    var byId := IdMap(entries);
    r := new Report(others);
    CheckLines(r, entries);
    CheckReferences(r, entries, byId);
    CheckActions(r, entries, byId);
    CheckIntegrity(sha, r, entries, byId);
    level := r.Climb();
  }
}
