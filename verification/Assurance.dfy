/**
 What a reported level assures a reader of: that a person approved, at TR-3, and that nothing an
 integrity entry covers has changed, at TR-4.
 */
module Assurance {
  import opened Wrappers
  import opened Hashing
  import opened Json
  import opened JsonReader
  import opened CanonicalForm
  import opened TestimonyRecord
  import Calendar

  // ---------------------------------------------------------------- the ladder

  /** The level is the longest prefix of the ladder with no failing check. */
  lemma ReachedIsLongestPrefix(checks: seq<Check>, k: nat)
    requires k <= 4
    ensures Reached(checks) >= k <==> forall i :: 0 <= i < k ==> Passes(checks, LEVELS[i])
  {
    assert forall i :: 0 <= i < 4 ==> LEVELS[i] == [TR1, TR2, TR3, TR4][i];
    if Reached(checks) < k {
      assert !Passes(checks, LEVELS[Reached(checks)]);
    }
  }

  // ---------------------------------------------------------------- annotations

  lemma {:induction false} LookupAssigned(ms: seq<Member>, name: string, v: Value, other: string)
    requires other != name
    ensures Lookup(Assign(ms, name, v), other) == Lookup(ms, other)
  {
    if ms != [] && ms[0].name != name {
      LookupAssigned(ms[1..], name, v, other);
    }
  }

  lemma FieldAnnotated(e: Entry, line: nat, name: string)
    requires name != "_line"
    ensures Field(Annotate(e, line), name) == Field(e, name)
  {
    if e.Obj? {
      LookupAssigned(e.members, "_line", Int(line), name);
    }
  }

  lemma {:induction false} AssignedNames(ms: seq<Member>, name: string, v: Value)
    ensures var out := Assign(ms, name, v);
            && |out| >= |ms|
            && (forall i :: 0 <= i < |ms| ==> out[i].name == ms[i].name && (out[i] == ms[i] || out[i] == Member(name, v)))
            && (|out| > |ms| ==> |out| == |ms| + 1 && out[|ms|] == Member(name, v))
            && (|out| > |ms| ==> forall j :: 0 <= j < |ms| ==> ms[j].name != name)
  {
    if ms != [] && ms[0].name != name {
      AssignedNames(ms[1..], name, v);
      var out, rest := Assign(ms, name, v), Assign(ms[1..], name, v);
      assert out == [ms[0]] + rest;
      assert forall i :: 0 < i < |ms| ==> out[i] == rest[i - 1] && ms[i] == ms[1..][i - 1];
    }
  }

  lemma ParsedAnnotated(e: Entry, line: nat)
    requires Parsed(e)
    ensures Parsed(Annotate(e, line))
  {
    if e.Obj? {
      AssignedNames(e.members, "_line", Int(line));
    }
  }

  lemma {:induction false} NormalAssigned(ms: seq<Member>, name: string, v: Value)
    requires Hidden(name)
    ensures NormalMembers(Assign(ms, name, v)) == NormalMembers(ms)
    ensures UnportableMember(Assign(ms, name, v)) == UnportableMember(ms)
  {
    hide Normal, Unportable, Insert;
    var out := Assign(ms, name, v);
    if ms != [] && ms[0].name != name {
      NormalAssigned(ms[1..], name, v);
      assert out[1..] == Assign(ms[1..], name, v);
    } else if ms == [] {
      assert out[1..] == [];
    } else {
      assert out[1..] == ms[1..];
    }
  }

  /** A reader's annotation changes no canonical string. */
  lemma CanonicalAnnotated(e: Entry, line: nat)
    ensures Canonical(Annotate(e, line)) == Canonical(e)
  {
    if e.Obj? {
      NormalAssigned(e.members, "_line", Int(line));
    }
  }

  lemma {:induction false} CanonicalsSame(a: seq<Entry>, b: seq<Entry>)
    requires |a| == |b| && forall i :: 0 <= i < |a| ==> Canonical(a[i]) == Canonical(b[i])
    ensures Canonicals(a) == Canonicals(b)
  {
    hide Canonical;
    if a != [] {
      assert forall i :: 0 <= i < |a| - 1 ==> a[1..][i] == a[i + 1] && b[1..][i] == b[i + 1];
      CanonicalsSame(a[1..], b[1..]);
    }
  }

  // ---------------------------------------------------------------- the id map

  lemma {:induction false} ByIdHolds(entries: seq<Entry>, k: Value)
    ensures k in ById(entries) <==> exists i :: 0 <= i < |entries| && HasId(entries[i]) && IdKey(entries[i]) == k
    ensures k in ById(entries) ==>
              exists i :: 0 <= i < |entries| && HasId(entries[i]) && IdKey(entries[i]) == k && ById(entries)[k] == entries[i]
  {
    hide HasId, IdKey;
    if entries != [] {
      var n := |entries| - 1;
      ByIdHolds(entries[..n], k);
      assert forall i :: 0 <= i < n ==> entries[..n][i] == entries[i];
      if HasId(entries[n]) && IdKey(entries[n]) == k {
        assert ById(entries)[k] == entries[n];
      } else if k in ById(entries[..n]) {
        var i :| 0 <= i < n && HasId(entries[..n][i]) && IdKey(entries[..n][i]) == k && ById(entries[..n])[k] == entries[..n][i];
        assert HasId(entries[i]) && IdKey(entries[i]) == k && ById(entries)[k] == entries[i];
      }
    }
  }

  lemma ByIdFinds(entries: seq<Entry>, i: nat)
    requires UniqueIds(entries) && i < |entries| && HasId(entries[i])
    ensures IdKey(entries[i]) in ById(entries) && ById(entries)[IdKey(entries[i])] == entries[i]
  {
    ByIdHolds(entries, IdKey(entries[i]));
    var j :| 0 <= j < |entries| && HasId(entries[j]) && IdKey(entries[j]) == IdKey(entries[i])
             && ById(entries)[IdKey(entries[i])] == entries[j];
    assert i == j;
  }

  // ---------------------------------------------------------------- TR-1 and TR-2: what is there

  lemma {:induction false} TimesAre(entries: seq<Entry>, ats: seq<string>)
    requires |ats| == |entries| && forall i :: 0 <= i < |entries| ==> Field(entries[i], "at") == Some(Str(ats[i]))
    ensures Times(entries) == ats
  {
    hide Field;
    if entries != [] {
      assert forall i :: 0 <= i < |entries| - 1 ==> entries[1..][i] == entries[i + 1] && ats[1..][i] == ats[i + 1];
      TimesAre(entries[1..], ats[1..]);
      assert ats == [ats[0]] + ats[1..];
    }
  }

  lemma ReachesTR1(sha: Hash, raw: seq<Entry>, others: seq<Check>)
    requires LevelOf(sha, raw, others) >= 1
    ensures var entries := Annotated(raw);
            UniqueIds(entries) && InTimeOrder(entries) && forall i :: 0 <= i < |entries| ==> Dated(entries[i])
  {
    hide UniqueIds, Dated, InTimeOrder, ReferenceChecks, ActionChecks, IntegrityChecks, Annotated;
    var entries := Annotated(raw);
    var checks, a := Checks(sha, raw, others), LineChecks(entries);
    assert a[0] in a && a[1] in a && a[2] in a;
    assert forall c :: c in a ==> c in RecordChecks(entries);
    assert forall c :: c in RecordChecks(entries) ==> c in checks;
  }

  function AtOf(e: Entry): string {
    if Field(e, "at").Some? && Field(e, "at").value.Str? then Field(e, "at").value.s else ""
  }

  /** In every record that reaches TR-1 no two lines share an id, and each has a write time, none before an earlier line's. */
  lemma LinesAreInOrder(sha: Hash, raw: seq<Entry>, others: seq<Check>, i: nat, j: nat)
    requires LevelOf(sha, raw, others) >= 1 && i < j < |raw|
    ensures Field(raw[i], "id").Some? && Field(raw[j], "id").Some? ==> !SameKey(Field(raw[i], "id"), Field(raw[j], "id"))
    ensures Field(raw[i], "at") == Some(Str(AtOf(raw[i]))) && Calendar.Read(AtOf(raw[i])).Some?
    ensures AtOrBefore(AtOf(raw[i]), AtOf(raw[j]))
  {
    hide *;
    var entries := Annotated(raw);
    ReachesTR1(sha, raw, others);
    AnnotatedAt(raw);
    FieldAnnotated(raw[i], i + 1, "id");
    FieldAnnotated(raw[j], j + 1, "id");
    UniqueAt(entries, i, j);
    var ats := seq(|raw|, n requires 0 <= n < |raw| => AtOf(raw[n]));
    forall n | 0 <= n < |raw|
      ensures Field(entries[n], "at") == Some(Str(ats[n])) && Field(raw[n], "at") == Some(Str(ats[n])) && Calendar.Read(ats[n]).Some?
    {
      FieldAnnotated(raw[n], n + 1, "at");
      DatedMeans(entries[n], raw[n]);
    }
    TimesAre(entries, ats);
    InOrderMeans(entries);
    StepsInOrder(ats, i, j);
  }

  lemma UniqueAt(entries: seq<Entry>, i: nat, j: nat)
    requires UniqueIds(entries) && i < j < |entries|
    ensures Field(entries[i], "id").Some? && Field(entries[j], "id").Some? ==> !SameKey(Field(entries[i], "id"), Field(entries[j], "id"))
  {
    hide Field, SameKey;
  }

  lemma DatedMeans(e: Entry, r: Entry)
    requires Dated(e) && Field(e, "at") == Field(r, "at")
    ensures Field(r, "at") == Some(Str(AtOf(r))) && Calendar.Read(AtOf(r)).Some?
  {
    hide Field, Calendar.Read;
  }

  lemma InOrderMeans(entries: seq<Entry>)
    requires InTimeOrder(entries)
    ensures forall n :: 0 <= n < |Times(entries)| - 1 ==> AtOrBefore(Times(entries)[n], Times(entries)[n + 1])
  {
    hide AtOrBefore;
  }

  lemma {:induction false} StepsInOrder(ats: seq<string>, i: nat, j: nat)
    requires i < j < |ats| && forall n :: 0 <= n < |ats| - 1 ==> AtOrBefore(ats[n], ats[n + 1])
    ensures AtOrBefore(ats[i], ats[j])
  {
    if i + 1 < j {
      StepsInOrder(ats, i, j - 1);
      var a, b, c := ats[i], ats[j - 1], ats[j];
      BeforeIsStrict(a, b);
      BeforeIsStrict(b, c);
      hide Before;
      if Before(c, a) {
        if a != b {
          BeforeIsTransitive(c, a, b);
        }
      }
    }
  }

  lemma ReachesTR2(sha: Hash, raw: seq<Entry>, others: seq<Check>)
    requires LevelOf(sha, raw, others) >= 2
    ensures var entries := Annotated(raw);
            && UniqueIds(entries) && InTimeOrder(entries)
            && forall i :: 0 <= i < |entries| ==>
                 && Dated(entries[i]) && StatesEvidence(entries[i])
                 && Cited(ById(entries), entries[i]) && SidesRetained(ById(entries), entries[i])
  {
    hide UniqueIds, Dated, InTimeOrder, StatesEvidence, ShowsAGate, Approved, NamesAPerson, ById, Cited, SidesRetained, Covers, DigestMatches, Annotated;
    var entries := Annotated(raw);
    var checks, a, b := Checks(sha, raw, others), LineChecks(entries), ReferenceChecks(entries);
    assert a[0] in a && a[1] in a && a[2] in a && b[0] in b && b[1] in b && b[2] in b;
    assert forall c :: c in a || c in b ==> c in RecordChecks(entries);
    assert forall c :: c in RecordChecks(entries) ==> c in checks;
  }

  /** An entry of the given type bears the id. */
  ghost predicate Bears(e: Entry, id: Value, kind: string) {
    SameKey(Field(e, "id"), Some(id)) && Is(e, "type", kind)
  }

  lemma ResolvedIsThere(raw: seq<Entry>, id: Value, kind: string) returns (j: nat)
    requires Resolves(ById(Annotated(raw)), id, kind)
    ensures j < |raw| && Bears(raw[j], id, kind)
  {
    var entries := Annotated(raw);
    ByIdHolds(entries, Key(id));
    j :| 0 <= j < |entries| && HasId(entries[j]) && IdKey(entries[j]) == Key(id) && ById(entries)[Key(id)] == entries[j];
    AnnotatedAt(raw);
    FieldAnnotated(raw[j], j + 1, "id");
    FieldAnnotated(raw[j], j + 1, "type");
    hide ById, Annotated, Annotate, Lookup;
  }

  /** In every record that reaches TR-2, whatever a belief cites is in the record, as evidence. */
  lemma CitedIsThere(sha: Hash, raw: seq<Entry>, others: seq<Check>, k: nat, cited: seq<Value>, id: Value)
    requires LevelOf(sha, raw, others) >= 2 && k < |raw| && Is(raw[k], "type", "belief")
    requires Field(raw[k], "evidence") == Some(Arr(cited)) && id in cited
    ensures exists j :: 0 <= j < |raw| && Bears(raw[j], id, "evidence")
  {
    hide *;
    ReachesTR2(sha, raw, others);
    AnnotatedAt(raw);
    FieldsAnnotated(raw[k], k + 1, "evidence", "belief");
    CitedUnfolds(ById(Annotated(raw)), Annotated(raw)[k], cited, id);
    var j := ResolvedIsThere(raw, id, "evidence");
  }

  lemma FieldsAnnotated(e: Entry, line: nat, name: string, kind: string)
    requires name != "_line"
    ensures Field(Annotate(e, line), name) == Field(e, name) && (Is(Annotate(e, line), "type", kind) <==> Is(e, "type", kind))
  {
    FieldAnnotated(e, line, name);
    FieldAnnotated(e, line, "type");
    hide Field, Annotate;
  }

  lemma CitedUnfolds(byId: map<Value, Entry>, e: Entry, cited: seq<Value>, id: Value)
    requires Cited(byId, e) && Is(e, "type", "belief") && Field(e, "evidence") == Some(Arr(cited)) && id in cited
    ensures Resolves(byId, id, "evidence")
  {
    hide Field;
  }

  /** And a conflict keeps two sides at the least, each of them a belief in the record. */
  lemma SidesAreThere(sha: Hash, raw: seq<Entry>, others: seq<Check>, k: nat, sides: seq<Value>, id: Value)
    requires LevelOf(sha, raw, others) >= 2 && k < |raw| && Is(raw[k], "type", "conflict")
    requires Field(raw[k], "sides") == Some(Arr(sides)) && id in sides
    ensures |sides| >= 2 && exists j :: 0 <= j < |raw| && Bears(raw[j], id, "belief")
  {
    hide *;
    ReachesTR2(sha, raw, others);
    AnnotatedAt(raw);
    FieldsAnnotated(raw[k], k + 1, "sides", "conflict");
    SidesUnfold(ById(Annotated(raw)), Annotated(raw)[k], sides, id);
    var j := ResolvedIsThere(raw, id, "belief");
  }

  lemma SidesUnfold(byId: map<Value, Entry>, e: Entry, sides: seq<Value>, id: Value)
    requires SidesRetained(byId, e) && Is(e, "type", "conflict") && Field(e, "sides") == Some(Arr(sides)) && id in sides
    ensures |sides| >= 2 && Resolves(byId, id, "belief")
  {
    hide Field;
  }

  // ---------------------------------------------------------------- TR-3: a person approved

  lemma ReachesTR3(sha: Hash, raw: seq<Entry>, others: seq<Check>)
    requires LevelOf(sha, raw, others) >= 3
    ensures var entries := Annotated(raw);
            && UniqueIds(entries)
            && forall i :: 0 <= i < |entries| ==>
                 Approved(ById(entries), entries[i]) && NamesAPerson(ById(entries), entries[i])
  {
    hide UniqueIds, Dated, InTimeOrder, StatesEvidence, ShowsAGate, Approved, NamesAPerson, ById, Cited, SidesRetained, Covers, DigestMatches, Annotated;
    var entries := Annotated(raw);
    var checks, a, b := Checks(sha, raw, others), RecordChecks(entries), ActionChecks(entries);
    assert a[0] in a && b[1] in b && b[2] in b;
    assert forall c :: c in a || c in b ==> c in checks;
  }

  /** The approval of a decision by somebody who did not propose it. */
  ghost predicate ApprovedBySomeoneElse(a: Entry, d: Entry) {
    var who := Field(a, "approver");
    && Is(a, "type", "approval")
    && SameKey(Field(a, "decision"), Field(d, "id"))
    && who.Some? && Is(who.value, "kind", "human")
    && NotBlank(Field(who.value, "id"))
    && !SameKey(ActorId(d, "proposed_by"), Field(who.value, "id"))
  }

  /**
   In every record that reaches TR-3, each executed high-risk decision whose id is not empty has an
   approval in the record that names it, by a named human who is not its proposer.
   */
  lemma APersonApproved(sha: Hash, raw: seq<Entry>, others: seq<Check>, k: nat)
    requires LevelOf(sha, raw, others) >= 3
    requires k < |raw| && ExecutedHighRisk(raw[k]) && Truthy(Field(raw[k], "id")) && Hashable(Field(raw[k], "id").value)
    ensures exists j :: 0 <= j < |raw| && ApprovedBySomeoneElse(raw[j], raw[k])
  {
    hide *;
    ReachesTR3(sha, raw, others);
    var entries := Annotated(raw);
    AnnotatedAt(raw);
    AnnotatedDecision(raw[k], k + 1);
    var j := PersonForEntry(entries, k);
    AnnotatedApproval(raw[j], raw[k], j + 1, k + 1);
  }

  lemma AnnotatedAt(raw: seq<Entry>)
    ensures |Annotated(raw)| == |raw|
    ensures forall i :: 0 <= i < |raw| ==> Annotated(raw)[i] == Annotate(raw[i], i + 1)
  {
  }

  lemma AnnotatedDecision(e: Entry, line: nat)
    ensures ExecutedHighRisk(Annotate(e, line)) <==> ExecutedHighRisk(e)
    ensures Field(Annotate(e, line), "id") == Field(e, "id")
  {
    FieldAnnotated(e, line, "id");
    FieldAnnotated(e, line, "type");
    FieldAnnotated(e, line, "risk_class");
    FieldAnnotated(e, line, "executed");
  }

  lemma AnnotatedApproval(a: Entry, d: Entry, m: nat, n: nat)
    ensures ApprovedBySomeoneElse(Annotate(a, m), Annotate(d, n)) <==> ApprovedBySomeoneElse(a, d)
  {
    FieldAnnotated(a, m, "type");
    FieldAnnotated(a, m, "decision");
    FieldAnnotated(a, m, "approver");
    FieldAnnotated(d, n, "id");
    FieldAnnotated(d, n, "proposed_by");
    hide Annotate, Lookup;
  }

  lemma PersonForEntry(entries: seq<Entry>, k: nat) returns (j: nat)
    requires UniqueIds(entries)
    requires forall i :: 0 <= i < |entries| ==>
               Approved(ById(entries), entries[i]) && NamesAPerson(ById(entries), entries[i])
    requires k < |entries| && ExecutedHighRisk(entries[k])
    requires Truthy(Field(entries[k], "id")) && Hashable(Field(entries[k], "id").value)
    ensures j < |entries| && ApprovedBySomeoneElse(entries[j], entries[k])
  {
    var byId, d := ById(entries), entries[k];
    var key := Key(OrEmpty(Field(d, "approval")));
    assert Approved(byId, d);
    ByIdHolds(entries, key);
    j :| 0 <= j < |entries| && HasId(entries[j]) && IdKey(entries[j]) == key && byId[key] == entries[j];
    ByIdFinds(entries, k);
    hide ById, UniqueIds;
    NamedApproval(byId, entries[j], d);
  }

  lemma NamedApproval(byId: map<Value, Entry>, a: Entry, d: Entry)
    requires Is(a, "type", "approval") && NamesAPerson(byId, a)
    requires HasId(d) && Truthy(Field(d, "id")) && SameKey(Field(a, "decision"), Field(d, "id"))
    requires IdKey(d) in byId && byId[IdKey(d)] == d
    ensures ApprovedBySomeoneElse(a, d)
  {
    hide Lookup;
    assert Key(OrEmpty(Field(a, "decision"))) == IdKey(d);
  }

  // ---------------------------------------------------------------- TR-4: tamper evidence

  lemma ReachesTR4(sha: Hash, raw: seq<Entry>, others: seq<Check>)
    requires LevelOf(sha, raw, others) >= 4
    ensures var entries := Annotated(raw);
            && UniqueIds(entries)
            && forall i :: 0 <= i < |entries| ==>
                 Covers(ById(entries), entries[i]) && DigestMatches(sha, ById(entries), entries[i])
  {
    hide UniqueIds, Dated, InTimeOrder, StatesEvidence, ShowsAGate, Approved, NamesAPerson, ById, Cited, SidesRetained, Covers, DigestMatches, Annotated;
    var entries := Annotated(raw);
    var checks, a, b := Checks(sha, raw, others), RecordChecks(entries), IntegrityChecks(sha, entries);
    assert a[0] in a && b[0] in b && b[1] in b;
    assert forall c :: c in a || c in b ==> c in checks;
  }

  /** Two hexadecimal digits for each byte, read back. */
  function FromHex(t: string): Option<bytes> {
    if t == "" then Some([])
    else if |t| < 2 || HexValue(t[0]).None? || HexValue(t[1]).None? then None
    else
      match FromHex(t[2..])
      case None => None
      case Some(rest) => Some([HexValue(t[0]).value * 16 + HexValue(t[1]).value] + rest)
  }

  lemma FirstByteReads(b: bytes)
    requires b != []
    ensures var t := Hex(b);
            && |t| >= 2 && HexValue(t[0]) == Some(b[0] / 16) && HexValue(t[1]) == Some(b[0] % 16) && t[2..] == Hex(b[1..])
  {
    HexReads(b[0] / 16);
    HexReads(b[0] % 16);
    hide HexValue;
  }

  lemma {:induction false} HexReadsBack(b: bytes)
    ensures FromHex(Hex(b)) == Some(b)
  {
    if b != [] {
      FirstByteReads(b);
      HexReadsBack(b[1..]);
      hide HexValue, Hex;
      assert b == [b[0]] + b[1..];
    }
  }

  lemma HexIsInjective(a: bytes, b: bytes)
    requires Hex(a) == Hex(b)
    ensures a == b
  {
    HexReadsBack(a);
    HexReadsBack(b);
  }

  /** What the digest of an integrity entry is taken over, in a record that has every entry covered. */
  ghost function CoveredMessage(raw: seq<Entry>, g: Entry): bytes {
    var byId, ids := ById(Annotated(raw)), Each(Field(g, "covers"));
    if AllFound(byId, ids) && Message(Covered(byId, ids)).Ok? then Message(Covered(byId, ids)).value else []
  }

  lemma {:induction false} CoveredAt(byId: map<Value, Entry>, ids: seq<Value>)
    requires AllFound(byId, ids)
    ensures |Covered(byId, ids)| == |ids|
    ensures forall t :: 0 <= t < |ids| ==> Covered(byId, ids)[t] == byId[Key(ids[t])]
  {
    if ids != [] {
      CoveredAt(byId, ids[1..]);
      assert forall t :: 0 < t < |ids| ==> ids[t] == ids[1..][t - 1] && Covered(byId, ids)[t] == Covered(byId, ids[1..])[t - 1];
    }
  }

  lemma DigestsAgree(sha: Hash, byId: map<Value, Entry>, byId': map<Value, Entry>, g: Entry, g': Entry)
    requires Is(g, "type", "integrity") && Is(g', "type", "integrity")
    requires Field(g, "covers") == Field(g', "covers") && Field(g, "digest") == Field(g', "digest")
    requires Covers(byId, g) && Covers(byId', g')
    requires DigestMatches(sha, byId, g) && DigestMatches(sha, byId', g')
    ensures var ids := Each(Field(g, "covers"));
            var d, d' := DigestOf(sha, Covered(byId, ids)), DigestOf(sha, Covered(byId', ids));
            d.Ok? && d'.Ok? && d == d'
  {
    var ids := Each(Field(g, "covers"));
    var d, d' := DigestOf(sha, Covered(byId, ids)), DigestOf(sha, Covered(byId', ids));
    hide DigestOf, Hex, Covered, Each, Lookup;
    var x, x' := "sha256:" + Hex(d.value), "sha256:" + Hex(d'.value);
    assert x == x' && x[7..] == Hex(d.value) && x'[7..] == Hex(d'.value);
    HexIsInjective(d.value, d'.value);
  }

  lemma SameAnnotated(e: Entry, e': Entry, m: nat, n: nat)
    requires Parsed(e) && Parsed(e')
    ensures Same(Annotate(e, m), Annotate(e', n)) <==> Same(e, e')
  {
    ParsedAnnotated(e, m);
    ParsedAnnotated(e', n);
    NormalIffSame(Annotate(e, m), Annotate(e', n));
    NormalIffSame(e, e');
    NormalAnnotated(e, m);
    NormalAnnotated(e', n);
  }

  lemma NormalAnnotated(e: Entry, line: nat)
    ensures Normal(Annotate(e, line)) == Normal(e)
  {
    if e.Obj? {
      NormalAssigned(e.members, "_line", Int(line));
    }
  }

  /** The entry recorded under an id a TR-4 record's integrity entry covers. */
  ghost predicate HoldsUnder(raw: seq<Entry>, id: Value, j: int) {
    0 <= j < |raw| && HasId(raw[j]) && IdKey(raw[j]) == Key(id)
  }

  lemma FoundUnder(raw: seq<Entry>, id: Value) returns (j: nat)
    requires Key(id) in ById(Annotated(raw))
    ensures HoldsUnder(raw, id, j) && ById(Annotated(raw))[Key(id)] == Annotate(raw[j], j + 1)
  {
    var entries := Annotated(raw);
    ByIdHolds(entries, Key(id));
    j :| 0 <= j < |entries| && HasId(entries[j]) && IdKey(entries[j]) == Key(id) && ById(entries)[Key(id)] == entries[j];
    FieldAnnotated(raw[j], j + 1, "id");
  }

  /**
   Any two TR-4 records that share an integrity entry agree, content for content, on every entry
   it covers, unless the two messages it is a digest of collide.
   */
  lemma SharedIntegrityAgrees(sha: Hash, raw: seq<Entry>, others: seq<Check>, raw': seq<Entry>, others': seq<Check>,
                              i: nat, i': nat, id: Value) returns (j: nat, j': nat)
    requires AllParsed(raw) && AllParsed(raw')
    requires LevelOf(sha, raw, others) >= 4 && LevelOf(sha, raw', others') >= 4
    requires i < |raw| && i' < |raw'| && raw[i] == raw'[i'] && Is(raw[i], "type", "integrity")
    requires id in Each(Field(raw[i], "covers"))
    requires CollisionFree(sha, {CoveredMessage(raw, raw[i]), CoveredMessage(raw', raw[i])})
    ensures HoldsUnder(raw, id, j) && HoldsUnder(raw', id, j') && Same(raw[j], raw'[j'])
  {
    hide *;
    ReachesTR4(sha, raw, others);
    ReachesTR4(sha, raw', others');
    AnnotatedAt(raw);
    AnnotatedAt(raw');
    var byId, byId' := ById(Annotated(raw)), ById(Annotated(raw'));
    var g, g' := Annotated(raw)[i], Annotated(raw')[i'];
    AnnotatedIntegrity(raw[i], i + 1);
    AnnotatedIntegrity(raw'[i'], i' + 1);
    CoversFinds(byId, g, id);
    CoversFinds(byId', g', id);
    DigestsAgree(sha, byId, byId', g, g');
    j := FoundUnder(raw, id);
    j' := FoundUnder(raw', id);
    SameUnder(sha, raw, raw', raw[i], id);
    ParsedAt(raw, j);
    ParsedAt(raw', j');
    SameAnnotated(raw[j], raw'[j'], j + 1, j' + 1);
  }

  lemma AnnotatedIntegrity(e: Entry, line: nat)
    ensures Is(Annotate(e, line), "type", "integrity") <==> Is(e, "type", "integrity")
    ensures Field(Annotate(e, line), "covers") == Field(e, "covers")
    ensures Field(Annotate(e, line), "digest") == Field(e, "digest")
  {
    FieldAnnotated(e, line, "type");
    FieldAnnotated(e, line, "covers");
    FieldAnnotated(e, line, "digest");
  }

  lemma CoversFinds(byId: map<Value, Entry>, g: Entry, id: Value)
    requires Is(g, "type", "integrity") && Covers(byId, g) && id in Each(Field(g, "covers"))
    ensures Hashable(id) && Key(id) in byId && AllFound(byId, Each(Field(g, "covers")))
  {
  }

  lemma ParsedAt(raw: seq<Entry>, j: nat)
    requires AllParsed(raw) && j < |raw|
    ensures Parsed(raw[j])
  {
  }

  lemma ParsedCovered(raw: seq<Entry>, ids: seq<Value>)
    requires AllParsed(raw) && AllFound(ById(Annotated(raw)), ids)
    ensures AllParsed(Covered(ById(Annotated(raw)), ids))
  {
    var byId := ById(Annotated(raw));
    CoveredAt(byId, ids);
    forall t | 0 <= t < |ids|
      ensures Parsed(Covered(byId, ids)[t])
    {
      var j := FoundUnder(raw, ids[t]);
      ParsedAnnotated(raw[j], j + 1);
    }
  }

  lemma SameUnder(sha: Hash, raw: seq<Entry>, raw': seq<Entry>, g: Entry, id: Value)
    requires AllParsed(raw) && AllParsed(raw') && id in Each(Field(g, "covers"))
    requires var ids := Each(Field(g, "covers"));
             && AllFound(ById(Annotated(raw)), ids) && AllFound(ById(Annotated(raw')), ids)
             && var d := DigestOf(sha, Covered(ById(Annotated(raw)), ids));
                d.Ok? && d == DigestOf(sha, Covered(ById(Annotated(raw')), ids))
    requires CollisionFree(sha, {CoveredMessage(raw, g), CoveredMessage(raw', g)})
    ensures Key(id) in ById(Annotated(raw)) && Key(id) in ById(Annotated(raw'))
    ensures Same(ById(Annotated(raw))[Key(id)], ById(Annotated(raw'))[Key(id)])
  {
    var ids := Each(Field(g, "covers"));
    var byId, byId' := ById(Annotated(raw)), ById(Annotated(raw'));
    var a, b := Covered(byId, ids), Covered(byId', ids);
    hide ById, Annotated, Each, Parsed, Same, Lookup, AllParsed, Message;
    CoveredAt(byId, ids);
    CoveredAt(byId', ids);
    ParsedCovered(raw, ids);
    ParsedCovered(raw', ids);
    assert CoveredMessage(raw, g) == Message(a).value && CoveredMessage(raw', g) == Message(b).value;
    hide CoveredMessage, Covered;
    DigestIffSame(sha, a, b);
    var t :| 0 <= t < |ids| && ids[t] == id;
    assert Same(a[t], b[t]);
  }

  lemma OneUnderAnId(raw: seq<Entry>, id: Value, j: nat, k: nat)
    requires UniqueIds(Annotated(raw)) && HoldsUnder(raw, id, j) && HoldsUnder(raw, id, k)
    ensures j == k
  {
    FieldAnnotated(raw[j], j + 1, "id");
    FieldAnnotated(raw[k], k + 1, "id");
    AnnotatedAt(raw);
    hide Annotate, Annotated, Lookup;
    var a, b := if j < k then j else k, if j < k then k else j;
    assert SameKey(Field(Annotated(raw)[a], "id"), Field(Annotated(raw)[b], "id"));
  }

  lemma StillCovered(sha: Hash, raw: seq<Entry>, others: seq<Check>, i: nat, id: Value) returns (j: nat)
    requires LevelOf(sha, raw, others) >= 4 && i < |raw| && Is(raw[i], "type", "integrity")
    requires id in Each(Field(raw[i], "covers"))
    ensures UniqueIds(Annotated(raw)) && HoldsUnder(raw, id, j)
  {
    hide *;
    ReachesTR4(sha, raw, others);
    AnnotatedAt(raw);
    AnnotatedIntegrity(raw[i], i + 1);
    CoversFinds(ById(Annotated(raw)), Annotated(raw)[i], id);
    j := FoundUnder(raw, id);
  }

  ghost function Without(raw: seq<Entry>, k: nat): seq<Entry>
    requires k < |raw|
  {
    raw[..k] + raw[k + 1..]
  }

  /** Delete an entry that an integrity entry covers, and the record no longer reaches TR-4. */
  lemma DeletionShows(sha: Hash, raw: seq<Entry>, others: seq<Check>, others': seq<Check>, i: nat, k: nat, id: Value)
    requires LevelOf(sha, raw, others) >= 4
    requires i < |raw| && Is(raw[i], "type", "integrity") && id in Each(Field(raw[i], "covers"))
    requires k != i && HoldsUnder(raw, id, k)
    ensures LevelOf(sha, Without(raw, k), others') < 4
  {
    hide LevelOf, Is, Each, Field, UniqueIds, Annotated;
    var left := Without(raw, k);
    if LevelOf(sha, left, others') >= 4 {
      var _ := StillCovered(sha, raw, others, i, id);
      var i' := if i < k then i else i - 1;
      assert left[i'] == raw[i];
      var j := StillCovered(sha, left, others', i', id);
      var j' := if j < k then j else j + 1;
      assert left[j] == raw[j'];
      OneUnderAnId(raw, id, j', k);
    }
  }

  /** Replace it by one whose canonical form differs, and the record no longer reaches TR-4. */
  lemma ReplacementShows(sha: Hash, raw: seq<Entry>, others: seq<Check>, others': seq<Check>, i: nat, k: nat,
                         id: Value, e: Entry)
    requires AllParsed(raw) && Parsed(e) && LevelOf(sha, raw, others) >= 4
    requires i < |raw| && Is(raw[i], "type", "integrity") && id in Each(Field(raw[i], "covers"))
    requires k != i && HoldsUnder(raw, id, k) && !Same(raw[k], e)
    requires CollisionFree(sha, {CoveredMessage(raw, raw[i]), CoveredMessage(raw[k := e], raw[i])})
    ensures LevelOf(sha, raw[k := e], others') < 4
  {
    hide LevelOf, Is, Each, Field, UniqueIds, Annotated, Same, Parsed, CoveredMessage, CollisionFree;
    var changed := raw[k := e];
    if LevelOf(sha, changed, others') >= 4 {
      var _ := StillCovered(sha, raw, others, i, id);
      var j, j' := SharedIntegrityAgrees(sha, raw, others, changed, others', i, i, id);
      OneUnderAnId(raw, id, j, k);
      if j' != k {
        OneUnderAnId(raw, id, j', k);
      }
    }
  }
}
