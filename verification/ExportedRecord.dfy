/**
 The record an export writes, and what the validator beside it makes of that record. How a time is
 printed is a parameter, asked only to print the times gathered as timestamps in order, as the
 exporter's own clock does in years of four digits.
 */
module ExportedRecord {
  import opened Wrappers
  import opened Hashing
  import opened Json
  import opened TestimonyRecord
  import opened Export
  import opened Gathering
  import opened Numbering
  import opened ExporterInvariant
  import opened Assurance
  import opened UtcTime
  import Calendar
  import Utf8

  /** The times printed in a record, that of an empty one included. */
  ghost function Moments(ds: seq<Draft>): set<int> {
    {0} + set d | d in ds :: d.ts
  }

  // ---------------------------------------------------------------- entries as JSON

  function Texts(xs: seq<string>): Value {
    Arr(seq(|xs|, i requires 0 <= i < |xs| => Str(xs[i])))
  }

  function Actor(id: string, kind: string): Value {
    Obj([Member("id", Str(id)), Member("kind", Str(kind))])
  }

  /** The members that hold a draft's references and what a gate checks of it. */
  function Core(d: Draft, at: string): seq<Member> {
    match d.body
    case Evidence => [Member("retrieved_at", Str(at))]
    case Belief(evidence) => [Member("evidence", Texts(evidence))]
    case Conflict(sides) => [Member("sides", Texts(sides))]
    case Decision(risk, executed, proposer, approval) =>
      [Member("approval", if approval.Some? then Str(approval.value) else Null), Member("risk_class", Str(risk)),
       Member("executed", Bool(executed)), Member("proposed_by", Actor(proposer, "agent"))]
    case Approval(decision, approver) =>
      [Member("decision", Str(decision)), Member("approver", Actor(approver, "human"))]
  }

  function ToJson(d: Draft, clock: Clock): Entry {
    Obj([Member("type", Str(TypeOf(d.body))), Member("id", Str(d.id)), Member("at", Str(clock(d.ts)))]
        + Core(d, clock(d.ts)) + d.extra)
  }

  function Entries(ds: seq<Draft>, clock: Clock): seq<Entry> {
    seq(|ds|, i requires 0 <= i < |ds| => ToJson(ds[i], clock))
  }

  function Ids(ds: seq<Draft>): seq<string> {
    seq(|ds|, i requires 0 <= i < |ds| => ds[i].id)
  }

  function Integrity(digest: bytes, covers: seq<string>, at: string, engine: seq<Member>): Entry {
    Obj([Member("type", Str("integrity")), Member("id", Str("integrity_1")), Member("at", Str(at)),
         Member("covers", Texts(covers)), Member("digest", Str("sha256:" + Hex(digest)))] + engine)
  }

  /** The lines written out: the entries in reading order, and the digest over all of them. */
  function Written(sha: Hash, clock: Clock, gathered: seq<Draft>, engine: seq<Member>): Result<seq<Entry>, NotPortable> {
    var ds := Renumbered(Sort(gathered));
    var digest :- DigestOf(sha, Entries(ds, clock));
    var last := if ds == [] then clock(0) else clock(ds[|ds| - 1].ts);
    Ok(Entries(ds, clock) + [Integrity(digest, Ids(ds), last, engine)])
  }

  // ---------------------------------------------------------------- reading a member back

  lemma LookupHere(ms: seq<Member>, name: string, v: Value)
    requires ms != [] && ms[0] == Member(name, v)
    ensures Lookup(ms, name) == Some(v)
  {
  }

  lemma LookupFurther(ms: seq<Member>, name: string)
    requires ms != [] && ms[0].name != name
    ensures Lookup(ms, name) == Lookup(ms[1..], name)
  {
  }

  lemma HeadFields(d: Draft, clock: Clock)
    ensures Field(ToJson(d, clock), "type") == Some(Str(TypeOf(d.body)))
    ensures Field(ToJson(d, clock), "id") == Some(Str(d.id))
    ensures Field(ToJson(d, clock), "at") == Some(Str(clock(d.ts)))
  {
    hide Core, TypeOf;
    var ms := ToJson(d, clock).members;
    assert ms[1..][1..] == ms[2..];
    LookupHere(ms, "type", ms[0].value);
    LookupFurther(ms, "id");
    LookupFurther(ms, "at");
    LookupHere(ms[1..], "id", ms[1].value);
    LookupFurther(ms[1..], "at");
    LookupHere(ms[2..], "at", ms[2].value);
  }

  lemma FourthField(d: Draft, clock: Clock)
    ensures d.body.Belief? ==> Field(ToJson(d, clock), "evidence") == Some(Texts(d.body.evidence))
    ensures d.body.Conflict? ==> Field(ToJson(d, clock), "sides") == Some(Texts(d.body.sides))
    ensures d.body.Approval? ==> Field(ToJson(d, clock), "decision") == Some(Str(d.body.decision))
    ensures d.body.Decision? ==>
              Field(ToJson(d, clock), "approval") == Some(if d.body.approval.Some? then Str(d.body.approval.value) else Null)
  {
    hide TypeOf, Texts;
    var ms := ToJson(d, clock).members;
    var name := Core(d, clock(d.ts))[0].name;
    assert ms[1..][1..] == ms[2..] && ms[2..][1..] == ms[3..];
    LookupFurther(ms, name);
    LookupFurther(ms[1..], name);
    LookupFurther(ms[2..], name);
    LookupHere(ms[3..], name, ms[3].value);
  }

  lemma IntegrityFields(digest: bytes, covers: seq<string>, at: string, engine: seq<Member>)
    ensures var g := Integrity(digest, covers, at, engine);
            && Field(g, "type") == Some(Str("integrity")) && Field(g, "id") == Some(Str("integrity_1"))
            && Field(g, "at") == Some(Str(at)) && Field(g, "covers") == Some(Texts(covers))
            && Field(g, "digest") == Some(Str("sha256:" + Hex(digest)))
  {
    hide Texts, Hex;
    var ms := Integrity(digest, covers, at, engine).members;
    assert ms[1..][1..] == ms[2..] && ms[2..][1..] == ms[3..] && ms[3..][1..] == ms[4..];
    LookupHere(ms, "type", ms[0].value);
    LookupFurther(ms, "id");
    LookupHere(ms[1..], "id", ms[1].value);
    LookupFurther(ms, "at");
    LookupFurther(ms[1..], "at");
    LookupHere(ms[2..], "at", ms[2].value);
    LookupFurther(ms, "covers");
    LookupFurther(ms[1..], "covers");
    LookupFurther(ms[2..], "covers");
    LookupHere(ms[3..], "covers", ms[3].value);
    LookupFurther(ms, "digest");
    LookupFurther(ms[1..], "digest");
    LookupFurther(ms[2..], "digest");
    LookupFurther(ms[3..], "digest");
    LookupHere(ms[4..], "digest", ms[4].value);
  }

  // ---------------------------------------------------------------- what holds of the entries written

  ghost predicate Settled(ds: seq<Draft>) {
    && DistinctIds(ds)
    && (forall i :: 0 <= i < |ds| ==> ds[i].id != "integrity_1")
    && (forall i :: 0 <= i < |ds| ==> CitesAbove(ds, i))
    && (forall i, j :: 0 <= i < j < |ds| ==> ds[i].ts <= ds[j].ts)
  }

  lemma SettledNames(s: State)
    requires Good(s)
    ensures NamesSettled(Sort(s.entries))
    ensures forall i :: 0 <= i < |Renumbered(Sort(s.entries))| ==> Renumbered(Sort(s.entries))[i].id != "integrity_1"
  {
    var sorted := Sort(s.entries);
    SortKeepsMembers(s.entries);
    DistinctAfterSort(s.entries);
    hide Sort, Renaming, NewId, CountOf, Numbered;
    forall i | 0 <= i < |sorted|
      ensures sorted[i].body.Belief? ==> !Generated(sorted[i].id)
      ensures NewId(sorted, i) != "integrity_1"
    {
      assert sorted[i] in s.entries;
      BeliefKeepsItsName(sorted, i);
      NumberedTypes(sorted[i].body);
      if !sorted[i].body.Belief? {
        IntegrityIsNotNumbered(TypeOf(sorted[i].body), CountOf(sorted[..i], TypeOf(sorted[i].body)) + 1);
      }
    }
  }

  lemma SettledTimes(ds: seq<Draft>)
    ensures var out := Renumbered(Sort(ds)); forall i, j :: 0 <= i < j < |out| ==> out[i].ts <= out[j].ts
  {
    SortHolds(ds);
    hide Sort, NewId, Renaming;
  }

  /** Reading order, after numbering, whatever was gathered. */
  lemma GoodSettles(s: State)
    requires Good(s)
    ensures Settled(Renumbered(Sort(s.entries)))
  {
    var sorted := Sort(s.entries);
    SettledNames(s);
    SettledTimes(s.entries);
    assert AllGrounded(s.entries);
    hide Sort, Renumbered, CitesAbove, NamesSettled, Good;
    RenumberedDistinct(sorted);
    forall i | 0 <= i < |Renumbered(sorted)|
      ensures CitesAbove(Renumbered(sorted), i)
    {
      SameLength(sorted);
      SortedCitesAbove(s.entries, i);
      RenumberedCitesAbove(sorted, i);
    }
  }

  lemma SameLength(ds: seq<Draft>)
    ensures |Renumbered(ds)| == |ds|
  {
  }

  // ---------------------------------------------------------------- the checks

  lemma RawAt(ds: seq<Draft>, clock: Clock, g: Entry)
    ensures var raw := Entries(ds, clock) + [g];
            && |raw| == |ds| + 1 && raw[|ds|] == g
            && forall i :: 0 <= i < |ds| ==> raw[i] == ToJson(ds[i], clock)
  {
  }

  lemma IdAt(ds: seq<Draft>, clock: Clock, g: Entry, i: nat)
    requires i <= |ds| && Field(g, "id") == Some(Str("integrity_1"))
    ensures Field(Annotated(Entries(ds, clock) + [g])[i], "id") == Some(Str(if i < |ds| then ds[i].id else "integrity_1"))
  {
    var raw := Entries(ds, clock) + [g];
    RawAt(ds, clock, g);
    AnnotatedAt(raw);
    FieldAnnotated(raw[i], i + 1, "id");
    if i < |ds| {
      HeadFields(ds[i], clock);
    }
  }

  lemma WrittenIdsAreUnique(ds: seq<Draft>, clock: Clock, g: Entry)
    requires Settled(ds) && Field(g, "id") == Some(Str("integrity_1"))
    ensures UniqueIds(Annotated(Entries(ds, clock) + [g]))
  {
    hide Annotated, Field, CitesAbove, Entries;
    var entries := Annotated(Entries(ds, clock) + [g]);
    RawAt(ds, clock, g);
    AnnotatedAt(Entries(ds, clock) + [g]);
    forall i, j | 0 <= i < j < |entries|
      ensures !SameKey(Field(entries[i], "id"), Field(entries[j], "id"))
    {
      IdAt(ds, clock, g, i);
      IdAt(ds, clock, g, j);
    }
  }

  /** A reference that points upwards resolves, in the whole record, to an entry of the right type. */
  lemma AboveResolves(ds: seq<Draft>, clock: Clock, g: Entry, i: nat, x: string, kind: string)
    requires Settled(ds) && Field(g, "id") == Some(Str("integrity_1")) && Above(ds, i, x, kind)
    ensures Resolves(ById(Annotated(Entries(ds, clock) + [g])), Str(x), kind)
  {
    var raw := Entries(ds, clock) + [g];
    var j :| 0 <= j < i && j < |ds| && ds[j].id == x && TypeOf(ds[j].body) == kind;
    WrittenIdsAreUnique(ds, clock, g);
    RawAt(ds, clock, g);
    AnnotatedAt(raw);
    IdAt(ds, clock, g, j);
    HeadFields(ds[j], clock);
    FieldAnnotated(raw[j], j + 1, "type");
    hide Annotated, Annotate, Entries, ToJson, ById, UniqueIds, Field, Settled;
    ByIdFinds(Annotated(raw), j);
  }

  lemma EachText(xs: seq<string>)
    ensures |Each(Some(Texts(xs)))| == |xs| && forall i :: 0 <= i < |xs| ==> Each(Some(Texts(xs)))[i] == Str(xs[i])
  {
  }

  lemma WrittenBeliefIsCited(ds: seq<Draft>, clock: Clock, g: Entry, i: nat)
    requires Settled(ds) && Field(g, "id") == Some(Str("integrity_1")) && i < |ds|
    ensures Cited(ById(Annotated(Entries(ds, clock) + [g])), Annotate(ToJson(ds[i], clock), i + 1))
  {
    var e := ToJson(ds[i], clock);
    HeadFields(ds[i], clock);
    FourthField(ds[i], clock);
    FieldAnnotated(e, i + 1, "type");
    FieldAnnotated(e, i + 1, "evidence");
    assert CitesAbove(ds, i);
    hide Annotate, ToJson, Field, ById, Annotated, Entries, Resolves, Settled, Each, Texts, Above;
    BeliefType(ds[i].body);
    if ds[i].body.Belief? {
      var evidence := ds[i].body.evidence;
      EachText(evidence);
      forall k | 0 <= k < |evidence|
        ensures Resolves(ById(Annotated(Entries(ds, clock) + [g])), Str(evidence[k]), "evidence")
      {
        assert evidence[k] in evidence;
        AboveResolves(ds, clock, g, i, evidence[k], "evidence");
      }
    }
  }

  lemma BeliefType(b: Body)
    ensures TypeOf(b) == "belief" <==> b.Belief?
    ensures TypeOf(b) == "conflict" <==> b.Conflict?
    ensures TypeOf(b) == "decision" <==> b.Decision?
    ensures TypeOf(b) == "approval" <==> b.Approval?
    ensures TypeOf(b) != "integrity"
  {
    assert "integrity" != "belief" && |"integrity"| == 9;
  }

  lemma WrittenConflictKeepsSides(ds: seq<Draft>, clock: Clock, g: Entry, i: nat)
    requires Settled(ds) && Field(g, "id") == Some(Str("integrity_1")) && i < |ds|
    ensures SidesRetained(ById(Annotated(Entries(ds, clock) + [g])), Annotate(ToJson(ds[i], clock), i + 1))
  {
    var e := ToJson(ds[i], clock);
    HeadFields(ds[i], clock);
    FourthField(ds[i], clock);
    FieldAnnotated(e, i + 1, "type");
    FieldAnnotated(e, i + 1, "sides");
    assert CitesAbove(ds, i);
    hide Annotate, ToJson, Field, ById, Annotated, Entries, Resolves, Settled, Each, Texts, Above;
    BeliefType(ds[i].body);
    if ds[i].body.Conflict? {
      var sides := ds[i].body.sides;
      EachText(sides);
      forall k | 0 <= k < |sides|
        ensures Resolves(ById(Annotated(Entries(ds, clock) + [g])), Str(sides[k]), "belief")
      {
        assert sides[k] in sides;
        AboveResolves(ds, clock, g, i, sides[k], "belief");
      }
    }
  }

  function Last(ds: seq<Draft>, clock: Clock): string {
    if ds == [] then clock(0) else clock(ds[|ds| - 1].ts)
  }

  function PrintedAt(ds: seq<Draft>, clock: Clock, i: nat): string {
    if i < |ds| then clock(ds[i].ts) else Last(ds, clock)
  }

  lemma PrintedInOrder(ds: seq<Draft>, clock: Clock, i: nat)
    requires Settled(ds) && Prints(clock, Moments(ds)) && i < |ds|
    ensures AtOrBefore(PrintedAt(ds, clock, i), PrintedAt(ds, clock, i + 1))
  {
    hide AtOrBefore, CitesAbove, DistinctIds;
    var b := if i + 1 < |ds| then ds[i + 1].ts else ds[|ds| - 1].ts;
    assert ds[i].ts <= b;
    assert ds[i] in ds && (if i + 1 < |ds| then ds[i + 1] else ds[|ds| - 1]) in ds;
  }

  lemma PrintedIsRead(ds: seq<Draft>, clock: Clock, g: Entry, i: nat)
    requires i <= |ds| && Field(g, "at") == Some(Str(Last(ds, clock)))
    ensures Field(Annotated(Entries(ds, clock) + [g])[i], "at") == Some(Str(PrintedAt(ds, clock, i)))
  {
    var raw := Entries(ds, clock) + [g];
    RawAt(ds, clock, g);
    AnnotatedAt(raw);
    hide Entries, ToJson, Annotate, Annotated, Field, Last;
    FieldAnnotated(raw[i], i + 1, "at");
    if i < |ds| {
      HeadFields(ds[i], clock);
    }
  }

  lemma InOrderWhen(entries: seq<Entry>, ats: seq<string>)
    requires Times(entries) == ats && forall i :: 0 <= i < |ats| - 1 ==> AtOrBefore(ats[i], ats[i + 1])
    ensures InTimeOrder(entries)
  {
  }

  lemma WrittenInTimeOrder(ds: seq<Draft>, clock: Clock, g: Entry)
    requires Settled(ds) && Prints(clock, Moments(ds)) && Field(g, "at") == Some(Str(Last(ds, clock)))
    ensures InTimeOrder(Annotated(Entries(ds, clock) + [g]))
  {
    hide *;
    var raw := Entries(ds, clock) + [g];
    var ats := seq(|ds| + 1, i requires 0 <= i < |ds| + 1 => PrintedAt(ds, clock, i));
    RawAt(ds, clock, g);
    AnnotatedAt(raw);
    forall i | 0 <= i <= |ds|
      ensures Field(Annotated(raw)[i], "at") == Some(Str(ats[i]))
    {
      PrintedIsRead(ds, clock, g, i);
    }
    TimesAre(Annotated(raw), ats);
    forall i | 0 <= i < |ats| - 1
      ensures AtOrBefore(ats[i], ats[i + 1])
    {
      PrintedInOrder(ds, clock, i);
    }
    InOrderWhen(Annotated(raw), ats);
  }

  /** Every line written has a write time. */
  lemma WrittenIsDated(ds: seq<Draft>, clock: Clock, g: Entry, i: nat)
    requires Prints(clock, Moments(ds)) && i <= |ds| && Field(g, "at") == Some(Str(Last(ds, clock)))
    ensures Dated(Annotated(Entries(ds, clock) + [g])[i])
  {
    hide Field, Entries, Annotated, Calendar.Read, Moments;
    PrintedIsRead(ds, clock, g, i);
    PrintedIsStamped(ds, clock, i);
  }

  lemma PrintedIsStamped(ds: seq<Draft>, clock: Clock, i: nat)
    requires Prints(clock, Moments(ds)) && i <= |ds|
    ensures Calendar.Read(PrintedAt(ds, clock, i)).Some?
  {
    hide Calendar.Read, AtOrBefore, ToJson, Annotate;
    if ds != [] {
      assert ds[|ds| - 1] in ds && (i < |ds| ==> ds[i] in ds);
    }
  }

  /** The reader's own annotations change no digest. */
  lemma DigestAnnotated(sha: Hash, a: seq<Entry>, b: seq<Entry>)
    requires |a| == |b| && forall i :: 0 <= i < |a| ==> b[i] == Annotate(a[i], i + 1)
    ensures DigestOf(sha, a) == DigestOf(sha, b)
  {
    hide Canonical, Canonicals, Annotate, Join, Utf8.Encode;
    forall i | 0 <= i < |a|
      ensures Canonical(a[i]) == Canonical(b[i])
    {
      CanonicalAnnotated(a[i], i + 1);
    }
    CanonicalsSame(a, b);
  }

  lemma CoversEverything(ds: seq<Draft>, clock: Clock, g: Entry)
    requires Settled(ds) && Field(g, "id") == Some(Str("integrity_1"))
    ensures var byId, ids := ById(Annotated(Entries(ds, clock) + [g])), Each(Some(Texts(Ids(ds))));
            && AllFound(byId, ids) && |ids| == |ds|
            && Covered(byId, ids) == Annotated(Entries(ds, clock) + [g])[..|ds|]
  {
    var raw := Entries(ds, clock) + [g];
    var entries, ids := Annotated(raw), Each(Some(Texts(Ids(ds))));
    var byId := ById(entries);
    EachText(Ids(ds));
    WrittenIdsAreUnique(ds, clock, g);
    RawAt(ds, clock, g);
    AnnotatedAt(raw);
    hide Entries, ToJson, Annotate, Annotated, Field, Each, Texts, ById, UniqueIds, Settled;
    forall t | 0 <= t < |ids|
      ensures Hashable(ids[t]) && Key(ids[t]) in byId && byId[Key(ids[t])] == entries[t]
    {
      IdAt(ds, clock, g, t);
      ByIdFinds(entries, t);
    }
    CoveredAt(byId, ids);
    assert Covered(byId, ids) == entries[..|ds|];
  }

  lemma MatchesWhen(sha: Hash, byId: map<Value, Entry>, e: Entry, covers: Value, digest: bytes)
    requires Field(e, "type") == Some(Str("integrity")) && Field(e, "covers") == Some(covers)
    requires Field(e, "digest") == Some(Str("sha256:" + Hex(digest)))
    requires AllFound(byId, Each(Some(covers))) && DigestOf(sha, Covered(byId, Each(Some(covers)))) == Ok(digest)
    ensures DigestMatches(sha, byId, e) && (Covers(byId, e) <==> Each(Some(covers)) != [])
  {
    hide Field, Each, DigestOf, Covered, AllFound, Hex;
  }

  lemma DigestOverAll(sha: Hash, ds: seq<Draft>, clock: Clock, g: Entry)
    ensures DigestOf(sha, Annotated(Entries(ds, clock) + [g])[..|ds|]) == DigestOf(sha, Entries(ds, clock))
  {
    var raw := Entries(ds, clock) + [g];
    RawAt(ds, clock, g);
    AnnotatedAt(raw);
    hide Annotated, Annotate, DigestOf, Entries, ToJson;
    DigestAnnotated(sha, raw[..|ds|], Annotated(raw)[..|ds|]);
    assert raw[..|ds|] == Entries(ds, clock);
  }

  /** The validator recomputes the digest the exporter wrote. */
  lemma WrittenDigestMatches(sha: Hash, ds: seq<Draft>, clock: Clock, digest: bytes, at: string, engine: seq<Member>)
    requires Settled(ds) && DigestOf(sha, Entries(ds, clock)) == Ok(digest)
    ensures var g := Integrity(digest, Ids(ds), at, engine);
            var byId := ById(Annotated(Entries(ds, clock) + [g]));
            && DigestMatches(sha, byId, Annotate(g, |ds| + 1))
            && (Covers(byId, Annotate(g, |ds| + 1)) <==> ds != [])
  {
    hide *;
    var g := Integrity(digest, Ids(ds), at, engine);
    IntegrityFields(digest, Ids(ds), at, engine);
    FieldAnnotated(g, |ds| + 1, "type");
    FieldAnnotated(g, |ds| + 1, "covers");
    FieldAnnotated(g, |ds| + 1, "digest");
    CoversEverything(ds, clock, g);
    DigestOverAll(sha, ds, clock, g);
    var byId := ById(Annotated(Entries(ds, clock) + [g]));
    MatchesWhen(sha, byId, Annotate(g, |ds| + 1), Texts(Ids(ds)), digest);
  }

  // ---------------------------------------------------------------- main result

  lemma OnlyOneIntegrity(d: Draft, clock: Clock, line: nat, sha: Hash, byId: map<Value, Entry>)
    ensures Covers(byId, Annotate(ToJson(d, clock), line)) && DigestMatches(sha, byId, Annotate(ToJson(d, clock), line))
  {
    HeadFields(d, clock);
    FieldAnnotated(ToJson(d, clock), line, "type");
    BeliefType(d.body);
  }

  lemma IntegrityIsNeither(byId: map<Value, Entry>, g: Entry, line: nat)
    requires Is(g, "type", "integrity")
    ensures Cited(byId, Annotate(g, line)) && SidesRetained(byId, Annotate(g, line)) && StatesEvidence(Annotate(g, line))
  {
    FieldAnnotated(g, line, "type");
    assert |"integrity"| == 9;
    hide Field, Annotate;
  }

  lemma WrittenBeliefStates(d: Draft, clock: Clock, line: nat)
    ensures StatesEvidence(Annotate(ToJson(d, clock), line))
  {
    HeadFields(d, clock);
    FourthField(d, clock);
    BeliefType(d.body);
    FieldAnnotated(ToJson(d, clock), line, "type");
    FieldAnnotated(ToJson(d, clock), line, "evidence");
    hide Field, Annotate, ToJson, TypeOf;
  }

  lemma RecordChecksPass(entries: seq<Entry>)
    requires UniqueIds(entries) && InTimeOrder(entries)
    requires forall i :: 0 <= i < |entries| ==> Dated(entries[i]) && StatesEvidence(entries[i])
    requires var byId := ById(entries);
             forall i :: 0 <= i < |entries| ==> Cited(byId, entries[i]) && SidesRetained(byId, entries[i])
    ensures forall c :: c in RecordChecks(entries) ==> c.ok
  {
    hide UniqueIds, InTimeOrder, Dated, StatesEvidence, Cited, SidesRetained, ById;
    assert forall c :: c in LineChecks(entries) ==> c.ok;
    assert forall c :: c in ReferenceChecks(entries) ==> c.ok;
  }

  lemma SettledRecordChecks(ds: seq<Draft>, clock: Clock, g: Entry)
    requires Settled(ds) && Prints(clock, Moments(ds)) && Is(g, "type", "integrity")
    requires Field(g, "id") == Some(Str("integrity_1")) && Field(g, "at") == Some(Str(Last(ds, clock)))
    ensures forall c :: c in RecordChecks(Annotated(Entries(ds, clock) + [g])) ==> c.ok
  {
    hide *;
    var raw := Entries(ds, clock) + [g];
    var entries := Annotated(raw);
    var byId := ById(entries);
    WrittenIdsAreUnique(ds, clock, g);
    WrittenInTimeOrder(ds, clock, g);
    RawAt(ds, clock, g);
    AnnotatedAt(raw);
    forall i | 0 <= i < |entries|
      ensures Dated(entries[i]) && StatesEvidence(entries[i]) && Cited(byId, entries[i]) && SidesRetained(byId, entries[i])
    {
      WrittenIsDated(ds, clock, g, i);
      if i < |ds| {
        WrittenBeliefStates(ds[i], clock, i + 1);
        WrittenBeliefIsCited(ds, clock, g, i);
        WrittenConflictKeepsSides(ds, clock, g, i);
      } else {
        IntegrityIsNeither(byId, g, i + 1);
      }
    }
    RecordChecksPass(entries);
  }

  lemma OneIntegrityDecides(sha: Hash, entries: seq<Entry>, n: nat)
    requires |entries| == n + 1
    requires var byId := ById(entries); forall i :: 0 <= i <= n ==> DigestMatches(sha, byId, entries[i])
    requires var byId := ById(entries); forall i :: 0 <= i < n ==> Covers(byId, entries[i])
    ensures (forall c :: c in IntegrityChecks(sha, entries) ==> c.ok) <==> Covers(ById(entries), entries[n])
  {
    hide ById, Covers, DigestMatches;
    var checks := IntegrityChecks(sha, entries);
    assert checks[0] in checks;
  }

  lemma SettledIntegrityChecks(sha: Hash, ds: seq<Draft>, clock: Clock, digest: bytes, at: string, engine: seq<Member>)
    requires Settled(ds) && DigestOf(sha, Entries(ds, clock)) == Ok(digest)
    ensures var raw := Entries(ds, clock) + [Integrity(digest, Ids(ds), at, engine)];
            (forall c :: c in IntegrityChecks(sha, Annotated(raw)) ==> c.ok) <==> ds != []
  {
    hide *;
    var g := Integrity(digest, Ids(ds), at, engine);
    var raw := Entries(ds, clock) + [g];
    var byId := ById(Annotated(raw));
    WrittenDigestMatches(sha, ds, clock, digest, at, engine);
    RawAt(ds, clock, g);
    AnnotatedAt(raw);
    forall i | 0 <= i < |ds|
      ensures Covers(byId, Annotated(raw)[i]) && DigestMatches(sha, byId, Annotated(raw)[i])
    {
      OnlyOneIntegrity(ds[i], clock, i + 1, sha, byId);
    }
    OneIntegrityDecides(sha, Annotated(raw), |ds|);
  }

  /**
   Whatever the memory answers, the record written passes the validator's checks on ids, on time
   order, on cited evidence and on the sides of conflicts; and, unless there was nothing to write,
   the validator recomputes its digest from what it covers.
   */
  lemma ExportConforms(sha: Hash, clock: Clock, answers: seq<Answer>, engine: seq<Member>)
    requires NamesApart(answers) && Prints(clock, Moments(TakeAll(EMPTY, answers).entries))
    requires Written(sha, clock, TakeAll(EMPTY, answers).entries, engine).Ok?
    ensures var gathered := TakeAll(EMPTY, answers).entries;
            var entries := Annotated(Written(sha, clock, gathered, engine).value);
            && (forall c :: c in RecordChecks(entries) ==> c.ok)
            && ((forall c :: c in IntegrityChecks(sha, entries) ==> c.ok) <==> gathered != [])
  {
    hide *;
    var s := TakeAll(EMPTY, answers);
    EveryRunIsGood(answers);
    GoodSettles(s);
    MomentsKept(s.entries);
    var ds := Renumbered(Sort(s.entries));
    WrittenIs(sha, clock, s.entries, engine);
    var digest := DigestOf(sha, Entries(ds, clock)).value;
    var g := Integrity(digest, Ids(ds), Last(ds, clock), engine);
    IntegrityFields(digest, Ids(ds), Last(ds, clock), engine);
    IsType(g);
    SettledRecordChecks(ds, clock, g);
    SettledIntegrityChecks(sha, ds, clock, digest, Last(ds, clock), engine);
  }

  lemma WrittenIs(sha: Hash, clock: Clock, gathered: seq<Draft>, engine: seq<Member>)
    requires Written(sha, clock, gathered, engine).Ok?
    ensures var ds := Renumbered(Sort(gathered));
            var digest := DigestOf(sha, Entries(ds, clock));
            digest.Ok? && Written(sha, clock, gathered, engine).value == Entries(ds, clock) + [Integrity(digest.value, Ids(ds), Last(ds, clock), engine)]
  {
    hide Renumbered, Sort, DigestOf, Entries, Integrity, Ids;
  }

  /** Sorting and renumbering keep the times, and whether there is anything to write. */
  lemma MomentsKept(gathered: seq<Draft>)
    ensures var ds := Renumbered(Sort(gathered)); Moments(ds) == Moments(gathered) && (ds == [] <==> gathered == [])
  {
    SortKeepsMembers(gathered);
    TimesStay(Sort(gathered));
    hide Sort, Renumbered;
    assert forall d :: d in Sort(gathered) <==> d in gathered;
  }

  lemma TimesStay(ds: seq<Draft>)
    ensures |Renumbered(ds)| == |ds| && Moments(Renumbered(ds)) == Moments(ds)
  {
    var out := Renumbered(ds);
    assert |out| == |ds| && forall i :: 0 <= i < |ds| ==> out[i].ts == ds[i].ts;
    hide Renumbered;
    forall i | 0 <= i < |ds|
      ensures ds[i].ts in Moments(out) && out[i].ts in Moments(ds)
    {
      assert ds[i] in ds && out[i] in out;
    }
  }

  lemma IsType(g: Entry)
    ensures Field(g, "type") == Some(Str("integrity")) ==> Is(g, "type", "integrity")
  {
  }

  lemma LowLevels(sha: Hash, raw: seq<Entry>, others: seq<Check>)
    requires Passes(others, TR1) && Passes(others, TR2)
    requires forall c :: c in RecordChecks(Annotated(raw)) ==> c.ok
    ensures LevelOf(sha, raw, others) >= 2
  {
    hide Annotated, UniqueIds, InTimeOrder, Cited, SidesRetained, ShowsAGate, Approved, NamesAPerson, Covers, DigestMatches, ById, All;
    var entries := Annotated(raw);
    var a, b, c := RecordChecks(entries), ActionChecks(entries), IntegrityChecks(sha, entries);
    assert forall x :: x in Checks(sha, raw, others) ==> x in others || x in a || x in b || x in c;
    assert forall x :: x in b ==> x.level == TR3;
    assert forall x :: x in c ==> x.level == TR4;
  }

  /** So it reaches TR-2 at the least, if the checks not modelled here pass at TR-1 and TR-2. */
  lemma ExportReachesTR2(sha: Hash, clock: Clock, answers: seq<Answer>, engine: seq<Member>, others: seq<Check>)
    requires NamesApart(answers) && Prints(clock, Moments(TakeAll(EMPTY, answers).entries))
    requires Written(sha, clock, TakeAll(EMPTY, answers).entries, engine).Ok?
    requires Passes(others, TR1) && Passes(others, TR2)
    ensures LevelOf(sha, Written(sha, clock, TakeAll(EMPTY, answers).entries, engine).value, others) >= 2
  {
    hide *;
    ExportConforms(sha, clock, answers, engine);
    LowLevels(sha, Written(sha, clock, TakeAll(EMPTY, answers).entries, engine).value, others);
  }
}
