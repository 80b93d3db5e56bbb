/**
 A Testimony Record as scripts/testimony_validate.py reads it, and what its checks ask of it.

 Entries are the JSON objects themselves. Where the validator would raise instead of reporting (an
 id that cannot be a dict key, an approver that is not an object) the check modelled here fails.
 */
module TestimonyRecord {
  import opened Wrappers
  import opened Hashing
  import opened Json
  import Calendar

  type Entry = Value

  // ---------------------------------------------------------------- reading a dict the Python way

  function Lookup(ms: seq<Member>, name: string): Option<Value> {
    if ms == [] then None
    else if ms[0].name == name then Some(ms[0].value)
    else Lookup(ms[1..], name)
  }

  /** A member of an entry, if the entry has one of that name. */
  function Field(e: Entry, name: string): Option<Value> {
    if e.Obj? then Lookup(e.members, name) else None
  }

  predicate Is(e: Entry, name: string, text: string) {
    Field(e, name) == Some(Str(text))
  }

  predicate Truthy(v: Option<Value>) {
    v.Some? &&
    match v.value
    case Null => false
    case Bool(b) => b
    case Int(n) => n != 0
    case Str(s) => s != ""
    case Arr(items) => items != []
    case Obj(members) => members != []
  }

  /** A member that is missing or falsy stands for the empty string. */
  function OrEmpty(v: Option<Value>): Value {
    if Truthy(v) then v.value else Str("")
  }

  predicate Hashable(v: Value) {
    !v.Arr? && !v.Obj?
  }

  /** Dict keys compare as numbers do: true is 1 and false is 0. */
  function Key(v: Value): Value {
    if v.Bool? then Int(if v.b then 1 else 0) else v
  }

  predicate SameKey(v: Option<Value>, w: Option<Value>) {
    if v.Some? && w.Some? then Key(v.value) == Key(w.value) else v == w
  }

  /** What a loop over a member walks over: nothing, when the member is missing or falsy. */
  function Each(v: Option<Value>): seq<Value> {
    if !Truthy(v) then []
    else match v.value
      case Arr(items) => items
      case Str(s) => seq(|s|, i requires 0 <= i < |s| => Str([s[i]]))
      case Obj(members) => seq(|members|, i requires 0 <= i < |members| => Str(members[i].name))
      case _ => [Arr([])]     // not iterable; nothing is recorded under such an id
  }

  predicate Space(c: char) {
    var n := c as int;
    9 <= n <= 13 || 28 <= n <= 32 || n in {0x85, 0xA0, 0x1680, 0x2028, 0x2029, 0x202F, 0x205F, 0x3000} || 0x2000 <= n <= 0x200A
  }

  /** Something is left of the text once white space is trimmed. */
  predicate NotBlank(v: Option<Value>) {
    Truthy(v) && (v.value.Str? ==> exists i :: 0 <= i < |v.value.s| && !Space(v.value.s[i]))
  }

  // ---------------------------------------------------------------- lines and ids

  /** A member set where it stands already, or at the end. */
  function Assign(ms: seq<Member>, name: string, v: Value): seq<Member> {
    if ms == [] then [Member(name, v)]
    else if ms[0].name == name then [Member(name, v)] + ms[1..]
    else [ms[0]] + Assign(ms[1..], name, v)
  }

  function Annotate(e: Entry, line: nat): Entry {
    if e.Obj? then Obj(Assign(e.members, "_line", Int(line))) else e
  }

  /** The entries of a text, each marked with its line number. */
  function Annotated(raw: seq<Entry>): seq<Entry> {
    seq(|raw|, i requires 0 <= i < |raw| => Annotate(raw[i], i + 1))
  }

  predicate HasId(e: Entry) {
    Field(e, "id").Some? && Hashable(Field(e, "id").value)
  }

  function IdKey(e: Entry): Value
    requires HasId(e)
  {
    Key(Field(e, "id").value)
  }

  /** The id map: under each id the last entry that bears it. */
  function ById(entries: seq<Entry>): map<Value, Entry> {
    if entries == [] then map[]
    else
      var last := entries[|entries| - 1];
      var before := ById(entries[..|entries| - 1]);
      if HasId(last) then before[IdKey(last) := last] else before
  }

  /** The id leads to an entry of the given type. */
  predicate Resolves(byId: map<Value, Entry>, id: Value, kind: string) {
    Hashable(id) && Key(id) in byId && Is(byId[Key(id)], "type", kind)
  }

  function OfType(entries: seq<Entry>, kind: string): seq<Entry> {
    if entries == [] then []
    else (if Is(entries[0], "type", kind) then [entries[0]] else []) + OfType(entries[1..], kind)
  }

  // ---------------------------------------------------------------- what the checks ask

  /** TR-1: entry ids are unique and never reused. */
  ghost predicate UniqueIds(entries: seq<Entry>) {
    forall i, j :: 0 <= i < j < |entries| && Field(entries[i], "id").Some? && Field(entries[j], "id").Some? ==>
      !SameKey(Field(entries[i], "id"), Field(entries[j], "id"))
  }

  /** TR-1: an entry has a write time as RFC 3339 writes it. */
  predicate Dated(e: Entry) {
    var at := Field(e, "at");
    at.Some? && at.value.Str? && Calendar.Read(at.value.s).Some?
  }

  function Times(entries: seq<Entry>): seq<string> {
    if entries == [] then []
    else
      var at := Field(entries[0], "at");
      (if at.Some? && at.value.Str? then [at.value.s] else []) + Times(entries[1..])
  }

  predicate AtOrBefore(a: string, b: string) {
    !Before(b, a)
  }

  /** TR-1: entries are in non-decreasing time order. */
  predicate InTimeOrder(entries: seq<Entry>) {
    var times := Times(entries);
    forall i :: 0 <= i < |times| - 1 ==> AtOrBefore(times[i], times[i + 1])
  }

  /** TR-2: a belief states its evidence, even when there is none. */
  predicate StatesEvidence(e: Entry) {
    Is(e, "type", "belief") ==> Field(e, "evidence").Some?
  }

  /** TR-2: cited evidence exists in the record. */
  predicate Cited(byId: map<Value, Entry>, e: Entry) {
    Is(e, "type", "belief") ==> forall id :: id in Each(Field(e, "evidence")) ==> Resolves(byId, id, "evidence")
  }

  /** TR-2: each conflict names at least two sides, and both sides are retained. */
  predicate SidesRetained(byId: map<Value, Entry>, e: Entry) {
    Is(e, "type", "conflict") ==>
      && |Each(Field(e, "sides"))| >= 2
      && forall id :: id in Each(Field(e, "sides")) ==> Resolves(byId, id, "belief")
  }

  /** What the system says it does; a record that does not say comes from one that acts. */
  predicate SaysItActs(entries: seq<Entry>) {
    var scopes := OfType(entries, "scope");
    scopes == [] || Truthy(Field(scopes[0], "acts"))
  }

  /** TR-3: the record of a system that acts contains at least one decision. */
  predicate ShowsAGate(entries: seq<Entry>) {
    SaysItActs(entries) ==> OfType(entries, "decision") != []
  }

  predicate ExecutedHighRisk(e: Entry) {
    Is(e, "type", "decision") && Is(e, "risk_class", "high") && Field(e, "executed") == Some(Bool(true))
  }

  /** TR-3: an executed high-risk action has an approval entry. */
  predicate Approved(byId: map<Value, Entry>, e: Entry) {
    ExecutedHighRisk(e) ==>
      var id := OrEmpty(Field(e, "approval"));
      && Resolves(byId, id, "approval")
      && SameKey(Field(byId[Key(id)], "decision"), Field(e, "id"))
  }

  /** An actor member can be asked for its id: it is missing, falsy or an object. */
  predicate Askable(e: Entry, name: string) {
    Truthy(Field(e, name)) ==> Field(e, name).value.Obj?
  }

  /** The `id` of an actor member. */
  function ActorId(e: Entry, name: string): Option<Value> {
    if Truthy(Field(e, name)) then Field(Field(e, name).value, "id") else None
  }

  /** TR-3: an approval names a person, other than the proposer, for a decision in the record. */
  predicate NamesAPerson(byId: map<Value, Entry>, e: Entry) {
    Is(e, "type", "approval") ==>
      var who := Field(e, "approver");
      var decision := OrEmpty(Field(e, "decision"));
      && Truthy(who) && Is(who.value, "kind", "human") && NotBlank(Field(who.value, "id"))
      && Resolves(byId, decision, "decision")
      && Askable(byId[Key(decision)], "proposed_by")
      && var proposer := ActorId(byId[Key(decision)], "proposed_by");
         !(Truthy(proposer) && SameKey(proposer, Field(who.value, "id")))
  }

  predicate AllFound(byId: map<Value, Entry>, ids: seq<Value>) {
    forall id :: id in ids ==> Hashable(id) && Key(id) in byId
  }

  /** TR-4: integrity entries cover entries that exist, and say which. */
  predicate Covers(byId: map<Value, Entry>, e: Entry) {
    Is(e, "type", "integrity") ==>
      && Each(Field(e, "covers")) != []
      && AllFound(byId, Each(Field(e, "covers")))
  }

  function Hex(b: bytes): string {
    if b == [] then "" else [DIGITS[b[0] / 16], DIGITS[b[0] % 16]] + Hex(b[1..])
  }

  function Covered(byId: map<Value, Entry>, ids: seq<Value>): seq<Entry>
    requires AllFound(byId, ids)
  {
    if ids == [] then [] else [byId[Key(ids[0])]] + Covered(byId, ids[1..])
  }

  /** TR-4: a digest is the digest of the entries it covers. */
  predicate DigestMatches(sha: Hash, byId: map<Value, Entry>, e: Entry) {
    Is(e, "type", "integrity") && Covers(byId, e) ==>
      var got := DigestOf(sha, Covered(byId, Each(Field(e, "covers"))));
      got.Ok? && OrEmpty(Field(e, "digest")) == Str("sha256:" + Hex(got.value))
  }

  // ---------------------------------------------------------------- the ladder

  datatype Level = TR1 | TR2 | TR3 | TR4

  const LEVELS := [TR1, TR2, TR3, TR4]

  datatype Check = Check(level: Level, ok: bool)

  predicate Passes(checks: seq<Check>, level: Level) {
    forall c :: c in checks && c.level == level ==> c.ok
  }

  /** How many levels, from the bottom, have no failing check. */
  function Reached(checks: seq<Check>): nat {
    if !Passes(checks, TR1) then 0
    else if !Passes(checks, TR2) then 1
    else if !Passes(checks, TR3) then 2
    else if !Passes(checks, TR4) then 3
    else 4
  }

  ghost predicate All(entries: seq<Entry>, p: Entry -> bool) {
    forall i :: 0 <= i < |entries| ==> p(entries[i])
  }

  /** TR-1: ids and times. */
  ghost function LineChecks(entries: seq<Entry>): seq<Check> {
    [Check(TR1, UniqueIds(entries)),
     Check(TR1, All(entries, e => Dated(e))),
     Check(TR1, InTimeOrder(entries))]
  }

  /** TR-2: references between entries. */
  ghost function ReferenceChecks(entries: seq<Entry>): seq<Check> {
    var byId := ById(entries);
    [Check(TR2, All(entries, e => StatesEvidence(e))),
     Check(TR2, All(entries, e => Cited(byId, e))),
     Check(TR2, All(entries, e => SidesRetained(byId, e)))]
  }

  ghost function RecordChecks(entries: seq<Entry>): seq<Check> {
    LineChecks(entries) + ReferenceChecks(entries)
  }

  /** TR-3: actions carry a verdict, approvals carry a name. */
  ghost function ActionChecks(entries: seq<Entry>): seq<Check> {
    var byId := ById(entries);
    [Check(TR3, ShowsAGate(entries)),
     Check(TR3, All(entries, e => Approved(byId, e))),
     Check(TR3, All(entries, e => NamesAPerson(byId, e)))]
  }

  /** TR-4: the record can be shown not to have changed. */
  ghost function IntegrityChecks(sha: Hash, entries: seq<Entry>): seq<Check> {
    var byId := ById(entries);
    [Check(TR4, All(entries, e => Covers(byId, e))),
     Check(TR4, All(entries, e => DigestMatches(sha, byId, e)))]
  }

  /** The modelled checks, in the order they are reported. The rest of the report is `others`. */
  ghost function Checks(sha: Hash, raw: seq<Entry>, others: seq<Check>): seq<Check> {
    var entries := Annotated(raw);
    others + RecordChecks(entries) + ActionChecks(entries) + IntegrityChecks(sha, entries)
  }

  /** The level reported, whatever the checks not modelled here come to. */
  ghost function LevelOf(sha: Hash, raw: seq<Entry>, others: seq<Check>): nat {
    Reached(Checks(sha, raw, others))
  }
}
