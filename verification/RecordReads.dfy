/** The written record read as JSON members: each entry says what was gathered, and nothing of it is lost. */
module RecordReads {
  import opened Wrappers
  import opened Hashing
  import opened Json
  import opened TestimonyRecord
  import opened Export
  import opened Numbering
  import opened UtcTime
  import opened ExportedRecord

  // ---------------------------------------------------------------- a reader

  function TextAt(e: Entry, name: string): Option<string> {
    match Field(e, name)
    case Some(Str(s)) => Some(s)
    case _ => None
  }

  function TextOf(v: Value): string {
    if v.Str? then v.s else ""
  }

  function TextsAt(e: Entry, name: string): Option<seq<string>> {
    match Field(e, name)
    case Some(Arr(items)) =>
      if forall i :: 0 <= i < |items| ==> items[i].Str? then Some(seq(|items|, i requires 0 <= i < |items| => TextOf(items[i]))) else None
    case _ => None
  }

  function FlagAt(e: Entry, name: string): Option<bool> {
    match Field(e, name)
    case Some(Bool(b)) => Some(b)
    case _ => None
  }

  /** Who a member names, if it says it is of that kind. */
  function NamedAt(e: Entry, name: string, kind: string): Option<string> {
    match Field(e, name)
    case Some(who) => if TextAt(who, "kind") == Some(kind) then TextAt(who, "id") else None
    case None => None
  }

  function ReadEvidence(e: Entry): Option<Body> {
    if TextAt(e, "retrieved_at").Some? && TextAt(e, "retrieved_at") == TextAt(e, "at") then Some(Evidence) else None
  }

  function ReadBelief(e: Entry): Option<Body> {
    match TextsAt(e, "evidence")
    case Some(evidence) => Some(Belief(evidence))
    case None => None
  }

  function ReadConflict(e: Entry): Option<Body> {
    match TextsAt(e, "sides")
    case Some(sides) => Some(Conflict(sides))
    case None => None
  }

  function ReadDecision(e: Entry): Option<Body> {
    match (TextAt(e, "risk_class"), FlagAt(e, "executed"), NamedAt(e, "proposed_by", "agent"))
    case (Some(risk), Some(executed), Some(proposer)) => Some(Decision(risk, executed, proposer, TextAt(e, "approval")))
    case _ => None
  }

  function ReadApproval(e: Entry): Option<Body> {
    match (TextAt(e, "decision"), NamedAt(e, "approver", "human"))
    case (Some(decision), Some(approver)) => Some(Approval(decision, approver))
    case _ => None
  }

  function ReadBody(e: Entry): Option<Body> {
    match TextAt(e, "type")
    case Some("evidence") => ReadEvidence(e)
    case Some("belief") => ReadBelief(e)
    case Some("conflict") => ReadConflict(e)
    case Some("decision") => ReadDecision(e)
    case Some("approval") => ReadApproval(e)
    case _ => None
  }

  // ---------------------------------------------------------------- looking members up

  function Names(ms: seq<Member>): set<string> {
    set m | m in ms :: m.name
  }

  lemma {:induction false} LookupIn(ms: seq<Member>, i: nat)
    requires i < |ms| && forall j :: 0 <= j < i ==> ms[j].name != ms[i].name
    ensures Lookup(ms, ms[i].name) == Some(ms[i].value)
  {
    if i > 0 {
      assert ms[1..][i - 1] == ms[i];
      assert forall j :: 0 <= j < i - 1 ==> ms[1..][j] == ms[j + 1];
      LookupIn(ms[1..], i - 1);
    }
  }

  lemma {:induction false} LookupPast(ms: seq<Member>, more: seq<Member>, name: string)
    requires name !in Names(ms)
    ensures Lookup(ms + more, name) == Lookup(more, name)
  {
    if ms == [] {
      assert ms + more == more;
    } else {
      assert ms[0].name in Names(ms);
      assert (ms + more)[0] == ms[0] && (ms + more)[1..] == ms[1..] + more;
      LookupPast(ms[1..], more, name);
    }
  }

  // ---------------------------------------------------------------- what is read

  lemma ActorReads(id: string, kind: string, e: Entry, name: string)
    requires Field(e, name) == Some(Actor(id, kind))
    ensures NamedAt(e, name, kind) == Some(id)
  {
    var ms := Actor(id, kind).members;
    LookupIn(ms, 0);
    LookupIn(ms, 1);
  }

  lemma TextsRead(e: Entry, name: string, xs: seq<string>)
    requires Field(e, name) == Some(Texts(xs))
    ensures TextsAt(e, name) == Some(xs)
  {
    var items := Texts(xs).items;
    assert forall i :: 0 <= i < |items| ==> items[i] == Str(xs[i]);
    assert seq(|items|, i requires 0 <= i < |items| => TextOf(items[i])) == xs;
  }

  /** The name each entry gives the members it does not share with every other. */
  function Own(b: Body): seq<string> {
    match b
    case Evidence => ["retrieved_at"]
    case Belief(_) => ["evidence"]
    case Conflict(_) => ["sides"]
    case Decision(_, _, _, _) => ["approval", "risk_class", "executed", "proposed_by"]
    case Approval(_, _) => ["decision", "approver"]
  }

  lemma Laid(d: Draft, clock: Clock)
    ensures ToJson(d, clock).Obj?
    ensures var ms, own := ToJson(d, clock).members, Own(d.body);
            && |ms| == 3 + |own| + |d.extra| && ms[0].name == "type" && ms[1].name == "id" && ms[2].name == "at"
            && (forall i :: 0 <= i < |own| ==> ms[3 + i] == Core(d, clock(d.ts))[i] && ms[3 + i].name == own[i])
            && ms[3 + |own|..] == d.extra
  {
    CoreNames(d, clock(d.ts));
    hide Core, Own, TypeOf;
    var ms, core := ToJson(d, clock).members, Core(d, clock(d.ts));
    var head := [Member("type", Str(TypeOf(d.body))), Member("id", Str(d.id)), Member("at", Str(clock(d.ts)))];
    assert ms == head + core + d.extra;
    assert forall i :: 0 <= i < |core| ==> ms[3 + i] == core[i];
  }

  lemma CoreNames(d: Draft, at: string)
    ensures |Core(d, at)| == |Own(d.body)| && forall i :: 0 <= i < |Own(d.body)| ==> Core(d, at)[i].name == Own(d.body)[i]
  {
    hide Texts, Actor;
  }

  lemma OwnNames(b: Body)
    ensures forall i, j :: 0 <= i < j < |Own(b)| ==> Own(b)[i] != Own(b)[j]
    ensures forall i :: 0 <= i < |Own(b)| ==> Own(b)[i] != "type" && Own(b)[i] != "id" && Own(b)[i] != "at"
  {
  }

  lemma OwnRead(d: Draft, clock: Clock, i: nat)
    requires i < |Own(d.body)|
    ensures Field(ToJson(d, clock), Own(d.body)[i]) == Some(Core(d, clock(d.ts))[i].value)
  {
    hide ToJson, Own, Core, TypeOf;
    Laid(d, clock);
    OwnNames(d.body);
    var ms, own := ToJson(d, clock).members, Own(d.body);
    assert ms[3 + i].name == own[i];
    forall j | 0 <= j < 3 + i
      ensures ms[j].name != own[i]
    {
      if j >= 3 {
        assert ms[3 + (j - 3)].name == own[j - 3];
      }
    }
    hide Lookup;
    LookupIn(ms, 3 + i);
  }

  /** Whatever else was known of an entry is under its own name. */
  lemma ExtraRead(d: Draft, clock: Clock, name: string)
    requires name !in {"type", "id", "at"} && name !in Own(d.body)
    ensures Field(ToJson(d, clock), name) == Lookup(d.extra, name)
  {
    Laid(d, clock);
    var ms, own := ToJson(d, clock).members, Own(d.body);
    hide ToJson, Own, Core;
    var n := 3 + |own|;
    assert ms == ms[..n] + ms[n..];
    forall m | m in ms[..n]
      ensures m.name != name
    {
      var i :| 0 <= i < n && ms[i] == m;
      assert i >= 3 ==> ms[3 + (i - 3)].name == own[i - 3];
    }
    LookupPast(ms[..n], ms[n..], name);
  }

  /** What is written of an entry reads back as its name, its time and what it says. */
  lemma EntryReads(d: Draft, clock: Clock)
    ensures var e := ToJson(d, clock);
            TextAt(e, "id") == Some(d.id) && TextAt(e, "at") == Some(clock(d.ts)) && ReadBody(e) == Some(d.body)
  {
    var e := ToJson(d, clock);
    HeadFields(d, clock);
    OwnRead(d, clock, 0);
    if d.body.Decision? || d.body.Approval? {
      OwnRead(d, clock, 1);
    }
    if d.body.Decision? {
      OwnRead(d, clock, 2);
      OwnRead(d, clock, 3);
    }
    hide ToJson, Field, NamedAt, TextsAt;
    match d.body
    case Evidence =>
    case Belief(evidence) => TextsRead(e, "evidence", evidence);
    case Conflict(sides) => TextsRead(e, "sides", sides);
    case Decision(_, _, proposer, _) => ActorReads(proposer, "agent", e, "proposed_by");
    case Approval(_, approver) => ActorReads(approver, "human", e, "approver");
  }

  lemma IntegrityExtra(digest: bytes, covers: seq<string>, at: string, engine: seq<Member>, name: string)
    requires name !in {"type", "id", "at", "covers", "digest"}
    ensures Field(Integrity(digest, covers, at, engine), name) == Lookup(engine, name)
  {
    var ms := Integrity(digest, covers, at, engine).members;
    assert ms == ms[..5] + ms[5..] && ms[5..] == engine;
    LookupPast(ms[..5], engine, name);
  }

  /** The line says what was gathered: its name, its time and its members. */
  ghost predicate Says(e: Entry, d: Draft, clock: Clock) {
    TextAt(e, "id") == Some(d.id) && TextAt(e, "at") == Some(clock(d.ts)) && ReadBody(e) == Some(d.body)
  }

  /** The last line seals the others: it names them all, at the time of the last, with the digest the validator computes. */
  ghost predicate Seals(sha: Hash, g: Entry, above: seq<Entry>, ds: seq<Draft>, clock: Clock) {
    && TextAt(g, "type") == Some("integrity") && TextAt(g, "id") == Some("integrity_1")
    && TextAt(g, "at") == Some(clock(if ds == [] then 0 else ds[|ds| - 1].ts))
    && TextsAt(g, "covers") == Some(seq(|ds|, i requires 0 <= i < |ds| => ds[i].id))
    && DigestOf(sha, above).Ok? && TextAt(g, "digest") == Some("sha256:" + Hex(DigestOf(sha, above).value))
  }

  /** The record, line by line: what was gathered, in reading order and renumbered, and then the seal. */
  lemma RecordReads(sha: Hash, clock: Clock, gathered: seq<Draft>, engine: seq<Member>)
    requires Written(sha, clock, gathered, engine).Ok?
    ensures var lines, ds := Written(sha, clock, gathered, engine).value, Renumbered(Sort(gathered));
            && |ds| == |gathered| && |lines| == |ds| + 1
            && (forall i :: 0 <= i < |ds| ==> Says(lines[i], ds[i], clock))
            && Seals(sha, lines[|ds|], lines[..|ds|], ds, clock)
  {
    hide Written, Renumbered, Sort, TextAt, TextsAt, ReadBody, ToJson, Entries, Integrity, DigestOf, Hex, Ids;
    var ds := Renumbered(Sort(gathered));
    OneLineEach(gathered);
    WrittenIs(sha, clock, gathered, engine);
    var digest, at := DigestOf(sha, Entries(ds, clock)).value, clock(if ds == [] then 0 else ds[|ds| - 1].ts);
    IntegrityReads(digest, ds, at, engine);
    forall i | 0 <= i < |ds|
      ensures Says(ToJson(ds[i], clock), ds[i], clock)
    {
      EntryReads(ds[i], clock);
    }
  }

  lemma OneLineEach(gathered: seq<Draft>)
    ensures |Renumbered(Sort(gathered))| == |gathered|
  {
    SortKeepsMembers(gathered);
    hide Sort;
  }

  lemma WrittenIs(sha: Hash, clock: Clock, gathered: seq<Draft>, engine: seq<Member>)
    requires Written(sha, clock, gathered, engine).Ok?
    ensures var lines, ds := Written(sha, clock, gathered, engine).value, Renumbered(Sort(gathered));
            var digest := DigestOf(sha, Entries(ds, clock));
            && |lines| == |ds| + 1 && digest.Ok? && lines[..|ds|] == Entries(ds, clock)
            && (forall i :: 0 <= i < |ds| ==> lines[i] == ToJson(ds[i], clock))
            && lines[|ds|] == Integrity(digest.value, Ids(ds), clock(if ds == [] then 0 else ds[|ds| - 1].ts), engine)
  {
    hide Sort, Renumbered, ToJson, Integrity, DigestOf, Ids;
  }

  lemma IntegrityReads(digest: bytes, ds: seq<Draft>, at: string, engine: seq<Member>)
    ensures var g := Integrity(digest, Ids(ds), at, engine);
            && TextAt(g, "type") == Some("integrity") && TextAt(g, "id") == Some("integrity_1") && TextAt(g, "at") == Some(at)
            && TextsAt(g, "covers") == Some(seq(|ds|, i requires 0 <= i < |ds| => ds[i].id)) && TextAt(g, "digest") == Some("sha256:" + Hex(digest))
  {
    IntegrityFields(digest, Ids(ds), at, engine);
    TextsRead(Integrity(digest, Ids(ds), at, engine), "covers", Ids(ds));
    hide Integrity, Field, Texts, TextsAt, Hex;
    assert Ids(ds) == seq(|ds|, i requires 0 <= i < |ds| => ds[i].id);
  }
}
