/**
 The canonical form of scripts/testimony_validate.py: `_number`, `_plain`, `canonical`, `digest_of`.
 Numbers are the integers; a value is what `json.loads` yields, so names are distinct in an object.
 */
module Json {
  import opened Wrappers
  import opened Hashing
  import Utf8

  datatype Value =
    | Null
    | Bool(b: bool)
    | Int(n: int)
    | Str(s: string)
    | Arr(items: seq<Value>)
    | Obj(members: seq<Member>)

  datatype Member = Member(name: string, value: Value)

  datatype NotPortable = NotPortable(n: int)

  const SAFE_INT := 0x20_0000_0000_0000

  // ---------------------------------------------------------------- order of names

  /** Python's order of strings: by code point, a proper prefix first. */
  predicate Before(a: string, b: string) {
    b != "" && (a == "" || a[0] < b[0] || (a[0] == b[0] && Before(a[1..], b[1..])))
  }

  // ---------------------------------------------------------------- _plain

  predicate Hidden(name: string) {
    name != "" && name[0] == '_'
  }

  /** The first kept integer that does not survive a round trip through ECMAScript. */
  function Unportable(v: Value): Option<int>
    decreases v
  {
    match v
    case Int(n) => if n > SAFE_INT || n < -SAFE_INT then Some(n) else None
    case Arr(items) => UnportableItem(items)
    case Obj(members) => UnportableMember(members)
    case _ => None
  }

  function UnportableItem(vs: seq<Value>): Option<int>
    decreases vs
  {
    if vs == [] then None
    else
      var first := Unportable(vs[0]);
      if first.Some? then first else UnportableItem(vs[1..])
  }

  function UnportableMember(ms: seq<Member>): Option<int>
    decreases ms
  {
    if ms == [] then None
    else
      var first := if Hidden(ms[0].name) then None else Unportable(ms[0].value);
      if first.Some? then first else UnportableMember(ms[1..])
  }

  function Insert(m: Member, sorted: seq<Member>): seq<Member> {
    if sorted == [] || !Before(sorted[0].name, m.name) then [m] + sorted
    else [sorted[0]] + Insert(m, sorted[1..])
  }

  /** Annotations dropped, members in order of name, at every depth. */
  function Normal(v: Value): Value
    decreases v
  {
    match v
    case Arr(items) => Arr(NormalItems(items))
    case Obj(members) => Obj(NormalMembers(members))
    case _ => v
  }

  function NormalItems(vs: seq<Value>): seq<Value>
    decreases vs
  {
    if vs == [] then [] else [Normal(vs[0])] + NormalItems(vs[1..])
  }

  function NormalMembers(ms: seq<Member>): seq<Member>
    decreases ms
  {
    if ms == [] then []
    else if Hidden(ms[0].name) then NormalMembers(ms[1..])
    else Insert(Member(ms[0].name, Normal(ms[0].value)), NormalMembers(ms[1..]))
  }

  // ---------------------------------------------------------------- json.dumps, compact, ensure_ascii=False

  const DIGITS := "0123456789abcdef"

  function NatText(n: nat): string {
    if n < 10 then [DIGITS[n]] else NatText(n / 10) + [DIGITS[n % 10]]
  }

  function IntText(n: int): string {
    if n < 0 then "-" + NatText(-n) else NatText(n)
  }

  function Escape(c: char): string {
    if c == '\"' then "\\\""
    else if c == '\\' then "\\\\"
    else if c == '\n' then "\\n"
    else if c == '\r' then "\\r"
    else if c == '\t' then "\\t"
    else if c as int == 12 then "\\f"
    else if c as int == 8 then "\\b"
    else if c as int < 0x20 then "\\u00" + [DIGITS[c as int / 16], DIGITS[c as int % 16]]
    else [c]
  }

  function Escaped(s: string): string {
    if s == "" then "" else Escape(s[0]) + Escaped(s[1..])
  }

  function Quoted(s: string): string {
    "\"" + (Escaped(s) + "\"")
  }

  function Dump(v: Value): string
    decreases v
  {
    match v
    case Null => "null"
    case Bool(b) => if b then "true" else "false"
    case Int(n) => IntText(n)
    case Str(s) => Quoted(s)
    case Arr(items) => "[" + (DumpItems(items) + "]")
    case Obj(members) => "{" + (DumpMembers(members) + "}")
  }

  function DumpItems(vs: seq<Value>): string
    decreases vs
  {
    if vs == [] then ""
    else if |vs| == 1 then Dump(vs[0])
    else Dump(vs[0]) + ("," + DumpItems(vs[1..]))
  }

  function DumpMember(m: Member): string
    decreases m
  {
    Quoted(m.name) + (":" + Dump(m.value))
  }

  function DumpMembers(ms: seq<Member>): string
    decreases ms
  {
    if ms == [] then ""
    else if |ms| == 1 then DumpMember(ms[0])
    else DumpMember(ms[0]) + ("," + DumpMembers(ms[1..]))
  }

  // ---------------------------------------------------------------- canonical, digest_of

  function Canonical(v: Value): Result<string, NotPortable> {
    var n := Unportable(v);
    if n.Some? then Err(NotPortable(n.value)) else Ok(Dump(Normal(v)))
  }

  function Join(lines: seq<string>): string {
    if lines == [] then ""
    else if |lines| == 1 then lines[0]
    else lines[0] + ("\n" + Join(lines[1..]))
  }

  function Canonicals(entries: seq<Value>): Result<seq<string>, NotPortable> {
    if entries == [] then Ok([])
    else
      var first :- Canonical(entries[0]);
      var rest :- Canonicals(entries[1..]);
      Ok([first] + rest)
  }

  /** The message a digest is taken over. */
  function Message(entries: seq<Value>): Result<bytes, NotPortable> {
    var lines :- Canonicals(entries);
    Ok(Utf8.Encode(Join(lines)))
  }

  function DigestOf(sha: Hash, entries: seq<Value>): Result<bytes, NotPortable> {
    var message :- Message(entries);
    Ok(sha(message))
  }

  // ---------------------------------------------------------------- the same content

  predicate DistinctNames(ms: seq<Member>) {
    forall i, j :: 0 <= i < j < |ms| ==> ms[i].name != ms[j].name
  }

  /** What every parsed value is: names distinct in every object. */
  predicate Parsed(v: Value)
    decreases v
  {
    match v
    case Arr(items) => forall i :: 0 <= i < |items| ==> Parsed(items[i])
    case Obj(members) => DistinctNames(members) && forall i :: 0 <= i < |members| ==> Parsed(members[i].value)
    case _ => true
  }

  predicate Named(ms: seq<Member>, name: string) {
    exists i :: 0 <= i < |ms| && ms[i].name == name
  }

  /** The same JSON value, but for annotations and the order of members. */
  predicate Same(v: Value, w: Value)
    decreases v
  {
    match (v, w)
    case (Arr(a), Arr(b)) => |a| == |b| && forall i :: 0 <= i < |a| ==> Same(a[i], b[i])
    case (Obj(a), Obj(b)) =>
      && (forall i :: 0 <= i < |a| && !Hidden(a[i].name) ==>
           exists j :: 0 <= j < |b| && a[i].name == b[j].name && Same(a[i].value, b[j].value))
      && (forall j :: 0 <= j < |b| && !Hidden(b[j].name) ==> Named(a, b[j].name))
    case (Obj(_), _) => false
    case (Arr(_), _) => false
    case _ => v == w
  }
}
