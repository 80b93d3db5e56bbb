/** The CBOR reader of scripts/testimony_validate.py, on every byte string and from every index. */
module Cbor {
  import opened Wrappers
  import opened Hashing
  import Utf8

  datatype Value =
    | Null
    | Boolean(b: bool)
    | Integer(n: int)
    | Bytes(raw: bytes)
    | Text(s: string)
    | Array(items: seq<Value>)
    | Map(entries: seq<Entry>)
    | Simple(code: Option<nat>)

  datatype Entry = Entry(key: Value, value: Value)

  datatype Error = IndexError | ReservedInfo | IndefiniteString | NotUtf8 | NotANumber | Unhashable

  datatype Item = Item(value: Value, next: nat)

  datatype Head = Head(major: nat, info: nat, val: Option<nat>, next: nat)

  // ---------------------------------------------------------------- Python's dict

  /** Keys compare as Python compares them: True is 1 and False is 0. */
  function KeyOf(v: Value): Value {
    if v.Boolean? then Integer(if v.b then 1 else 0) else v
  }

  predicate Hashable(v: Value) {
    !v.Array? && !v.Map?
  }

  /** Assignment into a dict: an equal key keeps its place and its spelling. */
  function Put(out: seq<Entry>, k: Value, v: Value): seq<Entry> {
    if out == [] then [Entry(k, v)]
    else if KeyOf(out[0].key) == KeyOf(k) then [Entry(out[0].key, v)] + out[1..]
    else [out[0]] + Put(out[1..], k, v)
  }

  // ---------------------------------------------------------------- heads

  /**
   Python's slices do not fail past the end of the input, so a truncated head or string is read as
   if the bytes that are there were all of it, and the index moves past the end.
   */
  function Clip(b: bytes, i: nat): nat {
    if i < |b| then i else |b|
  }

  /** Up to `n` bytes from `i`: what is there of them. */
  function Slice(b: bytes, i: nat, n: nat): bytes {
    b[Clip(b, i)..Clip(b, i + n)]
  }

  function FromBigEndian(b: bytes): nat {
    if b == [] then 0 else FromBigEndian(b[..|b| - 1]) * 256 + b[|b| - 1]
  }

  function ReadHead(b: bytes, i: nat): (r: Result<Head, Error>)
    ensures r.Ok? ==> i < |b| && i < r.value.next
  {
    if i >= |b| then Err(IndexError)
    else
      var major, info, j := b[i] as int / 32, b[i] as int % 32, i + 1;
      if info < 24 then Ok(Head(major, info, Some(info), j))
      else if info == 24 then
        if j >= |b| then Err(IndexError) else Ok(Head(major, info, Some(b[j] as int), j + 1))
      else if info == 25 then Ok(Head(major, info, Some(FromBigEndian(Slice(b, j, 2))), j + 2))
      else if info == 26 then Ok(Head(major, info, Some(FromBigEndian(Slice(b, j, 4))), j + 4))
      else if info == 27 then Ok(Head(major, info, Some(FromBigEndian(Slice(b, j, 8))), j + 8))
      else if info == 31 then Ok(Head(major, info, None, j))
      else Err(ReservedInfo)
  }

  // ---------------------------------------------------------------- items

  function Left(b: bytes, i: nat): nat {
    |b| - Clip(b, i)
  }

  /** What an item that holds no other item is read as. */
  function Leaf(b: bytes, h: Head): Result<Item, Error>
    requires h.major !in {4, 5, 6}
  {
    if h.major == 0 then
      Ok(Item(if h.val.None? then Null else Integer(h.val.value), h.next))
    else if h.major == 1 then
      if h.val.None? then Err(NotANumber) else Ok(Item(Integer(-1 - h.val.value), h.next))
    else if h.major == 2 || h.major == 3 then
      if h.val.None? then Err(IndefiniteString)
      else
        var raw := Slice(b, h.next, h.val.value);
        if h.major == 2 then Ok(Item(Bytes(raw), h.next + h.val.value))
        else
          var s := Utf8.Decode(raw);
          if s.None? then Err(NotUtf8) else Ok(Item(Text(s.value), h.next + h.val.value))
    else if h.info == 20 then Ok(Item(Boolean(false), h.next))
    else if h.info == 21 then Ok(Item(Boolean(true), h.next))
    else if h.info == 22 then Ok(Item(Null, h.next))
    else Ok(Item(Simple(h.val), h.next))
  }

  /** One item from `b` at `i`. Wherever it succeeds, the index has moved on. */
  function Decode(b: bytes, i: nat): (r: Result<Item, Error>)
    ensures r.Ok? ==> i < |b| && i < r.value.next
    decreases Left(b, i), 0
  {
    var h :- ReadHead(b, i);
    if h.major == 4 then
      var out :- if h.val.None? then ItemsToBreak(b, h.next, []) else Items(b, h.next, h.val.value, []);
      Ok(Item(Array(out.0), out.1))
    else if h.major == 5 then
      var out :- if h.val.None? then EntriesToBreak(b, h.next, []) else Entries(b, h.next, h.val.value, []);
      Ok(Item(Map(out.0), out.1))
    else if h.major == 6 then
      Decode(b, h.next)
    else
      Leaf(b, h)
  }

  function Items(b: bytes, i: nat, n: nat, out: seq<Value>): (r: Result<(seq<Value>, nat), Error>)
    ensures r.Ok? ==> i <= r.value.1
    decreases Left(b, i), 2
  {
    if n == 0 then Ok((out, i))
    else
      var v :- Decode(b, i);
      Items(b, v.next, n - 1, out + [v.value])
  }

  function ItemsToBreak(b: bytes, i: nat, out: seq<Value>): (r: Result<(seq<Value>, nat), Error>)
    ensures r.Ok? ==> i <= r.value.1
    decreases Left(b, i), 2
  {
    if i >= |b| then Err(IndexError)
    else if b[i] == 0xFF then Ok((out, i + 1))
    else
      var v :- Decode(b, i);
      ItemsToBreak(b, v.next, out + [v.value])
  }

  /** A key, its value, and the assignment. */
  function Pair(b: bytes, i: nat, out: seq<Entry>): (r: Result<(seq<Entry>, nat), Error>)
    ensures r.Ok? ==> i < |b| && i < r.value.1
    decreases Left(b, i), 1
  {
    var k :- Decode(b, i);
    var v :- Decode(b, k.next);
    if Hashable(k.value) then Ok((Put(out, k.value, v.value), v.next)) else Err(Unhashable)
  }

  function Entries(b: bytes, i: nat, n: nat, out: seq<Entry>): (r: Result<(seq<Entry>, nat), Error>)
    ensures r.Ok? ==> i <= r.value.1
    decreases Left(b, i), 2
  {
    if n == 0 then Ok((out, i))
    else
      var p :- Pair(b, i, out);
      Entries(b, p.1, n - 1, p.0)
  }

  function EntriesToBreak(b: bytes, i: nat, out: seq<Entry>): (r: Result<(seq<Entry>, nat), Error>)
    ensures r.Ok? ==> i <= r.value.1
    decreases Left(b, i), 2
  {
    if i >= |b| then Err(IndexError)
    else if b[i] == 0xFF then Ok((out, i + 1))
    else
      var p :- Pair(b, i, out);
      EntriesToBreak(b, p.1, p.0)
  }

  // ---------------------------------------------------------------- the reader

  method LoadHead(b: bytes, i: nat) returns (r: Result<Head, Error>)
    ensures r == ReadHead(b, i)
  {
    if i >= |b| {
      return Err(IndexError);
    }
    var major, info, val, j := b[i] as int / 32, b[i] as int % 32, None, i + 1;
    if info < 24 {
      val := Some(info);
    } else if info == 24 {
      if j >= |b| {
        return Err(IndexError);
      }
      val, j := Some(b[j] as int), j + 1;
    } else if info == 25 {
      val, j := Some(FromBigEndian(Slice(b, j, 2))), j + 2;
    } else if info == 26 {
      val, j := Some(FromBigEndian(Slice(b, j, 4))), j + 4;
    } else if info == 27 {
      val, j := Some(FromBigEndian(Slice(b, j, 8))), j + 8;
    } else if info == 31 {
      val := None;
    } else {
      return Err(ReservedInfo);
    }
    return Ok(Head(major, info, val, j));
  }

  method Load(b: bytes, i: nat) returns (r: Result<Item, Error>)
    ensures r == Decode(b, i)
    decreases Left(b, i), 0
  {
    var h :- LoadHead(b, i);
    if h.major == 4 {
      var out :- LoadArray(b, h.val, h.next);
      return Ok(Item(Array(out.0), out.1));
    }
    if h.major == 5 {
      var out :- LoadMap(b, h.val, h.next);
      return Ok(Item(Map(out.0), out.1));
    }
    if h.major == 6 {
      r := Load(b, h.next);
      return;
    }
    return Leaf(b, h);
  }

  method LoadArray(b: bytes, val: Option<nat>, i: nat) returns (r: Result<(seq<Value>, nat), Error>)
    ensures r == if val.None? then ItemsToBreak(b, i, []) else Items(b, i, val.value, [])
    decreases Left(b, i), 1
  {
    var out, j := [], i;
    if val.None? {
      while j < |b| && b[j] != 0xFF
        invariant i <= j
        invariant ItemsToBreak(b, j, out) == ItemsToBreak(b, i, [])
        decreases Left(b, j)
      {
        var v :- Load(b, j);
        j, out := v.next, out + [v.value];
      }
      return if j >= |b| then Err(IndexError) else Ok((out, j + 1));
    }
    for k := 0 to val.value
      invariant i <= j
      invariant Items(b, j, val.value - k, out) == Items(b, i, val.value, [])
    {
      var v :- Load(b, j);
      j, out := v.next, out + [v.value];
    }
    return Ok((out, j));
  }

  method LoadMap(b: bytes, val: Option<nat>, i: nat) returns (r: Result<(seq<Entry>, nat), Error>)
    ensures r == if val.None? then EntriesToBreak(b, i, []) else Entries(b, i, val.value, [])
    decreases Left(b, i), 1
  {
    var out, j := [], i;
    if val.None? {
      while j < |b| && b[j] != 0xFF
        invariant i <= j
        invariant EntriesToBreak(b, j, out) == EntriesToBreak(b, i, [])
        decreases Left(b, j)
      {
        var k :- Load(b, j);
        var v :- Load(b, k.next);
        if !Hashable(k.value) {
          return Err(Unhashable);
        }
        j, out := v.next, Put(out, k.value, v.value);
      }
      return if j >= |b| then Err(IndexError) else Ok((out, j + 1));
    }
    for n := 0 to val.value
      invariant i <= j
      invariant Entries(b, j, val.value - n, out) == Entries(b, i, val.value, [])
    {
      var k :- Load(b, j);
      var v :- Load(b, k.next);
      if !Hashable(k.value) {
        return Err(Unhashable);
      }
      j, out := v.next, Put(out, k.value, v.value);
    }
    return Ok((out, j));
  }
}
