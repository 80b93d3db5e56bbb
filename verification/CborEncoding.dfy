/**
 Section 3 of RFC 8949 from the writing side: every way of encoding a value that the reader is
 meant to read, and the theorem that it reads each one back.
 */
module CborEncoding {
  import opened Wrappers
  import opened Hashing
  import opened Cbor
  import Utf8

  /** Two keys are one to Python exactly when they are equal, or one is a truth value and the other its number. */
  lemma OneKeyIff(a: Value, b: Value)
    ensures KeyOf(a) == KeyOf(b) <==>
              a == b || (a, b) in {(Boolean(true), Integer(1)), (Integer(1), Boolean(true)), (Boolean(false), Integer(0)), (Integer(0), Boolean(false))}
  {
  }

  /** Where a head keeps its number: in the initial byte, or in 1, 2, 4 or 8 bytes after it. */
  datatype Width = Immediate | One | Two | Four | Eight

  /** A value together with one way of writing it down. */
  datatype Enc =
    | Unsigned(n: nat, w: Width)
    | Negative(n: nat, w: Width)            // -1 - n
    | ByteString(raw: bytes, w: Width)
    | TextString(s: string, w: Width)
    | List(items: seq<Enc>, w: Width)
    | OpenList(items: seq<Enc>)             // indefinite length
    | Dict(members: seq<Enc>, w: Width)     // key, value, key, value, ...
    | OpenDict(members: seq<Enc>)
    | Tagged(tag: nat, w: Width, content: Enc)
    | Flag(b: bool)
    | Nil
    | Code(n: nat, w: Width)                // any other simple value, or a float: the reader tells none apart
    | Break                                 // where an item is due, the break byte is one
    | NoNumber                              // an unsigned number without one
    | OpenTag(content: Enc)

  function Count(w: Width): nat {
    match w
    case Immediate => 0
    case One => 1
    case Two => 2
    case Four => 4
    case Eight => 8
  }

  function Limit(k: nat): nat {
    if k == 0 then 1 else 256 * Limit(k - 1)
  }

  predicate Fits(n: nat, w: Width) {
    n < if w.Immediate? then 24 else Limit(Count(w))
  }

  function Info(n: nat, w: Width): nat
    requires Fits(n, w)
  {
    match w
    case Immediate => n
    case One => 24
    case Two => 25
    case Four => 26
    case Eight => 27
  }

  function BigEndian(n: nat, k: nat): (r: bytes)
    ensures |r| == k
  {
    if k == 0 then [] else BigEndian(n / 256, k - 1) + [n % 256]
  }

  function HeadBytes(major: nat, n: nat, w: Width): (r: bytes)
    requires major < 8 && Fits(n, w)
    ensures |r| == 1 + Count(w)
  {
    [major * 32 + Info(n, w)] + BigEndian(n, Count(w))
  }

  // ---------------------------------------------------------------- bytes and meaning

  predicate Legal(e: Enc)
    decreases e, 0
  {
    match e
    case Unsigned(n, w) => Fits(n, w)
    case Negative(n, w) => Fits(n, w)
    case ByteString(raw, w) => Fits(|raw|, w)
    case TextString(s, w) => Fits(|Utf8.Encode(s)|, w)
    case List(items, w) => Fits(|items|, w) && AllLegal(items)
    case OpenList(items) => AllLegal(items) && NoBreaks(items)
    case Dict(members, w) => Fits(|members| / 2, w) && AllLegal(members) && KeysHashable(members)
    case OpenDict(members) => AllLegal(members) && KeysHashable(members) && NoBreakKeys(members)
    case Tagged(tag, w, content) => Fits(tag, w) && Legal(content)
    case Code(n, w) => Fits(n, w) && !(w.Immediate? && n in {20, 21, 22})
    case OpenTag(content) => Legal(content)
    case _ => true
  }

  predicate AllLegal(es: seq<Enc>)
    decreases es, 1
  {
    es == [] || (Legal(es[0]) && AllLegal(es[1..]))
  }

  /** Keys and values in turn, no key a list or a dict. */
  predicate KeysHashable(es: seq<Enc>)
    decreases es, 1
  {
    es == [] || (|es| >= 2 && !Meaning(es[0]).Array? && !Meaning(es[0]).Map? && KeysHashable(es[2..]))
  }

  predicate NoBreaks(es: seq<Enc>) {
    es == [] || (!es[0].Break? && NoBreaks(es[1..]))
  }

  predicate NoBreakKeys(es: seq<Enc>) {
    |es| < 2 || (!es[0].Break? && NoBreakKeys(es[2..]))
  }

  function Meaning(e: Enc): Value
    decreases e, 0
  {
    match e
    case Unsigned(n, _) => Integer(n)
    case Negative(n, _) => Integer(-1 - n)
    case ByteString(raw, _) => Bytes(raw)
    case TextString(s, _) => Text(s)
    case List(items, _) => Array(Meanings(items))
    case OpenList(items) => Array(Meanings(items))
    case Dict(members, _) => Map(Filled([], members))
    case OpenDict(members) => Map(Filled([], members))
    case Tagged(_, _, content) => Meaning(content)
    case Flag(b) => Boolean(b)
    case Nil => Null
    case Code(n, _) => Simple(Some(n))
    case Break => Simple(None)
    case NoNumber => Null
    case OpenTag(content) => Meaning(content)
  }

  function Meanings(es: seq<Enc>): seq<Value>
    decreases es, 1
  {
    if es == [] then [] else [Meaning(es[0])] + Meanings(es[1..])
  }

  /** A dict after the pairs are assigned into it one by one. */
  function Filled(out: seq<Entry>, es: seq<Enc>): seq<Entry>
    decreases es, 1
  {
    if |es| < 2 then out else Filled(Put(out, Meaning(es[0]), Meaning(es[1])), es[2..])
  }

  function Encoded(e: Enc): bytes
    requires Legal(e)
    decreases e, 0
  {
    match e
    case Unsigned(n, w) => HeadBytes(0, n, w)
    case Negative(n, w) => HeadBytes(1, n, w)
    case ByteString(raw, w) => HeadBytes(2, |raw|, w) + raw
    case TextString(s, w) => HeadBytes(3, |Utf8.Encode(s)|, w) + Utf8.Encode(s)
    case List(items, w) => HeadBytes(4, |items|, w) + EncodedAll(items)
    case OpenList(items) => [0x9F] + (EncodedAll(items) + [0xFF])
    case Dict(members, w) => HeadBytes(5, |members| / 2, w) + EncodedAll(members)
    case OpenDict(members) => [0xBF] + (EncodedAll(members) + [0xFF])
    case Tagged(tag, w, content) => HeadBytes(6, tag, w) + Encoded(content)
    case Flag(b) => [if b then 0xF5 else 0xF4]
    case Nil => [0xF6]
    case Code(n, w) => HeadBytes(7, n, w)
    case Break => [0xFF]
    case NoNumber => [0x1F]
    case OpenTag(content) => [0xDF] + Encoded(content)
  }

  function EncodedAll(es: seq<Enc>): bytes
    requires AllLegal(es)
    decreases es, 1
  {
    if es == [] then [] else Encoded(es[0]) + EncodedAll(es[1..])
  }

  // ---------------------------------------------------------------- reading a head back

  /** `e` stands in `b` at `i`. */
  predicate At(b: bytes, i: nat, e: bytes) {
    i + |e| <= |b| && b[i..i + |e|] == e
  }

  lemma AtParts(b: bytes, i: nat, e: bytes, f: bytes)
    ensures At(b, i, e + f) <==> At(b, i, e) && At(b, i + |e|, f)
  {
    if At(b, i, e + f) {
      assert b[i..i + |e|] == (e + f)[..|e|] == e;
      assert b[i + |e|..i + |e| + |f|] == (e + f)[|e|..] == f;
    }
    if At(b, i, e) && At(b, i + |e|, f) {
      assert b[i..i + |e + f|] == b[i..i + |e|] + b[i + |e|..i + |e| + |f|];
    }
  }

  lemma {:induction false} BigEndianRoundTrip(n: nat, k: nat)
    requires n < Limit(k)
    ensures FromBigEndian(BigEndian(n, k)) == n
  {
    if k > 0 {
      BigEndianRoundTrip(n / 256, k - 1);
      var r := BigEndian(n, k);
      assert r[..|r| - 1] == BigEndian(n / 256, k - 1) && r[|r| - 1] == n % 256;
    }
  }

  lemma SingleByte(n: nat)
    requires n < Limit(1)
    ensures n < 256 && BigEndian(n, 1) == [n]
  {
    assert BigEndian(n / 256, 0) == [];
  }

  lemma HeadRoundTrip(b: bytes, i: nat, major: nat, n: nat, w: Width)
    requires major < 8 && Fits(n, w) && At(b, i, HeadBytes(major, n, w))
    ensures ReadHead(b, i) == Ok(Head(major, Info(n, w), Some(n), i + 1 + Count(w)))
  {
    hide Limit, BigEndian, FromBigEndian;
    var first, k := [major * 32 + Info(n, w)], Count(w);
    AtParts(b, i, first, BigEndian(n, k));
    assert b[i] == b[i..i + 1][0] == first[0];
    if !w.Immediate? {
      BigEndianRoundTrip(n, k);
      assert Slice(b, i + 1, k) == BigEndian(n, k);
      if w.One? {
        SingleByte(n);
        assert b[i + 1] == b[i + 1..i + 2][0];
      }
    }
  }

  // ---------------------------------------------------------------- reading an item back

  /** No other item begins with the break byte. */
  lemma FirstByte(b: bytes, i: nat, e: Enc)
    requires Legal(e) && At(b, i, Encoded(e))
    ensures i < |b| && (b[i] == 0xFF <==> e.Break?)
    decreases e
  {
    assert b[i] == b[i..i + |Encoded(e)|][0];
  }

  /** One unfolding of the reader. */
  lemma DecodeStep(b: bytes, i: nat, h: Head)
    requires ReadHead(b, i) == Ok(h)
    ensures h.major !in {4, 5, 6} ==> Decode(b, i) == Leaf(b, h)
    ensures h.major == 6 ==> Decode(b, i) == Decode(b, h.next)
    ensures h.major == 4 ==>
              var out := if h.val.None? then ItemsToBreak(b, h.next, []) else Items(b, h.next, h.val.value, []);
              Decode(b, i) == if out.Ok? then Ok(Item(Array(out.value.0), out.value.1)) else Err(out.error)
    ensures h.major == 5 ==>
              var out := if h.val.None? then EntriesToBreak(b, h.next, []) else Entries(b, h.next, h.val.value, []);
              Decode(b, i) == if out.Ok? then Ok(Item(Map(out.value.0), out.value.1)) else Err(out.error)
  {
  }

  lemma OpenHead(b: bytes, i: nat, first: byte)
    requires At(b, i, [first]) && first in {0x1F, 0x9F, 0xBF, 0xDF, 0xF4, 0xF5, 0xF6, 0xFF}
    ensures ReadHead(b, i) == Ok(Head(first as int / 32, first as int % 32,
                                      if first as int % 32 == 31 then None else Some(first as int % 32), i + 1))
  {
    assert b[i] == b[i..i + 1][0];
  }

  predicate IsLeaf(e: Enc) {
    !e.List? && !e.OpenList? && !e.Dict? && !e.OpenDict? && !e.Tagged? && !e.OpenTag?
  }

  lemma StringRoundTrip(b: bytes, i: nat, major: nat, raw: bytes, w: Width)
    requires 2 <= major <= 3 && Fits(|raw|, w) && At(b, i, HeadBytes(major, |raw|, w) + raw)
    ensures var h := Head(major, Info(|raw|, w), Some(|raw|), i + 1 + Count(w));
            ReadHead(b, i) == Ok(h) && Slice(b, h.next, |raw|) == raw
  {
    AtParts(b, i, HeadBytes(major, |raw|, w), raw);
    HeadRoundTrip(b, i, major, |raw|, w);
  }

  lemma LeafRoundTrip(b: bytes, i: nat, e: Enc)
    requires IsLeaf(e) && Legal(e) && At(b, i, Encoded(e))
    ensures Decode(b, i) == Ok(Item(Meaning(e), i + |Encoded(e)|))
  {
    hide ReadHead, At, HeadBytes, Slice, Decode, Utf8.Encode, Utf8.Decode;
    match e
    case Unsigned(n, w) =>
      HeadRoundTrip(b, i, 0, n, w);
      DecodeStep(b, i, Head(0, Info(n, w), Some(n), i + 1 + Count(w)));
    case Negative(n, w) =>
      HeadRoundTrip(b, i, 1, n, w);
      DecodeStep(b, i, Head(1, Info(n, w), Some(n), i + 1 + Count(w)));
    case ByteString(raw, w) =>
      StringRoundTrip(b, i, 2, raw, w);
      DecodeStep(b, i, Head(2, Info(|raw|, w), Some(|raw|), i + 1 + Count(w)));
    case TextString(s, w) =>
      var raw := Utf8.Encode(s);
      StringRoundTrip(b, i, 3, raw, w);
      Utf8.DecodeEncoded(s);
      DecodeStep(b, i, Head(3, Info(|raw|, w), Some(|raw|), i + 1 + Count(w)));
    case Flag(f) =>
      OpenHead(b, i, if f then 0xF5 else 0xF4);
      DecodeStep(b, i, Head(7, if f then 21 else 20, Some(if f then 21 else 20), i + 1));
    case Nil =>
      OpenHead(b, i, 0xF6);
      DecodeStep(b, i, Head(7, 22, Some(22), i + 1));
    case Code(n, w) =>
      HeadRoundTrip(b, i, 7, n, w);
      DecodeStep(b, i, Head(7, Info(n, w), Some(n), i + 1 + Count(w)));
    case Break =>
      OpenHead(b, i, 0xFF);
      DecodeStep(b, i, Head(7, 31, None, i + 1));
    case NoNumber =>
      OpenHead(b, i, 0x1F);
      DecodeStep(b, i, Head(0, 31, None, i + 1));
  }

  /**
   Every encoding is self-delimiting and read back: wherever it stands, the reader returns the
   value it encodes, tags stripped, and the index of the byte after it.
   */
  lemma {:induction false} RoundTrip(b: bytes, i: nat, e: Enc)
    requires Legal(e) && At(b, i, Encoded(e))
    ensures Decode(b, i) == Ok(Item(Meaning(e), i + |Encoded(e)|))
    decreases e, 1
  {
    hide ReadHead, At, HeadBytes, Decode, Leaf, Items, ItemsToBreak, Entries, EntriesToBreak, Fits, Info, KeysHashable;
    match e
    case List(items, w) =>
      ListRoundTrip(b, i, items, w);
    case OpenList(items) =>
      OpenListRoundTrip(b, i, items);
    case Dict(members, w) =>
      DictRoundTrip(b, i, members, w);
    case OpenDict(members) =>
      OpenDictRoundTrip(b, i, members);
    case Tagged(tag, w, content) =>
      AtParts(b, i, HeadBytes(6, tag, w), Encoded(content));
      HeadRoundTrip(b, i, 6, tag, w);
      RoundTrip(b, i + 1 + Count(w), content);
      DecodeStep(b, i, Head(6, Info(tag, w), Some(tag), i + 1 + Count(w)));
    case OpenTag(content) =>
      AtParts(b, i, [0xDF], Encoded(content));
      OpenHead(b, i, 0xDF);
      RoundTrip(b, i + 1, content);
      DecodeStep(b, i, Head(6, 31, None, i + 1));
    case _ =>
      LeafRoundTrip(b, i, e);
  }

  lemma {:induction false} ListRoundTrip(b: bytes, i: nat, items: seq<Enc>, w: Width)
    requires Legal(List(items, w)) && At(b, i, Encoded(List(items, w)))
    ensures Decode(b, i) == Ok(Item(Array(Meanings(items)), i + |Encoded(List(items, w))|))
    decreases items, 3
  {
    hide ReadHead, At, HeadBytes, Decode, Items, Fits, Info, AllLegal, Meanings;
    AtParts(b, i, HeadBytes(4, |items|, w), EncodedAll(items));
    HeadRoundTrip(b, i, 4, |items|, w);
    ItemsRoundTrip(b, i + 1 + Count(w), items, []);
    assert [] + Meanings(items) == Meanings(items);
    DecodeStep(b, i, Head(4, Info(|items|, w), Some(|items|), i + 1 + Count(w)));
  }

  lemma {:induction false} OpenListRoundTrip(b: bytes, i: nat, items: seq<Enc>)
    requires Legal(OpenList(items)) && At(b, i, Encoded(OpenList(items)))
    ensures Decode(b, i) == Ok(Item(Array(Meanings(items)), i + |Encoded(OpenList(items))|))
    decreases items, 3
  {
    hide ReadHead, At, Decode, ItemsToBreak, AllLegal, NoBreaks, Meanings;
    AtParts(b, i, [0x9F], EncodedAll(items) + [0xFF]);
    AtParts(b, i + 1, EncodedAll(items), [0xFF]);
    OpenHead(b, i, 0x9F);
    OpenItemsRoundTrip(b, i + 1, items, []);
    assert [] + Meanings(items) == Meanings(items);
    DecodeStep(b, i, Head(4, 31, None, i + 1));
  }

  lemma {:induction false} DictRoundTrip(b: bytes, i: nat, members: seq<Enc>, w: Width)
    requires Legal(Dict(members, w)) && At(b, i, Encoded(Dict(members, w)))
    ensures Decode(b, i) == Ok(Item(Map(Filled([], members)), i + |Encoded(Dict(members, w))|))
    decreases members, 3
  {
    hide ReadHead, At, HeadBytes, Decode, Entries, Fits, Info, KeysHashable, AllLegal, Filled;
    AtParts(b, i, HeadBytes(5, |members| / 2, w), EncodedAll(members));
    HeadRoundTrip(b, i, 5, |members| / 2, w);
    EntriesRoundTrip(b, i + 1 + Count(w), members, []);
    DecodeStep(b, i, Head(5, Info(|members| / 2, w), Some(|members| / 2), i + 1 + Count(w)));
  }

  lemma {:induction false} OpenDictRoundTrip(b: bytes, i: nat, members: seq<Enc>)
    requires Legal(OpenDict(members)) && At(b, i, Encoded(OpenDict(members)))
    ensures Decode(b, i) == Ok(Item(Map(Filled([], members)), i + |Encoded(OpenDict(members))|))
    decreases members, 3
  {
    hide ReadHead, At, Decode, EntriesToBreak, KeysHashable, AllLegal, Filled;
    AtParts(b, i, [0xBF], EncodedAll(members) + [0xFF]);
    AtParts(b, i + 1, EncodedAll(members), [0xFF]);
    OpenHead(b, i, 0xBF);
    OpenEntriesRoundTrip(b, i + 1, members, []);
    DecodeStep(b, i, Head(5, 31, None, i + 1));
  }

  lemma {:induction false} ItemsRoundTrip(b: bytes, i: nat, es: seq<Enc>, out: seq<Value>)
    requires AllLegal(es) && At(b, i, EncodedAll(es))
    ensures Items(b, i, |es|, out) == Ok((out + Meanings(es), i + |EncodedAll(es)|))
    decreases es, 1
  {
    hide At, Encoded, Meaning, Legal, Decode;
    if es == [] {
      assert out + [] == out;
    } else {
      AtParts(b, i, Encoded(es[0]), EncodedAll(es[1..]));
      RoundTrip(b, i, es[0]);
      ItemsRoundTrip(b, i + |Encoded(es[0])|, es[1..], out + [Meaning(es[0])]);
      assert out + [Meaning(es[0])] + Meanings(es[1..]) == out + Meanings(es);
    }
  }

  lemma {:induction false} OpenItemsRoundTrip(b: bytes, i: nat, es: seq<Enc>, out: seq<Value>)
    requires AllLegal(es) && NoBreaks(es) && At(b, i, EncodedAll(es)) && At(b, i + |EncodedAll(es)|, [0xFF])
    ensures ItemsToBreak(b, i, out) == Ok((out + Meanings(es), i + |EncodedAll(es)| + 1))
    decreases es, 1
  {
    hide At, Encoded, Meaning, Legal, Decode;
    if es == [] {
      assert out + [] == out;
      BreakByte(b, i);
    } else {
      AtParts(b, i, Encoded(es[0]), EncodedAll(es[1..]));
      FirstByte(b, i, es[0]);
      RoundTrip(b, i, es[0]);
      OpenItemsStep(b, i, out);
      hide ItemsToBreak;
      OpenItemsRoundTrip(b, i + |Encoded(es[0])|, es[1..], out + [Meaning(es[0])]);
      assert out + [Meaning(es[0])] + Meanings(es[1..]) == out + Meanings(es);
    }
  }

  lemma OpenItemsStep(b: bytes, i: nat, out: seq<Value>)
    requires i < |b| && b[i] != 0xFF && Decode(b, i).Ok?
    ensures ItemsToBreak(b, i, out) == ItemsToBreak(b, Decode(b, i).value.next, out + [Decode(b, i).value.value])
  {
    hide Decode;
  }

  lemma BreakByte(b: bytes, i: nat)
    requires At(b, i, [0xFF])
    ensures i < |b| && b[i] == 0xFF
  {
    assert b[i] == b[i..i + 1][0];
  }

  lemma TwoMore(es: seq<Enc>)
    requires AllLegal(es) && |es| >= 2
    ensures Legal(es[0]) && Legal(es[1]) && AllLegal(es[2..])
    ensures EncodedAll(es) == Encoded(es[0]) + (Encoded(es[1]) + EncodedAll(es[2..]))
  {
    hide Encoded, Legal;
    assert es[1..][0] == es[1] && es[1..][1..] == es[2..];
  }

  /** A pair stands at `i`: the reader assigns it and moves past it. */
  lemma PairRoundTrip(b: bytes, i: nat, es: seq<Enc>, out: seq<Entry>) returns (j: nat)
    requires AllLegal(es) && |es| >= 2 && !Meaning(es[0]).Array? && !Meaning(es[0]).Map? && At(b, i, EncodedAll(es))
    ensures Pair(b, i, out) == Ok((Put(out, Meaning(es[0]), Meaning(es[1])), j))
    ensures AllLegal(es[2..]) && At(b, j, EncodedAll(es[2..])) && j + |EncodedAll(es[2..])| == i + |EncodedAll(es)|
    ensures i < |b| && (b[i] == 0xFF <==> es[0].Break?)
    decreases es, 1
  {
    hide At, Encoded, Meaning, Legal, Decode, EncodedAll;
    TwoMore(es);
    var k := i + |Encoded(es[0])|;
    j := k + |Encoded(es[1])|;
    AtParts(b, i, Encoded(es[0]), Encoded(es[1]) + EncodedAll(es[2..]));
    AtParts(b, k, Encoded(es[1]), EncodedAll(es[2..]));
    FirstByte(b, i, es[0]);
    RoundTrip(b, i, es[0]);
    RoundTrip(b, k, es[1]);
  }

  lemma {:induction false} EntriesRoundTrip(b: bytes, i: nat, es: seq<Enc>, out: seq<Entry>)
    requires AllLegal(es) && KeysHashable(es) && At(b, i, EncodedAll(es))
    ensures Entries(b, i, |es| / 2, out) == Ok((Filled(out, es), i + |EncodedAll(es)|))
    decreases es, 2
  {
    hide At, Pair, Meaning, AllLegal;
    if es != [] {
      var j := PairRoundTrip(b, i, es, out);
      hide EncodedAll;
      EntriesRoundTrip(b, j, es[2..], Put(out, Meaning(es[0]), Meaning(es[1])));
      assert |es[2..]| / 2 == |es| / 2 - 1;
    }
  }

  lemma {:induction false} OpenEntriesRoundTrip(b: bytes, i: nat, es: seq<Enc>, out: seq<Entry>)
    requires AllLegal(es) && KeysHashable(es) && NoBreakKeys(es) && At(b, i, EncodedAll(es)) && At(b, i + |EncodedAll(es)|, [0xFF])
    ensures EntriesToBreak(b, i, out) == Ok((Filled(out, es), i + |EncodedAll(es)| + 1))
    decreases es, 2
  {
    hide At, Pair, Meaning, AllLegal;
    if es == [] {
      BreakByte(b, i);
    } else {
      var j := PairRoundTrip(b, i, es, out);
      hide EncodedAll;
      OpenEntriesRoundTrip(b, j, es[2..], Put(out, Meaning(es[0]), Meaning(es[1])));
    }
  }

  // ---------------------------------------------------------------- maps, as they were written

  /** The members of a dict, as they were written. */
  function Written(es: seq<Enc>): seq<Entry> {
    if |es| < 2 then [] else [Entry(Meaning(es[0]), Meaning(es[1]))] + Written(es[2..])
  }

  /** No two keys are equal to Python, for which true is 1 and false is 0. */
  ghost predicate DistinctKeys(entries: seq<Entry>) {
    forall i, j :: 0 <= i < j < |entries| ==> KeyOf(entries[i].key) != KeyOf(entries[j].key)
  }

  lemma {:induction false} PutKeeps(out: seq<Entry>, k: Value, v: Value)
    ensures if forall i :: 0 <= i < |out| ==> KeyOf(out[i].key) != KeyOf(k)
            then Put(out, k, v) == out + [Entry(k, v)]
            else |Put(out, k, v)| == |out|
  {
    if out != [] && KeyOf(out[0].key) != KeyOf(k) {
      PutKeeps(out[1..], k, v);
      assert out[1..] + [Entry(k, v)] == (out + [Entry(k, v)])[1..];
      if i :| 0 <= i < |out[1..]| && KeyOf(out[1..][i].key) == KeyOf(k) {
        assert KeyOf(out[i + 1].key) == KeyOf(k);
      }
    }
  }

  function Found(out: seq<Entry>, k: Value): Option<Value> {
    if out == [] then None
    else if KeyOf(out[0].key) == KeyOf(k) then Some(out[0].value)
    else Found(out[1..], k)
  }

  /** Assignment: the key leads to the new value, and other keys to theirs. */
  lemma {:induction false} PutAssigns(out: seq<Entry>, k: Value, v: Value, q: Value)
    ensures Found(Put(out, k, v), q) == if KeyOf(q) == KeyOf(k) then Some(v) else Found(out, q)
  {
    hide KeyOf;
    if out != [] && KeyOf(out[0].key) != KeyOf(k) {
      PutAssigns(out[1..], k, v, q);
      assert Put(out, k, v)[1..] == Put(out[1..], k, v);
    } else if out != [] {
      assert Put(out, k, v)[1..] == out[1..];
    }
  }

  /** Keys keep their places and spellings, and a new one comes last. */
  lemma {:induction false} PutKeepsKeys(out: seq<Entry>, k: Value, v: Value)
    ensures |Put(out, k, v)| == if Found(out, k).Some? then |out| else |out| + 1
    ensures forall i :: 0 <= i < |out| ==> Put(out, k, v)[i].key == out[i].key
    ensures Found(out, k).None? ==> Put(out, k, v)[|out|].key == k
  {
    hide KeyOf;
    if out != [] && KeyOf(out[0].key) != KeyOf(k) {
      PutKeepsKeys(out[1..], k, v);
      var rest := Put(out[1..], k, v);
      assert Put(out, k, v) == [out[0]] + rest;
      assert forall i :: 0 < i < |out| ==> Put(out, k, v)[i] == rest[i - 1] && out[i] == out[1..][i - 1];
    }
  }

  lemma {:induction false} FilledNeverGrows(out: seq<Entry>, es: seq<Enc>)
    ensures |Filled(out, es)| <= |out| + |Written(es)|
    decreases |es|
  {
    if |es| >= 2 {
      PutKeeps(out, Meaning(es[0]), Meaning(es[1]));
      FilledNeverGrows(Put(out, Meaning(es[0]), Meaning(es[1])), es[2..]);
    }
  }

  lemma OneKeyMore(out: seq<Entry>, e: Entry)
    requires DistinctKeys(out) && forall i :: 0 <= i < |out| ==> KeyOf(out[i].key) != KeyOf(e.key)
    ensures DistinctKeys(out + [e])
  {
  }

  lemma RepeatedKey(entries: seq<Entry>, i: nat, j: nat)
    requires i < j < |entries| && KeyOf(entries[i].key) == KeyOf(entries[j].key)
    ensures !DistinctKeys(entries)
  {
  }

  /** A key that is there already: the dict does not grow by it. */
  lemma RepeatedIsLost(out: seq<Entry>, es: seq<Enc>)
    requires |es| >= 2 && exists i :: 0 <= i < |out| && KeyOf(out[i].key) == KeyOf(Meaning(es[0]))
    ensures !DistinctKeys(out + Written(es)) && |Filled(out, es)| < |out| + |Written(es)|
  {
    hide Meaning, Put, DistinctKeys;
    var k, v := Meaning(es[0]), Meaning(es[1]);
    var whole := out + Written(es);
    PutKeeps(out, k, v);
    var i :| 0 <= i < |out| && KeyOf(out[i].key) == KeyOf(k);
    assert whole[i] == out[i] && whole[|out|] == Entry(k, v);
    RepeatedKey(whole, i, |out|);
    FilledNeverGrows(Put(out, k, v), es[2..]);
  }

  lemma PairUnfolds(out: seq<Entry>, es: seq<Enc>)
    ensures |es| < 2 ==> Filled(out, es) == out && Written(es) == []
    ensures |es| >= 2 ==>
              && Filled(out, es) == Filled(Put(out, Meaning(es[0]), Meaning(es[1])), es[2..])
              && Written(es) == [Entry(Meaning(es[0]), Meaning(es[1]))] + Written(es[2..])
  {
    hide Meaning, Put;
  }

  lemma {:induction false} FilledIsWritten(out: seq<Entry>, es: seq<Enc>)
    requires DistinctKeys(out)
    ensures DistinctKeys(out + Written(es)) ==> Filled(out, es) == out + Written(es)
    ensures !DistinctKeys(out + Written(es)) ==> |Filled(out, es)| < |out| + |Written(es)|
    decreases |es|
  {
    hide *;
    PairUnfolds(out, es);
    if |es| < 2 {
      assert out + [] == out;
    } else {
      var e := Entry(Meaning(es[0]), Meaning(es[1]));
      if forall i :: 0 <= i < |out| ==> KeyOf(out[i].key) != KeyOf(e.key) {
        PutKeeps(out, e.key, e.value);
        OneKeyMore(out, e);
        FilledIsWritten(out + [e], es[2..]);
        assert out + [e] + Written(es[2..]) == out + ([e] + Written(es[2..]));
      } else {
        RepeatedIsLost(out, es);
      }
    }
  }

  /** A map comes back member for member exactly when its keys are distinct as Python compares them. */
  lemma MapRoundTrip(b: bytes, i: nat, e: Enc)
    requires (e.Dict? || e.OpenDict?) && Legal(e) && At(b, i, Encoded(e))
    ensures Decode(b, i) == Ok(Item(Map(Written(e.members)), i + |Encoded(e)|)) <==> DistinctKeys(Written(e.members))
  {
    hide *;
    RoundTrip(b, i, e);
    MapMeans(e);
    NoKeys();
    FilledIsWritten([], e.members);
    assert [] + Written(e.members) == Written(e.members);
  }

  lemma MapMeans(e: Enc)
    requires e.Dict? || e.OpenDict?
    ensures Meaning(e) == Map(Filled([], e.members))
  {
    hide Filled;
  }

  lemma NoKeys()
    ensures DistinctKeys([])
  {
  }
}
