/** Exactly what the CBOR reader accepts, and as what. */
module CborLanguage {
  import opened Wrappers
  import opened Hashing
  import opened Cbor
  import opened CborEncoding
  import Utf8

  // Wherever the reader stays inside its input, what it has read is an encoding of the value it returns, and
  // every encoding is read so.

  /** An encoding of `v` stands in `b` from `i` to `next`. */
  ghost predicate StandsFor(b: bytes, i: nat, e: Enc, v: Value, next: nat) {
    Legal(e) && At(b, i, Encoded(e)) && Meaning(e) == v && next == i + |Encoded(e)|
  }

  // ---------------------------------------------------------------- heads

  lemma {:induction false} DigitsBack(s: bytes)
    ensures BigEndian(FromBigEndian(s), |s|) == s && FromBigEndian(s) < Limit(|s|)
  {
    if s != [] {
      var n := |s| - 1;
      DigitsBack(s[..n]);
      assert s == s[..n] + [s[n]];
    }
  }

  lemma SliceAt(b: bytes, i: nat, n: nat)
    requires i + n <= |b|
    ensures Slice(b, i, n) == b[i..i + n] && |Slice(b, i, n)| == n && At(b, i, Slice(b, i, n))
  {
  }

  lemma ByteAt(b: bytes, i: nat, x: byte)
    requires i < |b| && b[i] == x
    ensures At(b, i, [x])
  {
  }

  function WidthOf(info: nat): Width {
    if info == 24 then One else if info == 25 then Two else if info == 26 then Four else if info == 27 then Eight else Immediate
  }

  lemma HeadParts(b: bytes, i: nat)
    requires ReadHead(b, i).Ok? && ReadHead(b, i).value.val.Some?
    ensures var h := ReadHead(b, i).value; var n, w := h.val.value, WidthOf(h.info);
            && i < |b| && b[i] == h.major * 32 + h.info && h.major < 8 && h.info < 28 && h.next == i + 1 + Count(w)
            && (w.Immediate? ==> n == h.info < 24)
            && (w.One? ==> i + 1 < |b| && n == b[i + 1])
            && (!w.Immediate? && !w.One? ==> n == FromBigEndian(Slice(b, i + 1, Count(w))))
  {
    hide Slice, FromBigEndian;
  }

  lemma HeadNumber(b: bytes, i: nat, n: nat, w: Width)
    requires i + 1 + Count(w) <= |b| && !w.Immediate?
    requires if w.One? then n == b[i + 1] else n == FromBigEndian(Slice(b, i + 1, Count(w)))
    ensures n < Limit(Count(w)) && At(b, i + 1, BigEndian(n, Count(w)))
  {
    var k := Count(w);
    SliceAt(b, i + 1, k);
    DigitsBack(Slice(b, i + 1, k));
    if w.One? {
      assert b[i + 1..i + 1 + 1] == [b[i + 1]];
      OneDigit(b[i + 1]);
    }
    hide Limit, BigEndian, FromBigEndian, Slice, At;
  }

  /** A head inside the input is one that is written so. */
  lemma HeadBack(b: bytes, i: nat) returns (w: Width)
    requires ReadHead(b, i).Ok? && ReadHead(b, i).value.val.Some? && ReadHead(b, i).value.next <= |b|
    ensures var h := ReadHead(b, i).value; var n := h.val.value;
            && h.major < 8 && Fits(n, w) && h.info == Info(n, w) && h.next == i + 1 + Count(w) && At(b, i, HeadBytes(h.major, n, w))
  {
    HeadParts(b, i);
    var h := ReadHead(b, i).value;
    var n := h.val.value;
    w := WidthOf(h.info);
    hide ReadHead, Limit, FromBigEndian, Slice;
    ByteAt(b, i, h.major * 32 + h.info);
    if w.Immediate? {
      assert BigEndian(n, 0) == [];
      assert HeadBytes(h.major, n, w) == [h.major * 32 + h.info];
    } else {
      hide BigEndian;
      HeadNumber(b, i, n, w);
      AtParts(b, i, [h.major * 32 + h.info], BigEndian(n, Count(w)));
    }
  }

  lemma OneDigit(x: byte)
    ensures FromBigEndian([x]) == x
  {
    assert [x][..0] == [];
  }

  // ---------------------------------------------------------------- items

  lemma LeafBack(b: bytes, i: nat) returns (e: Enc)
    requires ReadHead(b, i).Ok? && ReadHead(b, i).value.major !in {4, 5, 6}
    requires Leaf(b, ReadHead(b, i).value).Ok? && Leaf(b, ReadHead(b, i).value).value.next <= |b|
    ensures var r := Leaf(b, ReadHead(b, i).value).value; StandsFor(b, i, e, r.value, r.next)
  {
    var h := ReadHead(b, i).value;
    var r := Leaf(b, h).value;
    assert r.next >= h.next;
    if h.val.None? {
      NoNumberHead(b, i);
      e := if h.major == 0 then NoNumber else Break;
      ByteAt(b, i, h.major * 32 + 31);
    } else {
      var w := HeadBack(b, i);
      var n := h.val.value;
      hide ReadHead, HeadBytes, Fits, At;
      if h.major == 0 {
        e := Unsigned(n, w);
      } else if h.major == 1 {
        e := Negative(n, w);
      } else if h.major == 7 {
        e := CodeBack(b, i, w);
      } else {
        e := StringBack(b, i, w);
      }
    }
  }

  lemma NoNumberHead(b: bytes, i: nat)
    requires ReadHead(b, i).Ok? && ReadHead(b, i).value.val.None?
    ensures var h := ReadHead(b, i).value; h.info == 31 && h.next == i + 1 && i < |b| && h.major < 8 && b[i] == h.major * 32 + 31
  {
  }

  lemma CodeBack(b: bytes, i: nat, w: Width) returns (e: Enc)
    requires ReadHead(b, i).Ok? && ReadHead(b, i).value.val.Some? && ReadHead(b, i).value.major == 7
    requires var h := ReadHead(b, i).value; var n := h.val.value;
             Fits(n, w) && h.info == Info(n, w) && h.next == i + 1 + Count(w) && At(b, i, HeadBytes(7, n, w))
    ensures var h := ReadHead(b, i).value; Leaf(b, h).Ok? && StandsFor(b, i, e, Leaf(b, h).value.value, Leaf(b, h).value.next)
  {
    var h := ReadHead(b, i).value;
    hide ReadHead;
    if h.info == 20 || h.info == 21 || h.info == 22 {
      assert HeadBytes(7, h.val.value, w) == [7 * 32 + h.info];
      e := if h.info == 22 then Nil else Flag(h.info == 21);
    } else {
      e := Code(h.val.value, w);
    }
  }

  lemma StringLeaf(b: bytes, h: Head)
    requires 2 <= h.major <= 3 && h.val.Some? && Leaf(b, h).Ok?
    ensures var raw, r := Slice(b, h.next, h.val.value), Leaf(b, h).value;
            && r.next == h.next + h.val.value
            && (h.major == 2 ==> r.value == Bytes(raw))
            && (h.major == 3 ==> Utf8.Decode(raw).Some? && r.value == Text(Utf8.Decode(raw).value))
  {
    hide Slice, Utf8.Decode;
  }

  lemma StringBack(b: bytes, i: nat, w: Width) returns (e: Enc)
    requires ReadHead(b, i).Ok? && ReadHead(b, i).value.val.Some? && 2 <= ReadHead(b, i).value.major <= 3
    requires var h := ReadHead(b, i).value; var n := h.val.value;
             && Fits(n, w) && h.info == Info(n, w) && h.next == i + 1 + Count(w) && At(b, i, HeadBytes(h.major, n, w))
             && Leaf(b, h).Ok? && Leaf(b, h).value.next <= |b|
    ensures var h := ReadHead(b, i).value; StandsFor(b, i, e, Leaf(b, h).value.value, Leaf(b, h).value.next)
  {
    hide *;
    var h := ReadHead(b, i).value;
    var raw := Slice(b, h.next, h.val.value);
    StringLeaf(b, h);
    SliceAt(b, h.next, h.val.value);
    AtParts(b, i, HeadBytes(h.major, |raw|, w), raw);
    if h.major == 2 {
      e := ByteString(raw, w);
      BytesStand(b, i, raw, w);
    } else {
      var s := Utf8.Decode(raw).value;
      e := TextString(s, w);
      TextStands(b, i, raw, s, w);
    }
  }

  lemma BytesStand(b: bytes, i: nat, raw: bytes, w: Width)
    requires Fits(|raw|, w) && At(b, i, HeadBytes(2, |raw|, w) + raw)
    ensures StandsFor(b, i, ByteString(raw, w), Bytes(raw), i + 1 + Count(w) + |raw|)
  {
    hide At, HeadBytes, Fits;
  }

  lemma TextStands(b: bytes, i: nat, raw: bytes, s: string, w: Width)
    requires Fits(|raw|, w) && At(b, i, HeadBytes(3, |raw|, w) + raw) && Utf8.Decode(raw) == Some(s)
    ensures StandsFor(b, i, TextString(s, w), Text(s), i + 1 + Count(w) + |raw|)
  {
    hide At, HeadBytes, Fits, Utf8.Decode, Utf8.Encode;
    Utf8.DecodesExactlyTheEncoded(raw, s);
  }

  // ---------------------------------------------------------------- what holds other items

  /** What the head `h` at `i` is followed by stands there, in the one encoding or the other. */
  lemma HeadThen(b: bytes, i: nat, h: Head, rest: bytes) returns (w: Width)
    requires ReadHead(b, i) == Ok(h) && h.next <= |b| && At(b, h.next, rest)
    ensures h.major < 8
    ensures h.val.None? ==> h.next == i + 1 && At(b, i, [h.major * 32 + 31] + rest)
    ensures h.val.Some? ==> Fits(h.val.value, w) && h.next == i + 1 + Count(w) && At(b, i, HeadBytes(h.major, h.val.value, w) + rest)
  {
    if h.val.None? {
      NoNumberHead(b, i);
      ByteAt(b, i, h.major * 32 + 31);
      w := Immediate;
      hide ReadHead, At;
      AtParts(b, i, [h.major * 32 + 31], rest);
    } else {
      w := HeadBack(b, i);
      hide ReadHead, At, HeadBytes, Fits;
      AtParts(b, i, HeadBytes(h.major, h.val.value, w), rest);
    }
  }

  lemma TagStands(b: bytes, i: nat, h: Head, content: Enc, v: Value, next: nat) returns (e: Enc)
    requires ReadHead(b, i) == Ok(h) && h.major == 6 && h.next <= |b| && StandsFor(b, h.next, content, v, next)
    ensures StandsFor(b, i, e, v, next)
  {
    hide ReadHead, At, HeadBytes, Fits;
    var w := HeadThen(b, i, h, Encoded(content));
    e := if h.val.None? then OpenTag(content) else Tagged(h.val.value, w, content);
  }

  lemma ListStands(b: bytes, i: nat, h: Head, es: seq<Enc>, next: nat) returns (e: Enc)
    requires ReadHead(b, i) == Ok(h) && h.major == 4 && h.next <= |b| && AllLegal(es) && At(b, h.next, EncodedAll(es))
    requires h.val.Some? ==> |es| == h.val.value && next == h.next + |EncodedAll(es)|
    requires h.val.None? ==> NoBreaks(es) && At(b, h.next + |EncodedAll(es)|, [0xFF]) && next == h.next + |EncodedAll(es)| + 1
    ensures StandsFor(b, i, e, Array(Meanings(es)), next)
  {
    hide ReadHead, At, HeadBytes, Fits, AllLegal, NoBreaks, EncodedAll, Meanings;
    AtParts(b, h.next, EncodedAll(es), [0xFF]);
    var w := HeadThen(b, i, h, if h.val.None? then EncodedAll(es) + [0xFF] else EncodedAll(es));
    e := if h.val.None? then OpenList(es) else List(es, w);
  }

  lemma DictStands(b: bytes, i: nat, h: Head, es: seq<Enc>, next: nat) returns (e: Enc)
    requires ReadHead(b, i) == Ok(h) && h.major == 5 && h.next <= |b| && AllLegal(es) && KeysHashable(es) && At(b, h.next, EncodedAll(es))
    requires h.val.Some? ==> |es| == 2 * h.val.value && next == h.next + |EncodedAll(es)|
    requires h.val.None? ==> NoBreakKeys(es) && At(b, h.next + |EncodedAll(es)|, [0xFF]) && next == h.next + |EncodedAll(es)| + 1
    ensures StandsFor(b, i, e, Map(Filled([], es)), next)
  {
    hide ReadHead, At, HeadBytes, Fits, AllLegal, KeysHashable, NoBreakKeys, EncodedAll, Filled;
    AtParts(b, h.next, EncodedAll(es), [0xFF]);
    var w := HeadThen(b, i, h, if h.val.None? then EncodedAll(es) + [0xFF] else EncodedAll(es));
    e := if h.val.None? then OpenDict(es) else Dict(es, w);
  }

  /** One item in front of those that follow it. */
  lemma OneMore(b: bytes, i: nat, e: Enc, v: Value, j: nat, es: seq<Enc>)
    requires StandsFor(b, i, e, v, j) && AllLegal(es) && At(b, j, EncodedAll(es))
    ensures var all := [e] + es;
            AllLegal(all) && At(b, i, EncodedAll(all)) && i + |EncodedAll(all)| == j + |EncodedAll(es)| && Meanings(all) == [v] + Meanings(es)
  {
    hide At, Encoded, Legal, Meaning;
    assert ([e] + es)[1..] == es;
    AtParts(b, i, Encoded(e), EncodedAll(es));
  }

  lemma NothingStands(b: bytes, i: nat, out: seq<Value>, dict: seq<Entry>)
    requires i <= |b|
    ensures AllLegal([]) && KeysHashable([]) && NoBreaks([]) && NoBreakKeys([]) && EncodedAll([]) == [] && At(b, i, EncodedAll([]))
    ensures out + Meanings([]) == out && Filled(dict, []) == dict
  {
  }

  lemma NoBreakMore(e: Enc, es: seq<Enc>)
    ensures NoBreaks([e] + es) <==> !e.Break? && NoBreaks(es)
  {
    assert ([e] + es)[1..] == es;
  }

  // ---------------------------------------------------------------- the reader, backwards

  lemma StepInto(b: bytes, i: nat, h: Head)
    requires ReadHead(b, i) == Ok(h)
    ensures i < |b| && Left(b, h.next) < Left(b, i)
  {
  }

  lemma {:induction false} Recovers(b: bytes, i: nat) returns (e: Enc)
    requires Decode(b, i).Ok? && Decode(b, i).value.next <= |b|
    ensures StandsFor(b, i, e, Decode(b, i).value.value, Decode(b, i).value.next)
    decreases Left(b, i), 0
  {
    assert ReadHead(b, i).Ok?;
    var h := ReadHead(b, i).value;
    DecodeStep(b, i, h);
    StepInto(b, i, h);
    hide ReadHead, Decode, StandsFor, At, Leaf, Left;
    if h.major == 4 {
      e := RecoversList(b, i, h);
    } else if h.major == 5 {
      e := RecoversDict(b, i, h);
    } else if h.major == 6 {
      var r := Decode(b, h.next).value;
      var content := Recovers(b, h.next);
      e := TagStands(b, i, h, content, r.value, r.next);
    } else {
      e := LeafBack(b, i);
    }
  }

  lemma {:induction false} RecoversList(b: bytes, i: nat, h: Head) returns (e: Enc)
    requires ReadHead(b, i) == Ok(h) && h.major == 4 && Left(b, h.next) < Left(b, i)
    requires var out := if h.val.None? then ItemsToBreak(b, h.next, []) else Items(b, h.next, h.val.value, []);
             out.Ok? && out.value.1 <= |b|
    ensures var out := if h.val.None? then ItemsToBreak(b, h.next, []) else Items(b, h.next, h.val.value, []);
            StandsFor(b, i, e, Array(out.value.0), out.value.1)
    decreases Left(b, h.next), 9
  {
    hide ReadHead, Decode, StandsFor, At, Left, Items, ItemsToBreak;
    var es;
    if h.val.None? {
      es := RecoversItemsToBreak(b, h.next, []);
      e := ListStands(b, i, h, es, ItemsToBreak(b, h.next, []).value.1);
    } else {
      es := RecoversItems(b, h.next, h.val.value, []);
      e := ListStands(b, i, h, es, Items(b, h.next, h.val.value, []).value.1);
    }
    assert [] + Meanings(es) == Meanings(es);
  }

  lemma {:induction false} RecoversDict(b: bytes, i: nat, h: Head) returns (e: Enc)
    requires ReadHead(b, i) == Ok(h) && h.major == 5 && Left(b, h.next) < Left(b, i)
    requires var out := if h.val.None? then EntriesToBreak(b, h.next, []) else Entries(b, h.next, h.val.value, []);
             out.Ok? && out.value.1 <= |b|
    ensures var out := if h.val.None? then EntriesToBreak(b, h.next, []) else Entries(b, h.next, h.val.value, []);
            StandsFor(b, i, e, Map(out.value.0), out.value.1)
    decreases Left(b, h.next), 9
  {
    hide ReadHead, Decode, StandsFor, At, Left, Entries, EntriesToBreak;
    if h.val.None? {
      var es := RecoversEntriesToBreak(b, h.next, []);
      e := DictStands(b, i, h, es, EntriesToBreak(b, h.next, []).value.1);
    } else {
      var es := RecoversEntries(b, h.next, h.val.value, []);
      e := DictStands(b, i, h, es, Entries(b, h.next, h.val.value, []).value.1);
    }
  }

  lemma ItemsStep(b: bytes, i: nat, n: nat, out: seq<Value>)
    requires n > 0 && Items(b, i, n, out).Ok?
    ensures Decode(b, i).Ok? && i < |b| && Left(b, Decode(b, i).value.next) < Left(b, i)
    ensures Items(b, i, n, out) == Items(b, Decode(b, i).value.next, n - 1, out + [Decode(b, i).value.value])
  {
    hide ReadHead, Leaf;
  }

  lemma {:induction false} RecoversItems(b: bytes, i: nat, n: nat, out: seq<Value>) returns (es: seq<Enc>)
    requires Items(b, i, n, out).Ok? && Items(b, i, n, out).value.1 <= |b|
    ensures var r := Items(b, i, n, out).value;
            |es| == n && AllLegal(es) && At(b, i, EncodedAll(es)) && r == (out + Meanings(es), i + |EncodedAll(es)|)
    decreases Left(b, i), 2
  {
    hide *;
    if n == 0 {
      es := [];
      NoItems(b, i, out);
      NothingStands(b, i, out, []);
    } else {
      ItemsStep(b, i, n, out);
      var v := Decode(b, i).value;
      var e := Recovers(b, i);
      var rest := RecoversItems(b, v.next, n - 1, out + [v.value]);
      OneMore(b, i, e, v.value, v.next, rest);
      es := [e] + rest;
      assert out + [v.value] + Meanings(rest) == out + ([v.value] + Meanings(rest));
    }
  }

  lemma NoItems(b: bytes, i: nat, out: seq<Value>)
    ensures Items(b, i, 0, out) == Ok((out, i))
  {
  }

  lemma ToBreakStep(b: bytes, i: nat, out: seq<Value>)
    requires ItemsToBreak(b, i, out).Ok?
    ensures i < |b|
    ensures b[i] == 0xFF ==> ItemsToBreak(b, i, out) == Ok((out, i + 1))
    ensures b[i] != 0xFF ==>
              && Decode(b, i).Ok? && Left(b, Decode(b, i).value.next) < Left(b, i)
              && ItemsToBreak(b, i, out) == ItemsToBreak(b, Decode(b, i).value.next, out + [Decode(b, i).value.value])
  {
    hide ReadHead, Leaf;
  }

  lemma NotABreak(b: bytes, i: nat, e: Enc, v: Value, next: nat)
    requires StandsFor(b, i, e, v, next)
    ensures i < |b| && (b[i] == 0xFF <==> e.Break?)
  {
    FirstByte(b, i, e);
  }

  lemma {:induction false} RecoversItemsToBreak(b: bytes, i: nat, out: seq<Value>) returns (es: seq<Enc>)
    requires ItemsToBreak(b, i, out).Ok? && ItemsToBreak(b, i, out).value.1 <= |b|
    ensures var r := ItemsToBreak(b, i, out).value;
            && AllLegal(es) && NoBreaks(es) && At(b, i, EncodedAll(es)) && At(b, i + |EncodedAll(es)|, [0xFF])
            && r == (out + Meanings(es), i + |EncodedAll(es)| + 1)
    decreases Left(b, i), 2
  {
    hide *;
    ToBreakStep(b, i, out);
    if b[i] == 0xFF {
      es := [];
      NothingStands(b, i, out, []);
      ByteAt(b, i, 0xFF);
    } else {
      var v := Decode(b, i).value;
      var e := Recovers(b, i);
      NotABreak(b, i, e, v.value, v.next);
      var rest := RecoversItemsToBreak(b, v.next, out + [v.value]);
      OneMore(b, i, e, v.value, v.next, rest);
      NoBreakMore(e, rest);
      es := [e] + rest;
      assert out + [v.value] + Meanings(rest) == out + ([v.value] + Meanings(rest));
    }
  }

  lemma PairStep(b: bytes, i: nat, out: seq<Entry>)
    requires Pair(b, i, out).Ok?
    ensures Decode(b, i).Ok? && i < |b| && Left(b, Decode(b, i).value.next) < Left(b, i)
    ensures var k := Decode(b, i).value;
            && Decode(b, k.next).Ok? && k.next < |b| && Left(b, Decode(b, k.next).value.next) < Left(b, k.next)
            && !k.value.Array? && !k.value.Map?
            && Pair(b, i, out) == Ok((Put(out, k.value, Decode(b, k.next).value.value), Decode(b, k.next).value.next))
  {
    hide ReadHead, Leaf;
  }

  /** A key and its value in front of those that follow. */
  lemma PairMore(b: bytes, i: nat, k: Enc, kv: Value, j: nat, e: Enc, v: Value, n: nat, es: seq<Enc>, out: seq<Entry>)
    requires StandsFor(b, i, k, kv, j) && StandsFor(b, j, e, v, n) && AllLegal(es) && At(b, n, EncodedAll(es))
    requires !kv.Array? && !kv.Map? && KeysHashable(es)
    ensures var all := [k, e] + es;
            && AllLegal(all) && KeysHashable(all) && At(b, i, EncodedAll(all)) && i + |EncodedAll(all)| == n + |EncodedAll(es)|
            && Filled(out, all) == Filled(Put(out, kv, v), es) && (NoBreakKeys(all) <==> !k.Break? && NoBreakKeys(es))
  {
    OneMore(b, j, e, v, n, es);
    OneMore(b, i, k, kv, j, [e] + es);
    hide At, Encoded, Legal, Put, EncodedAll;
    var all := [k, e] + es;
    assert [k] + ([e] + es) == all;
    assert all[2..] == es && all[0] == k && all[1] == e;
  }

  lemma EntriesStep(b: bytes, i: nat, n: nat, out: seq<Entry>)
    requires n > 0 && Entries(b, i, n, out).Ok?
    ensures Pair(b, i, out).Ok? && Entries(b, i, n, out) == Entries(b, Pair(b, i, out).value.1, n - 1, Pair(b, i, out).value.0)
  {
    hide Pair;
  }

  lemma EntriesToBreakStep(b: bytes, i: nat, out: seq<Entry>)
    requires EntriesToBreak(b, i, out).Ok?
    ensures i < |b|
    ensures b[i] == 0xFF ==> EntriesToBreak(b, i, out) == Ok((out, i + 1))
    ensures b[i] != 0xFF ==>
              Pair(b, i, out).Ok? && EntriesToBreak(b, i, out) == EntriesToBreak(b, Pair(b, i, out).value.1, Pair(b, i, out).value.0)
  {
    hide Pair;
  }

  lemma {:induction false} RecoversEntries(b: bytes, i: nat, n: nat, out: seq<Entry>) returns (es: seq<Enc>)
    requires Entries(b, i, n, out).Ok? && Entries(b, i, n, out).value.1 <= |b|
    ensures var r := Entries(b, i, n, out).value;
            |es| == 2 * n && AllLegal(es) && KeysHashable(es) && At(b, i, EncodedAll(es)) && r == (Filled(out, es), i + |EncodedAll(es)|)
    decreases Left(b, i), 2
  {
    hide *;
    if n == 0 {
      es := [];
      NoEntries(b, i, out);
      NothingStands(b, i, [], out);
    } else {
      EntriesStep(b, i, n, out);
      PairStep(b, i, out);
      var k := Decode(b, i).value;
      var v := Decode(b, k.next).value;
      var key := Recovers(b, i);
      var value := Recovers(b, k.next);
      var rest := RecoversEntries(b, v.next, n - 1, Put(out, k.value, v.value));
      PairMore(b, i, key, k.value, k.next, value, v.value, v.next, rest, out);
      es := [key, value] + rest;
    }
  }

  lemma NoEntries(b: bytes, i: nat, out: seq<Entry>)
    ensures Entries(b, i, 0, out) == Ok((out, i))
  {
  }

  lemma {:induction false} RecoversEntriesToBreak(b: bytes, i: nat, out: seq<Entry>) returns (es: seq<Enc>)
    requires EntriesToBreak(b, i, out).Ok? && EntriesToBreak(b, i, out).value.1 <= |b|
    ensures var r := EntriesToBreak(b, i, out).value;
            && AllLegal(es) && KeysHashable(es) && NoBreakKeys(es) && At(b, i, EncodedAll(es)) && At(b, i + |EncodedAll(es)|, [0xFF])
            && r == (Filled(out, es), i + |EncodedAll(es)| + 1)
    decreases Left(b, i), 2
  {
    hide *;
    EntriesToBreakStep(b, i, out);
    if b[i] == 0xFF {
      es := [];
      NothingStands(b, i, [], out);
      ByteAt(b, i, 0xFF);
    } else {
      PairStep(b, i, out);
      var k := Decode(b, i).value;
      var v := Decode(b, k.next).value;
      var key := Recovers(b, i);
      NotABreak(b, i, key, k.value, k.next);
      var value := Recovers(b, k.next);
      var rest := RecoversEntriesToBreak(b, v.next, Put(out, k.value, v.value));
      PairMore(b, i, key, k.value, k.next, value, v.value, v.next, rest, out);
      es := [key, value] + rest;
    }
  }

  /** Inside its input the reader accepts exactly the encodings, each as the value it encodes. */
  lemma ReadsExactlyEncodings(b: bytes, i: nat, v: Value, next: nat)
    requires next <= |b|
    ensures Decode(b, i) == Ok(Item(v, next)) <==> exists e :: StandsFor(b, i, e, v, next)
  {
    hide Decode, Legal, At, Encoded, Meaning;
    if Decode(b, i) == Ok(Item(v, next)) {
      var e := Recovers(b, i);
    }
    if e :| StandsFor(b, i, e, v, next) {
      RoundTrip(b, i, e);
    }
  }
}
