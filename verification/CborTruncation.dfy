/** What the CBOR reader makes of input that is cut short: which of its successes more bytes would change. */
module CborTruncation {
  import opened Wrappers
  import opened Hashing
  import opened Cbor
  import Utf8

  // ---------------------------------------------------------------- read within the input

  lemma SliceKept(b: bytes, i: nat, n: nat, rest: bytes)
    requires i + n <= |b|
    ensures Slice(b + rest, i, n) == Slice(b, i, n)
  {
  }

  lemma HeadKept(b: bytes, i: nat, rest: bytes)
    requires ReadHead(b, i).Ok? && ReadHead(b, i).value.next <= |b|
    ensures ReadHead(b + rest, i) == ReadHead(b, i)
  {
    hide Slice, FromBigEndian;
    var info, j := b[i] as int % 32, i + 1;
    var n := if info == 25 then 2 else if info == 26 then 4 else if info == 27 then 8 else 0;
    SliceKept(b, j, n, rest);
  }

  lemma LeafKept(b: bytes, h: Head, rest: bytes)
    requires h.major !in {4, 5, 6} && Leaf(b, h).Ok? && Leaf(b, h).value.next <= |b|
    ensures Leaf(b + rest, h) == Leaf(b, h)
  {
    hide Slice, Utf8.Decode;
    if 2 <= h.major <= 3 {
      SliceKept(b, h.next, h.val.value, rest);
    }
  }

  lemma {:induction false} DecodeKept(b: bytes, i: nat, rest: bytes)
    requires Decode(b, i).Ok? && Decode(b, i).value.next <= |b|
    ensures Decode(b + rest, i) == Decode(b, i)
    decreases Left(b, i), 0
  {
    hide ReadHead, Leaf, Items, ItemsToBreak, Entries, EntriesToBreak;
    var h := ReadHead(b, i).value;
    if h.major == 4 {
      HeadEndsFirst(b, i, h);
      HeadKept(b, i, rest);
      if h.val.None? {
        ItemsToBreakKept(b, h.next, [], rest);
      } else {
        ItemsKept(b, h.next, h.val.value, [], rest);
      }
    } else if h.major == 5 {
      HeadEndsFirst(b, i, h);
      HeadKept(b, i, rest);
      if h.val.None? {
        EntriesToBreakKept(b, h.next, [], rest);
      } else {
        EntriesKept(b, h.next, h.val.value, [], rest);
      }
    } else if h.major == 6 {
      HeadKept(b, i, rest);
      DecodeKept(b, h.next, rest);
    } else {
      LeafEndsLater(b, h);
      HeadKept(b, i, rest);
      LeafKept(b, h, rest);
    }
  }

  /** What an array or a map is read from ends where the array or the map does. */
  lemma HeadEndsFirst(b: bytes, i: nat, h: Head)
    requires Decode(b, i).Ok? && ReadHead(b, i) == Ok(h) && h.major in {4, 5}
    ensures h.next <= Decode(b, i).value.next
  {
    hide ReadHead, Items, ItemsToBreak, Entries, EntriesToBreak;
  }

  lemma LeafEndsLater(b: bytes, h: Head)
    requires h.major !in {4, 5, 6} && Leaf(b, h).Ok?
    ensures h.next <= Leaf(b, h).value.next
  {
    hide Slice, Utf8.Decode;
  }

  lemma {:induction false} ItemsKept(b: bytes, i: nat, n: nat, out: seq<Value>, rest: bytes)
    requires Items(b, i, n, out).Ok? && Items(b, i, n, out).value.1 <= |b|
    ensures Items(b + rest, i, n, out) == Items(b, i, n, out)
    decreases Left(b, i), 2
  {
    hide Decode;
    if n > 0 {
      var v := Decode(b, i).value;
      DecodeKept(b, i, rest);
      ItemsKept(b, v.next, n - 1, out + [v.value], rest);
    }
  }

  lemma {:induction false} ItemsToBreakKept(b: bytes, i: nat, out: seq<Value>, rest: bytes)
    requires ItemsToBreak(b, i, out).Ok? && ItemsToBreak(b, i, out).value.1 <= |b|
    ensures ItemsToBreak(b + rest, i, out) == ItemsToBreak(b, i, out)
    decreases Left(b, i), 2
  {
    hide Decode;
    if b[i] != 0xFF {
      var v := Decode(b, i).value;
      DecodeKept(b, i, rest);
      ItemsToBreakKept(b, v.next, out + [v.value], rest);
    }
  }

  lemma {:induction false} PairKept(b: bytes, i: nat, out: seq<Entry>, rest: bytes)
    requires Pair(b, i, out).Ok? && Pair(b, i, out).value.1 <= |b|
    ensures Pair(b + rest, i, out) == Pair(b, i, out)
    decreases Left(b, i), 1
  {
    hide Decode, Put;
    DecodeKept(b, i, rest);
    DecodeKept(b, Decode(b, i).value.next, rest);
  }

  lemma {:induction false} EntriesKept(b: bytes, i: nat, n: nat, out: seq<Entry>, rest: bytes)
    requires Entries(b, i, n, out).Ok? && Entries(b, i, n, out).value.1 <= |b|
    ensures Entries(b + rest, i, n, out) == Entries(b, i, n, out)
    decreases Left(b, i), 2
  {
    hide Pair;
    if n > 0 {
      var p := Pair(b, i, out).value;
      PairKept(b, i, out, rest);
      EntriesKept(b, p.1, n - 1, p.0, rest);
    }
  }

  lemma {:induction false} EntriesToBreakKept(b: bytes, i: nat, out: seq<Entry>, rest: bytes)
    requires EntriesToBreak(b, i, out).Ok? && EntriesToBreak(b, i, out).value.1 <= |b|
    ensures EntriesToBreak(b + rest, i, out) == EntriesToBreak(b, i, out)
    decreases Left(b, i), 2
  {
    hide Pair;
    if b[i] != 0xFF {
      var p := Pair(b, i, out).value;
      PairKept(b, i, out, rest);
      EntriesToBreakKept(b, p.1, p.0, rest);
    }
  }

  // ---------------------------------------------------------------- read past the end

  /** A head cut short reads as a smaller number than with one more byte that is not zero. */
  lemma HeadGrows(b: bytes, i: nat, c: byte)
    requires ReadHead(b, i).Ok? && ReadHead(b, i).value.next > |b| && c != 0
    ensures var h := ReadHead(b, i).value;
            && h.val.Some? && 25 <= h.info <= 27
            && ReadHead(b + [c], i) == Ok(h.(val := Some(h.val.value * 256 + c)))
  {
    hide FromBigEndian;
    var info, j := b[i] as int % 32, i + 1;
    var n := if info == 25 then 2 else if info == 26 then 4 else if info == 27 then 8 else 0;
    SliceGrows(b, j, n, c);
    LastDigit(Slice(b, j, n), c);
  }

  lemma SliceGrows(b: bytes, i: nat, n: nat, c: byte)
    requires i <= |b| < i + n
    ensures Slice(b + [c], i, n) == Slice(b, i, n) + [c]
  {
    assert Slice(b, i, n) == b[i..];
    assert Slice(b + [c], i, n) == (b + [c])[i..];
  }

  lemma LastDigit(b: bytes, c: byte)
    ensures FromBigEndian(b + [c]) == FromBigEndian(b) * 256 + c
  {
    assert (b + [c])[..|b|] == b;
  }

  lemma OtherText(raw: bytes, c: byte)
    requires Utf8.Decode(raw).Some? && Utf8.Decode(raw + [c]).Some?
    ensures Utf8.Decode(raw) != Utf8.Decode(raw + [c])
  {
    Utf8.EncodeDecoded(raw);
    Utf8.EncodeDecoded(raw + [c]);
  }

  /** A string cut short has one more byte to come. */
  lemma StringChanges(b: bytes, h: Head, c: byte)
    requires 2 <= h.major <= 3 && Leaf(b, h).Ok? && h.next <= |b| < Leaf(b, h).value.next
    ensures Leaf(b + [c], h) != Leaf(b, h)
  {
    hide Slice, Utf8.Decode;
    SliceGrows(b, h.next, h.val.value, c);
    var raw := Slice(b, h.next, h.val.value);
    if h.major == 3 && Utf8.Decode(raw + [c]).Some? {
      OtherText(raw, c);
    }
  }

  /** A head with a larger number gives another leaf. */
  lemma LargerLeaf(b: bytes, b': bytes, h: Head, n: nat)
    requires h.major !in {4, 5, 6} && 25 <= h.info && h.val.Some? && n > h.val.value && Leaf(b, h).Ok?
    ensures Leaf(b', h.(val := Some(n))) != Leaf(b, h)
  {
    hide Slice, Utf8.Decode;
  }

  lemma LeafChanges(b: bytes, i: nat, h: Head, c: byte)
    requires ReadHead(b, i) == Ok(h) && h.major !in {4, 5, 6} && c != 0
    requires Leaf(b, h).Ok? && Leaf(b, h).value.next > |b|
    ensures Decode(b + [c], i) != Decode(b, i)
  {
    hide ReadHead, Leaf;
    if h.next > |b| {
      HeadGrows(b, i, c);
      LargerLeaf(b, b + [c], h, h.val.value * 256 + c);
    } else {
      HeadKept(b, i, [c]);
      OnlyStringsGoOn(b, h);
      StringChanges(b, h, c);
    }
  }

  lemma OnlyStringsGoOn(b: bytes, h: Head)
    requires h.major !in {4, 5, 6} && Leaf(b, h).Ok? && Leaf(b, h).value.next != h.next
    ensures 2 <= h.major <= 3
  {
    hide Slice, Utf8.Decode;
  }

  lemma NothingPastTheEnd(b: bytes, i: nat)
    requires i >= |b|
    ensures Decode(b, i).Err?
  {
  }

  lemma NoItemsPastTheEnd(b: bytes, i: nat, n: nat, out: seq<Value>)
    requires i >= |b| && n > 0
    ensures Items(b, i, n, out).Err?
  {
    hide Decode;
    NothingPastTheEnd(b, i);
  }

  lemma NoEntriesPastTheEnd(b: bytes, i: nat, n: nat, out: seq<Entry>)
    requires i >= |b| && n > 0
    ensures Entries(b, i, n, out).Err?
  {
    hide Decode;
    NothingPastTheEnd(b, i);
  }

  /** What ends at a break byte ends within the input. */
  lemma {:induction false} BreakIsWithin(b: bytes, i: nat, out: seq<Value>)
    requires ItemsToBreak(b, i, out).Ok?
    ensures ItemsToBreak(b, i, out).value.1 <= |b|
    decreases Left(b, i)
  {
    hide Decode;
    if b[i] != 0xFF {
      var v := Decode(b, i).value;
      BreakIsWithin(b, v.next, out + [v.value]);
    }
  }

  lemma {:induction false} MapBreakIsWithin(b: bytes, i: nat, out: seq<Entry>)
    requires EntriesToBreak(b, i, out).Ok?
    ensures EntriesToBreak(b, i, out).value.1 <= |b|
    decreases Left(b, i)
  {
    hide Pair;
    if b[i] != 0xFF {
      var p := Pair(b, i, out).value;
      MapBreakIsWithin(b, p.1, p.0);
    }
  }

  /** One more byte that is not zero, and whatever was read past the end of the input is read otherwise or not at all. */
  lemma {:induction false} DecodeChanges(b: bytes, i: nat, c: byte)
    requires Decode(b, i).Ok? && Decode(b, i).value.next > |b| && c != 0
    ensures Decode(b + [c], i) != Decode(b, i)
    decreases Left(b, i), 0
  {
    hide ReadHead, Leaf, Items, ItemsToBreak, Entries, EntriesToBreak;
    var h := ReadHead(b, i).value;
    if h.major == 4 {
      ArrayChanges(b, i, h, c);
    } else if h.major == 5 {
      MapChanges(b, i, h, c);
    } else if h.major == 6 {
      HeadKept(b, i, [c]);
      DecodeChanges(b, h.next, c);
    } else {
      LeafChanges(b, i, h, c);
    }
  }

  lemma {:induction false} ArrayChanges(b: bytes, i: nat, h: Head, c: byte)
    requires Decode(b, i).Ok? && Decode(b, i).value.next > |b| && c != 0 && ReadHead(b, i) == Ok(h) && h.major == 4
    ensures Decode(b + [c], i) != Decode(b, i)
    decreases Left(b, h.next), 3
  {
    hide ReadHead, Items, ItemsToBreak;
    if h.next > |b| {
      HeadGrows(b, i, c);
      NoItemsPastTheEnd(b + [c], h.next, h.val.value * 256 + c, []);
    } else {
      HeadKept(b, i, [c]);
      if h.val.None? {
        BreakIsWithin(b, h.next, []);
      } else {
        ItemsChange(b, h.next, h.val.value, [], c);
      }
    }
  }

  lemma {:induction false} MapChanges(b: bytes, i: nat, h: Head, c: byte)
    requires Decode(b, i).Ok? && Decode(b, i).value.next > |b| && c != 0 && ReadHead(b, i) == Ok(h) && h.major == 5
    ensures Decode(b + [c], i) != Decode(b, i)
    decreases Left(b, h.next), 3
  {
    hide ReadHead, Entries, EntriesToBreak;
    if h.next > |b| {
      HeadGrows(b, i, c);
      NoEntriesPastTheEnd(b + [c], h.next, h.val.value * 256 + c, []);
    } else {
      HeadKept(b, i, [c]);
      if h.val.None? {
        MapBreakIsWithin(b, h.next, []);
      } else {
        EntriesChange(b, h.next, h.val.value, [], c);
      }
    }
  }

  lemma {:induction false} ItemsChange(b: bytes, i: nat, n: nat, out: seq<Value>, c: byte)
    requires i <= |b| && Items(b, i, n, out).Ok? && Items(b, i, n, out).value.1 > |b| && c != 0
    ensures Items(b + [c], i, n, out) != Items(b, i, n, out)
    decreases Left(b, i), 2
  {
    hide Decode;
    var v := Decode(b, i).value;
    if v.next <= |b| {
      DecodeKept(b, i, [c]);
      ItemsChange(b, v.next, n - 1, out + [v.value], c);
    } else {
      if n > 1 {
        NoItemsPastTheEnd(b, v.next, n - 1, out + [v.value]);
      }
      DecodeChanges(b, i, c);
      LastItem(b, i, out);
      LastItem(b + [c], i, out);
      var w := Decode(b + [c], i);
      if w.Ok? && out + [v.value] == out + [w.value.value] {
        assert (out + [v.value])[|out|] == (out + [w.value.value])[|out|];
      }
    }
  }

  lemma LastItem(b: bytes, i: nat, out: seq<Value>)
    ensures var v := Decode(b, i);
            Items(b, i, 1, out) == if v.Ok? then Ok((out + [v.value.value], v.value.next)) else Err(v.error)
  {
    hide Decode;
  }

  lemma {:induction false} PutApart(out: seq<Entry>, k: Value, v: Value, w: Value)
    requires Put(out, k, v) == Put(out, k, w)
    ensures v == w
  {
    hide KeyOf;
    if out == [] {
      assert [Entry(k, v)][0] == [Entry(k, w)][0];
    } else if KeyOf(out[0].key) == KeyOf(k) {
      assert Put(out, k, v)[0] == Put(out, k, w)[0];
    } else {
      assert Put(out, k, v)[1..] == Put(out[1..], k, v) && Put(out, k, w)[1..] == Put(out[1..], k, w);
      PutApart(out[1..], k, v, w);
    }
  }

  lemma {:induction false} PairChanges(b: bytes, i: nat, out: seq<Entry>, c: byte)
    requires Pair(b, i, out).Ok? && Pair(b, i, out).value.1 > |b| && c != 0
    ensures Pair(b + [c], i, out) != Pair(b, i, out)
    decreases Left(b, i), 1
  {
    hide Decode, Put;
    var k := Decode(b, i).value;
    DecodeKept(b, i, [c]);
    var v, w := Decode(b, k.next).value, Decode(b + [c], k.next);
    DecodeChanges(b, k.next, c);
    if w.Ok? && Put(out, k.value, v.value) == Put(out, k.value, w.value.value) {
      PutApart(out, k.value, v.value, w.value.value);
    }
  }

  lemma {:induction false} EntriesChange(b: bytes, i: nat, n: nat, out: seq<Entry>, c: byte)
    requires i <= |b| && Entries(b, i, n, out).Ok? && Entries(b, i, n, out).value.1 > |b| && c != 0
    ensures Entries(b + [c], i, n, out) != Entries(b, i, n, out)
    decreases Left(b, i), 2
  {
    hide Pair;
    var p := Pair(b, i, out).value;
    if p.1 <= |b| {
      PairKept(b, i, out, [c]);
      EntriesChange(b, p.1, n - 1, p.0, c);
    } else {
      if n > 1 {
        NoEntriesPastTheEnd(b, p.1, n - 1, p.0);
      }
      PairChanges(b, i, out, c);
      LastEntry(b, i, out);
      LastEntry(b + [c], i, out);
    }
  }

  lemma LastEntry(b: bytes, i: nat, out: seq<Entry>)
    ensures Entries(b, i, 1, out) == Pair(b, i, out)
  {
    hide Pair;
  }

  /** A success is final, whatever more bytes follow, exactly when the index returned is within the input. */
  lemma FinalIffWithin(b: bytes, i: nat)
    requires Decode(b, i).Ok?
    ensures (forall rest :: Decode(b + rest, i) == Decode(b, i)) <==> Decode(b, i).value.next <= |b|
  {
    hide Decode;
    if Decode(b, i).value.next <= |b| {
      forall rest {
        DecodeKept(b, i, rest);
      }
    } else {
      DecodeChanges(b, i, 1);
    }
  }

  /** A two-byte number with no byte of it there: read as zero, with the index past the end. */
  lemma TruncatedHeadIsRead()
    ensures Decode([25], 0) == Ok(Item(Integer(0), 3))
  {
    assert Slice([25], 1, 2) == [];
  }
}
