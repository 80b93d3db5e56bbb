/**
 UTF-8, strictly: what `bytes.decode("utf-8")` accepts and what `str.encode("utf-8")` writes.
 A `char` is a Unicode scalar value, so there are no surrogates to refuse on the way out.
 */
module Utf8 {
  import opened Wrappers
  import opened Hashing

  /** The last six bits of `n`, as a continuation byte. */
  function Tail(n: nat): byte {
    0x80 + n % 64
  }

  predicate Continues(b: byte) {
    0x80 <= b < 0xC0
  }

  function Payload(b: byte): nat
    requires Continues(b)
  {
    b as int - 0x80
  }

  function EncodeScalar(n: nat): (r: bytes)
    requires n < 0x11_0000
    ensures 1 <= |r| <= 4
  {
    if n < 0x80 then [n]
    else if n < 0x800 then [0xC0 + n / 64, Tail(n)]
    else if n < 0x1_0000 then [0xE0 + n / 4096, Tail(n / 64), Tail(n)]
    else [0xF0 + n / 262144, Tail(n / 4096), Tail(n / 64), Tail(n)]
  }

  function EncodeChar(c: char): bytes {
    EncodeScalar(c as int)
  }

  function Encode(s: string): bytes {
    if s == "" then [] else EncodeChar(s[0]) + Encode(s[1..])
  }

  /** How many bytes a character starting with `b` takes; 0 when none does. */
  function Width(b: byte): nat {
    if b < 0x80 then 1 else if b < 0xC0 then 0 else if b < 0xE0 then 2 else if b < 0xF0 then 3
    else if b < 0xF8 then 4 else 0
  }

  /** The number a lead byte and its continuation bytes spell, overlong or not. */
  function Spelled(b: bytes): Option<nat>
    requires b != []
  {
    var lead := b[0] as int;
    var w := Width(b[0]);
    if w == 0 || |b| < w || exists k :: 1 <= k < w && !Continues(b[k]) then None
    else if w == 1 then Some(lead)
    else if w == 2 then Some((lead - 0xC0) * 64 + Payload(b[1]))
    else if w == 3 then Some((lead - 0xE0) * 4096 + Payload(b[1]) * 64 + Payload(b[2]))
    else Some((lead - 0xF0) * 262144 + Payload(b[1]) * 4096 + Payload(b[2]) * 64 + Payload(b[3]))
  }

  predicate IsScalar(n: nat) {
    n < 0xD800 || 0xE000 <= n < 0x11_0000
  }

  /** The first character of `b`: a scalar value that no shorter form could hold. */
  function DecodeChar(b: bytes): Option<char>
    requires b != []
  {
    var n := Spelled(b);
    if n.Some? && IsScalar(n.value) && |EncodeScalar(n.value)| == Width(b[0]) then Some(n.value as char) else None
  }

  lemma SpelledIsEncoded(b: bytes)
    requires b != [] && Spelled(b).Some? && Spelled(b).value < 0x11_0000
    requires |EncodeScalar(Spelled(b).value)| == Width(b[0])
    ensures EncodeScalar(Spelled(b).value) <= b
  {
    var n, w, lead := Spelled(b).value, Width(b[0]), b[0] as int;
    if w == 2 {
      Digits(0, 0, lead - 0xC0, Payload(b[1]));
    } else if w == 3 {
      Digits(0, lead - 0xE0, Payload(b[1]), Payload(b[2]));
    } else if w == 4 {
      Digits(lead - 0xF0, Payload(b[1]), Payload(b[2]), Payload(b[3]));
    }
    hide Spelled;
    assert forall k :: 0 <= k < w ==> EncodeScalar(n)[k] == b[k];
  }

  lemma Digits(p: nat, q: nat, r: nat, s: nat)
    requires q < 64 && r < 64 && s < 64
    ensures var n := p * 262144 + q * 4096 + r * 64 + s;
            n % 64 == s && n / 64 % 64 == r && n / 4096 % 64 == q && n / 262144 == p
            && n / 64 == p * 4096 + q * 64 + r && n / 4096 == p * 64 + q
  {
    var n := p * 262144 + q * 4096 + r * 64 + s;
    LastOf64(n, p * 4096 + q * 64 + r, s);
    LastOf64(p * 4096 + q * 64 + r, p * 64 + q, r);
    LastOf64(p * 64 + q, p, q);
    LastOf4096(n, p * 64 + q, r * 64 + s);
    LastOf262144(n, p, q * 4096 + r * 64 + s);
  }

  lemma LastOf64(n: nat, m: nat, s: nat)
    requires n == m * 64 + s && s < 64
    ensures n / 64 == m && n % 64 == s
  {
  }

  lemma LastOf4096(n: nat, m: nat, s: nat)
    requires n == m * 4096 + s && s < 4096
    ensures n / 4096 == m
  {
  }

  lemma LastOf262144(n: nat, m: nat, s: nat)
    requires n == m * 262144 + s && s < 262144
    ensures n / 262144 == m
  {
  }

  lemma DecodeCharEncodes(b: bytes)
    requires b != [] && DecodeChar(b).Some?
    ensures EncodeChar(DecodeChar(b).value) <= b
  {
    SpelledIsEncoded(b);
  }

  lemma EncodedIsSpelled(n: nat, rest: bytes)
    requires n < 0x11_0000
    ensures var b := EncodeScalar(n) + rest; Spelled(b) == Some(n) && Width(b[0]) == |EncodeScalar(n)|
  {
    var e := EncodeScalar(n);
    var b := e + rest;
    assert forall k :: 0 <= k < |e| ==> b[k] == e[k];
    assert n == n / 64 * 64 + n % 64;
    if n < 0x80 {
    } else if n < 0x800 {
      assert Payload(b[1]) == n % 64;
    } else if n < 0x1_0000 {
      assert n / 64 == n / 4096 * 64 + n / 64 % 64;
      assert Payload(b[1]) == n / 64 % 64 && Payload(b[2]) == n % 64;
    } else {
      assert n / 64 == n / 4096 * 64 + n / 64 % 64 && n / 4096 == n / 262144 * 64 + n / 4096 % 64;
      assert Payload(b[1]) == n / 4096 % 64 && Payload(b[2]) == n / 64 % 64 && Payload(b[3]) == n % 64;
    }
  }

  lemma DecodeEncodedChar(c: char, rest: bytes)
    ensures DecodeChar(EncodeChar(c) + rest) == Some(c)
  {
    EncodedIsSpelled(c as int, rest);
  }

  function Decode(b: bytes): Option<string>
    decreases |b|
  {
    if b == [] then Some("")
    else
      var c := DecodeChar(b);
      if c.None? then None
      else
        DecodeCharEncodes(b);
        var rest := Decode(b[|EncodeChar(c.value)|..]);
        if rest.None? then None else Some([c.value] + rest.value)
  }

  lemma {:induction false} DecodeEncoded(s: string)
    ensures Decode(Encode(s)) == Some(s)
  {
    if s != "" {
      hide DecodeChar, EncodeChar;
      var b := Encode(s);
      DecodeEncodedChar(s[0], Encode(s[1..]));
      assert b[|EncodeChar(s[0])|..] == Encode(s[1..]);
      DecodeEncoded(s[1..]);
      assert [s[0]] + s[1..] == s;
    }
  }

  lemma {:induction false} EncodeDecoded(b: bytes)
    requires Decode(b).Some?
    ensures Encode(Decode(b).value) == b
    decreases |b|
  {
    hide DecodeChar, EncodeChar, Spelled;
    if b != [] {
      var c := DecodeChar(b).value;
      DecodeCharEncodes(b);
      var rest := b[|EncodeChar(c)|..];
      EncodeDecoded(rest);
      assert Decode(b).value[1..] == Decode(rest).value;
      assert b == EncodeChar(c) + rest;
    }
  }

  /** The decoder accepts exactly what the encoder writes, and gives back what it wrote it from. */
  lemma DecodesExactlyTheEncoded(b: bytes, s: string)
    ensures Decode(b) == Some(s) <==> b == Encode(s)
  {
    DecodeEncoded(s);
    if Decode(b).Some? {
      EncodeDecoded(b);
    }
  }
}
