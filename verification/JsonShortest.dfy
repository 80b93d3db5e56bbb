/** Compact means shortest: no text that reads as a value is shorter than what is written for it. */
module JsonShortest {
  import opened Wrappers
  import opened Json
  import opened JsonReader

  // So nothing is escaped that can stand as itself, no escape is spelled out that has a short form, and no
  // number carries a sign or a digit it can do without.

  // ---------------------------------------------------------------- strings

  lemma CharTakes(t: string)
    requires ReadChar(t).Some?
    ensures var (c, rest) := ReadChar(t).value; |Escape(c)| + |rest| <= |t|
  {
    hide CodePoint;
  }

  lemma {:induction false} StringTakes(t: string)
    requires ReadString(t).Some?
    ensures var (s, rest) := ReadString(t).value; |Escaped(s)| + 1 + |rest| <= |t|
    decreases |t|
  {
    if t != "" && t[0] == '\"' {
    } else {
      var (c, rest) := ReadChar(t).value;
      CharTakes(t);
      StringTakes(rest);
      var (s, after) := ReadString(rest).value;
      hide ReadChar, Escape;
      assert ([c] + s)[1..] == s;
    }
  }

  /** Hexadecimal digits are written small. */
  lemma EscapesAreSmall(c: char)
    ensures forall x :: x in Escape(c) && x != c ==> !('A' <= x <= 'Z')
  {
    if 0x20 > c as int {
      SmallDigits(c as int / 16);
      SmallDigits(c as int % 16);
    }
  }

  lemma SmallDigits(n: nat)
    requires n < 16
    ensures DIGITS[n] == (if n < 10 then 48 + n else 87 + n) as char
  {
  }

  // ---------------------------------------------------------------- numbers

  lemma OneDigitMore(n: nat, d: nat)
    requires n > 0 && d < 10
    ensures |NatText(n * 10 + d)| == |NatText(n)| + 1
  {
    assert (n * 10 + d) / 10 == n;
  }

  lemma {:induction false} DigitsTake(t: string, n: nat)
    requires n > 0
    ensures var (m, rest) := ReadDigits(t, n); |NatText(m)| + |rest| == |NatText(n)| + |t|
    decreases |t|
  {
    if t != "" && Digit(t[0]) {
      var d := t[0] as int - 48;
      OneDigitMore(n, d);
      hide NatText;
      DigitsTake(t[1..], n * 10 + d);
    }
  }

  lemma NatTakes(t: string)
    requires ReadNat(t).Some?
    ensures var (m, rest) := ReadNat(t).value; |NatText(m)| + |rest| <= |t|
  {
    var d := t[0] as int - 48;
    assert |NatText(d)| == 1;
    if d > 0 {
      hide NatText;
      DigitsTake(t[1..], d);
    }
  }

  lemma IntTakes(t: string)
    requires ReadInt(t).Some?
    ensures var (n, rest) := ReadInt(t).value; |IntText(n)| + |rest| <= |t|
  {
    hide ReadNat, NatText;
    NatTakes(if t != "" && t[0] == '-' then t[1..] else t);
  }

  // ---------------------------------------------------------------- values

  lemma {:induction false} ValueTakes(t: string)
    requires ReadValue(t).Some?
    ensures var (v, rest) := ReadValue(t).value; |Dump(v)| + |rest| <= |t|
    decreases |t|, 0
  {
    if "null" <= t || "true" <= t || "false" <= t {
    } else if "\"" <= t {
      StringTakes(t[1..]);
    } else if "[]" <= t || "{}" <= t {
    } else if "[" <= t {
      ItemsTake(t[1..]);
    } else if "{" <= t {
      MembersTake(t[1..]);
    } else {
      IntTakes(t);
    }
  }

  lemma {:induction false} ItemsTake(t: string)
    requires ReadItems(t).Some?
    ensures var (vs, rest) := ReadItems(t).value; vs != [] && |DumpItems(vs)| + 1 + |rest| <= |t|
    decreases |t|, 1
  {
    ValueTakes(t);
    var (v, rest) := ReadValue(t).value;
    if !("]" <= rest) {
      ItemsTake(rest[1..]);
      var (vs, after) := ReadItems(rest[1..]).value;
      assert ([v] + vs)[1..] == vs;
    }
  }

  lemma {:induction false} MemberTakes(t: string)
    requires ReadMember(t).Some?
    ensures var (m, rest) := ReadMember(t).value; |DumpMember(m)| + |rest| <= |t|
    decreases |t|, 1
  {
    StringTakes(t[1..]);
    var (name, rest) := ReadString(t[1..]).value;
    ValueTakes(rest[1..]);
  }

  lemma {:induction false} MembersTake(t: string)
    requires ReadMembers(t).Some?
    ensures var (ms, rest) := ReadMembers(t).value; ms != [] && |DumpMembers(ms)| + 1 + |rest| <= |t|
    decreases |t|, 2
  {
    MemberTakes(t);
    var (m, rest) := ReadMember(t).value;
    if !("}" <= rest) {
      MembersTake(rest[1..]);
      var (ms, after) := ReadMembers(rest[1..]).value;
      assert ([m] + ms)[1..] == ms;
    }
  }

  /** No text that reads as a value is shorter than what is written for it. */
  lemma DumpIsShortest(v: Value, t: string)
    requires Loads(t) == Some(v)
    ensures |Dump(v)| <= |t|
  {
    hide Dump, ReadValue;
    ValueTakes(t);
  }
}
