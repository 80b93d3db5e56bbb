/** JSON text from the reading side: the grammar of RFC 8259, and the reader that undoes `json.dumps`. */
module JsonReader {
  import opened Wrappers
  import opened Json

  // ---------------------------------------------------------------- strings, section 7

  function HexValue(c: char): Option<nat> {
    if '0' <= c <= '9' then Some(c as int - 48)
    else if 'a' <= c <= 'f' then Some(c as int - 87)
    else if 'A' <= c <= 'F' then Some(c as int - 55)
    else None
  }

  /** Four hexadecimal digits. Surrogates, which stand for no character alone, are not read here. */
  function CodePoint(t: string): Option<char>
    requires |t| >= 4
  {
    var a, b, c, d := HexValue(t[0]), HexValue(t[1]), HexValue(t[2]), HexValue(t[3]);
    if a.None? || b.None? || c.None? || d.None? then None
    else
      var n := a.value * 4096 + b.value * 256 + c.value * 16 + d.value;
      if n < 0xD800 || 0xE000 <= n < 0x1_0000 then Some(n as char) else None
  }

  /** What a two-character escape stands for, by code point. */
  function ShortEscape(c: char): Option<char> {
    if c == '\"' || c == '\\' || c == '/' then Some(c)
    else if c == 'b' then Some(8 as char)
    else if c == 'f' then Some(12 as char)
    else if c == 'n' then Some(10 as char)
    else if c == 'r' then Some(13 as char)
    else if c == 't' then Some(9 as char)
    else None
  }

  /** The first character of a string's text, written as itself or as an escape. */
  function ReadChar(t: string): (r: Option<(char, string)>)
    ensures r.Some? ==> |r.value.1| < |t|
  {
    if t == "" || t[0] == '\"' || t[0] as int < 0x20 then None
    else if t[0] != '\\' then Some((t[0], t[1..]))
    else if |t| < 2 then None
    else if t[1] == 'u' then
      if |t| < 6 then None
      else
        match CodePoint(t[2..6])
        case None => None
        case Some(c) => Some((c, t[6..]))
    else
      match ShortEscape(t[1])
      case None => None
      case Some(c) => Some((c, t[2..]))
  }

  /** The rest of a string, its opening quotation mark read. */
  function ReadString(t: string): (r: Option<(string, string)>)
    ensures r.Some? ==> |r.value.1| < |t|
    decreases |t|
  {
    if t != "" && t[0] == '\"' then Some(("", t[1..]))
    else
      match ReadChar(t)
      case None => None
      case Some((c, rest)) =>
        match ReadString(rest)
        case None => None
        case Some((s, after)) => Some(([c] + s, after))
  }

  // ---------------------------------------------------------------- numbers, section 6

  predicate Digit(c: char) {
    '0' <= c <= '9'
  }

  /** The digits in front, added up as they come. */
  function ReadDigits(t: string, n: nat): (r: (nat, string))
    ensures |r.1| <= |t|
    decreases |t|
  {
    if t != "" && Digit(t[0]) then ReadDigits(t[1..], n * 10 + (t[0] as int - 48)) else (n, t)
  }

  /** Digits without a leading zero. Fractions and exponents are not read here. */
  function ReadNat(t: string): (r: Option<(nat, string)>)
    ensures r.Some? ==> |r.value.1| < |t|
  {
    if t == "" || !Digit(t[0]) || (t[0] == '0' && |t| > 1 && Digit(t[1])) then None
    else Some(ReadDigits(t[1..], t[0] as int - 48))
  }

  function ReadInt(t: string): (r: Option<(int, string)>)
    ensures r.Some? ==> |r.value.1| < |t|
  {
    if t != "" && t[0] == '-' then
      match ReadNat(t[1..])
      case None => None
      case Some((n, rest)) =>
        Some((-(n as int), rest))
    else
      match ReadNat(t)
      case None => None
      case Some((n, rest)) => Some((n, rest))
  }

  // ---------------------------------------------------------------- values, sections 3 to 5, without white space

  function ReadValue(t: string): (r: Option<(Value, string)>)
    ensures r.Some? ==> |r.value.1| < |t|
    decreases |t|, 0
  {
    if "null" <= t then Some((Null, t[4..]))
    else if "true" <= t then Some((Bool(true), t[4..]))
    else if "false" <= t then Some((Bool(false), t[5..]))
    else if "\"" <= t then
      match ReadString(t[1..])
      case None => None
      case Some((s, rest)) => Some((Str(s), rest))
    else if "[]" <= t then Some((Arr([]), t[2..]))
    else if "[" <= t then
      match ReadItems(t[1..])
      case None => None
      case Some((items, rest)) => Some((Arr(items), rest))
    else if "{}" <= t then Some((Obj([]), t[2..]))
    else if "{" <= t then
      match ReadMembers(t[1..])
      case None => None
      case Some((members, rest)) => Some((Obj(members), rest))
    else
      match ReadInt(t)
      case None => None
      case Some((n, rest)) => Some((Int(n), rest))
  }

  /** One item or more, to the closing bracket. */
  function ReadItems(t: string): (r: Option<(seq<Value>, string)>)
    ensures r.Some? ==> |r.value.1| < |t|
    decreases |t|, 1
  {
    match ReadValue(t)
    case None => None
    case Some((v, rest)) =>
      if "]" <= rest then Some(([v], rest[1..]))
      else if "," <= rest then
        match ReadItems(rest[1..])
        case None => None
        case Some((vs, after)) => Some(([v] + vs, after))
      else None
  }

  function ReadMember(t: string): (r: Option<(Member, string)>)
    ensures r.Some? ==> |r.value.1| < |t|
    decreases |t|, 1
  {
    if !("\"" <= t) then None
    else
      match ReadString(t[1..])
      case None => None
      case Some((name, rest)) =>
        if !(":" <= rest) then None
        else
          match ReadValue(rest[1..])
          case None => None
          case Some((v, after)) => Some((Member(name, v), after))
  }

  /** One member or more, to the closing brace. */
  function ReadMembers(t: string): (r: Option<(seq<Member>, string)>)
    ensures r.Some? ==> |r.value.1| < |t|
    decreases |t|, 2
  {
    match ReadMember(t)
    case None => None
    case Some((m, rest)) =>
      if "}" <= rest then Some(([m], rest[1..]))
      else if "," <= rest then
        match ReadMembers(rest[1..])
        case None => None
        case Some((ms, after)) => Some(([m] + ms, after))
      else None
  }

  // ---------------------------------------------------------------- strings read back

  lemma HexReads(n: nat)
    requires n < 16
    ensures HexValue(DIGITS[n]) == Some(n)
  {
  }

  lemma EscapeReads(c: char, rest: string)
    ensures ReadChar(Escape(c) + rest) == Some((c, rest))
    ensures Escape(c) != "" && Escape(c)[0] != '\"'
  {
    var e := Escape(c);
    var t := e + rest;
    assert t[..|e|] == e && t[|e|..] == rest;
    assert forall i :: 0 <= i < |e| ==> t[i] == e[i];
    if |e| == 6 {
      HexReads(c as int / 16);
      HexReads(c as int % 16);
      assert t[2..6] == e[2..6];
    }
  }

  /** A quoted string is read back whatever it holds, and the reader stops at its closing mark. */
  lemma {:induction false} EscapedReads(s: string, rest: string)
    ensures ReadString(Escaped(s) + ("\"" + rest)) == Some((s, rest))
  {
    hide Escape, ReadChar;
    var x := "\"" + rest;
    if s == "" {
      assert Escaped(s) + x == x && x[1..] == rest;
    } else {
      var more := Escaped(s[1..]) + x;
      assert Escaped(s) + x == Escape(s[0]) + more;
      EscapeReads(s[0], more);
      EscapedReads(s[1..], rest);
      assert (Escape(s[0]) + more)[0] == Escape(s[0])[0];
      assert [s[0]] + s[1..] == s;
    }
  }

  lemma QuotedReads(s: string, rest: string)
    ensures var t := Quoted(s) + rest; "\"" <= t && ReadString(t[1..]) == Some((s, rest))
  {
    hide Escaped, ReadString;
    var t := Quoted(s) + rest;
    assert t[1..] == Escaped(s) + ("\"" + rest);
    EscapedReads(s, rest);
  }

  // ---------------------------------------------------------------- numbers read back

  predicate NoDigitFirst(s: string) {
    s == "" || !Digit(s[0])
  }

  lemma DigitReads(n: nat)
    requires n < 10
    ensures Digit(DIGITS[n]) && DIGITS[n] as int - 48 == n && (DIGITS[n] == '0' <==> n == 0)
  {
  }

  lemma {:induction false} NatTextReads(n: nat)
    ensures NatText(n) != "" && (forall i :: 0 <= i < |NatText(n)| ==> Digit(NatText(n)[i]))
    ensures (NatText(n)[0] == '0' <==> n == 0) && (n == 0 ==> |NatText(n)| == 1)
  {
    DigitReads(n % 10);
    if n >= 10 {
      NatTextReads(n / 10);
    }
  }

  /** Digit by digit: what has been read, then the last digit. */
  lemma {:induction false} ReadDigitsOn(t: string, n: nat, rest: string, more: string)
    requires ReadDigits(t, n).1 == "" && more == t + rest
    ensures ReadDigits(more, n) == ReadDigits(rest, ReadDigits(t, n).0)
    decreases |t|
  {
    if t == "" {
      assert more == rest;
    } else {
      assert more[0] == t[0] && more[1..] == t[1..] + rest;
      ReadDigitsOn(t[1..], n * 10 + (t[0] as int - 48), rest, more[1..]);
    }
  }

  lemma {:induction false} DigitsRead(n: nat, rest: string)
    requires NoDigitFirst(rest)
    ensures ReadDigits(NatText(n), 0) == (n, "") && ReadDigits(NatText(n) + rest, 0) == (n, rest)
  {
    DigitReads(n % 10);
    if n >= 10 {
      DigitsRead(n / 10, "");
      var front, last := NatText(n / 10), [DIGITS[n % 10]];
      ReadDigitsOn(front, 0, last, NatText(n));
      LastDigit(n / 10, DIGITS[n % 10]);
    } else {
      LastDigit(0, DIGITS[n]);
    }
    ReadDigitsOn(NatText(n), 0, rest, NatText(n) + rest);
  }

  lemma LastDigit(n: nat, c: char)
    requires Digit(c)
    ensures ReadDigits([c], n) == (n * 10 + (c as int - 48), "")
  {
    assert [c][1..] == "";
  }

  lemma NatReads(n: nat, rest: string)
    requires NoDigitFirst(rest)
    ensures ReadNat(NatText(n) + rest) == Some((n, rest))
  {
    NatTextReads(n);
    DigitsRead(n, rest);
    hide NatText;
    var t := NatText(n) + rest;
    assert t[0] == NatText(n)[0] && (|NatText(n)| > 1 ==> t[1] == NatText(n)[1]);
    assert |NatText(n)| == 1 && |t| > 1 ==> t[1] == rest[0];
  }

  lemma SignReads(t: string, n: nat, rest: string)
    requires ReadNat(t) == Some((n, rest))
    ensures ReadInt("-" + t) == Some((-(n as int), rest)) && ReadInt(t) == Some((n, rest)) && Digit(t[0])
  {
    assert ("-" + t)[1..] == t;
  }

  lemma IntReads(n: int, rest: string)
    requires NoDigitFirst(rest)
    ensures ReadInt(IntText(n) + rest) == Some((n, rest))
    ensures IntText(n) != "" && (IntText(n)[0] == '-' || Digit(IntText(n)[0]))
  {
    hide NatText, ReadNat, ReadInt;
    var m := if n < 0 then -n else n;
    NatTextReads(m);
    NatReads(m, rest);
    SignReads(NatText(m) + rest, m, rest);
    assert ("-" + NatText(m)) + rest == "-" + (NatText(m) + rest);
  }

  // ---------------------------------------------------------------- values read back

  /** What can follow a value inside a larger one, or after it. */
  predicate Stops(r: string) {
    r == "" || r[0] == ',' || r[0] == ']' || r[0] == '}'
  }

  /** The first character tells the kinds of value apart. */
  lemma Opens(v: Value)
    ensures Dump(v) != ""
    ensures var c := Dump(v)[0];
            && (v.Null? <==> c == 'n') && (v == Bool(true) <==> c == 't') && (v == Bool(false) <==> c == 'f')
            && (v.Int? <==> c == '-' || Digit(c)) && (v.Str? <==> c == '\"')
            && (v.Arr? <==> c == '[') && (v.Obj? <==> c == '{')
  {
    if v.Int? {
      IntReads(v.n, "");
    }
  }

  lemma IntValueReads(n: int, r: string)
    requires Stops(r)
    ensures ReadValue(IntText(n) + r) == Some((Int(n), r))
  {
    IntReads(n, r);
    hide IntText, ReadInt;
    var t := IntText(n) + r;
    assert t[0] == IntText(n)[0];
    NumberUnfolds(t);
  }

  lemma NumberUnfolds(t: string)
    requires t != "" && (t[0] == '-' || Digit(t[0]))
    ensures ReadValue(t) == match ReadInt(t) case None => None case Some((n, rest)) => Some((Int(n), rest))
  {
    hide ReadInt;
  }

  lemma LiteralReads(v: Value, r: string)
    requires v.Null? || v.Bool?
    ensures ReadValue(Dump(v) + r) == Some((v, r))
  {
    var d := Dump(v);
    assert d <= d + r && (d + r)[|d|..] == r && (d + r)[0] == d[0];
  }

  /** One unfolding of the reader, by the first character. */
  lemma ReadUnfolds(t: string)
    requires t != ""
    ensures t[0] == '\"' ==> ReadValue(t) == match ReadString(t[1..]) case None => None case Some((s, rest)) => Some((Str(s), rest))
    ensures t[0] == '[' && |t| > 1 && t[1] == ']' ==> ReadValue(t) == Some((Arr([]), t[2..]))
    ensures t[0] == '[' && |t| > 1 && t[1] != ']' ==>
              ReadValue(t) == match ReadItems(t[1..]) case None => None case Some((vs, rest)) => Some((Arr(vs), rest))
    ensures t[0] == '{' && |t| > 1 && t[1] == '}' ==> ReadValue(t) == Some((Obj([]), t[2..]))
    ensures t[0] == '{' && |t| > 1 && t[1] != '}' ==>
              ReadValue(t) == match ReadMembers(t[1..]) case None => None case Some((ms, rest)) => Some((Obj(ms), rest))
  {
    hide ReadItems, ReadMembers, ReadString;
  }

  lemma Bracketed(open: string, a: string, close: string, r: string)
    requires |open| == 1
    ensures var t := (open + (a + close)) + r; t[0] == open[0] && t[1..] == a + (close + r)
  {
  }

  /** Compact JSON text reads back as the value it was written from, members in the order written. */
  lemma {:induction false} DumpReads(v: Value, r: string)
    requires Stops(r)
    ensures ReadValue(Dump(v) + r) == Some((v, r))
    decreases v, 0
  {
    hide DumpItems, DumpMembers, Quoted, IntText, ReadValue, ReadString, ReadItems, ReadMembers;
    var t := Dump(v) + r;
    match v
    case Int(n) => IntValueReads(n, r);
    case Str(s) =>
      QuotedReads(s, r);
      ReadUnfolds(t);
    case Arr(items) => ItemsRead(items, r);
    case Obj(members) => MembersRead(members, r);
    case _ => LiteralReads(v, r);
  }

  /** What follows the first item. */
  function AfterItem(vs: seq<Value>, r: string): string
    requires vs != []
  {
    if |vs| == 1 then "]" + r else "," + (DumpItems(vs[1..]) + ("]" + r))
  }

  lemma ItemThenRest(vs: seq<Value>, r: string)
    requires vs != []
    ensures DumpItems(vs) + ("]" + r) == Dump(vs[0]) + AfterItem(vs, r)
  {
    if |vs| > 1 {
      hide Dump;
      assert DumpItems(vs) == Dump(vs[0]) + ("," + DumpItems(vs[1..]));
    }
  }

  lemma {:induction false} ItemsRead(vs: seq<Value>, r: string)
    ensures ReadValue(Dump(Arr(vs)) + r) == Some((Arr(vs), r))
    decreases vs, 1
  {
    hide DumpItems, ReadValue, ReadItems;
    var t := Dump(Arr(vs)) + r;
    Bracketed("[", DumpItems(vs), "]", r);
    ReadUnfolds(t);
    if vs == [] {
      NothingInside();
      assert t[1..] == "]" + r && t[2..] == r;
    } else {
      ItemThenRest(vs, r);
      Opens(vs[0]);
      hide Dump;
      assert t[1] == Dump(vs[0])[0];
      SomeItemsRead(vs, r);
    }
  }

  lemma NothingInside()
    ensures DumpItems([]) == "" && DumpMembers([]) == ""
  {
  }

  lemma {:induction false} SomeItemsRead(vs: seq<Value>, r: string)
    requires vs != []
    ensures ReadItems(DumpItems(vs) + ("]" + r)) == Some((vs, r))
    decreases vs, 0
  {
    hide Dump, DumpItems, ReadValue;
    var x := AfterItem(vs, r);
    ItemThenRest(vs, r);
    DumpReads(vs[0], x);
    if |vs| > 1 {
      SomeItemsRead(vs[1..], r);
      assert x[1..] == DumpItems(vs[1..]) + ("]" + r);
      assert vs == [vs[0]] + vs[1..];
    } else {
      assert x[1..] == r && vs == [vs[0]];
    }
  }

  function AfterMember(ms: seq<Member>, r: string): string
    requires ms != []
  {
    if |ms| == 1 then "}" + r else "," + (DumpMembers(ms[1..]) + ("}" + r))
  }

  lemma MemberThenRest(ms: seq<Member>, r: string)
    requires ms != []
    ensures DumpMembers(ms) + ("}" + r) == DumpMember(ms[0]) + AfterMember(ms, r)
  {
    if |ms| > 1 {
      hide DumpMember;
      assert DumpMembers(ms) == DumpMember(ms[0]) + ("," + DumpMembers(ms[1..]));
    }
  }

  lemma {:induction false} MemberReads(m: Member, r: string)
    requires Stops(r)
    ensures ReadMember(DumpMember(m) + r) == Some((m, r))
    decreases m, 1
  {
    hide Dump, Quoted, ReadValue, ReadString;
    var x := ":" + (Dump(m.value) + r);
    assert DumpMember(m) + r == Quoted(m.name) + x;
    QuotedReads(m.name, x);
    assert x[1..] == Dump(m.value) + r;
    DumpReads(m.value, r);
  }

  lemma {:induction false} MembersRead(ms: seq<Member>, r: string)
    ensures ReadValue(Dump(Obj(ms)) + r) == Some((Obj(ms), r))
    decreases ms, 3
  {
    hide DumpMembers, ReadValue, ReadMembers, Quoted;
    var t := Dump(Obj(ms)) + r;
    Bracketed("{", DumpMembers(ms), "}", r);
    ReadUnfolds(t);
    if ms == [] {
      NothingInside();
      assert t[1..] == "}" + r && t[2..] == r;
    } else {
      MemberThenRest(ms, r);
      QuotedReads(ms[0].name, ":" + Dump(ms[0].value));
      hide Dump;
      assert DumpMember(ms[0])[0] == '\"' && t[1] == DumpMember(ms[0])[0];
      SomeMembersRead(ms, r);
    }
  }

  lemma {:induction false} SomeMembersRead(ms: seq<Member>, r: string)
    requires ms != []
    ensures ReadMembers(DumpMembers(ms) + ("}" + r)) == Some((ms, r))
    decreases ms, 2
  {
    hide DumpMember, DumpMembers, ReadMember;
    var x := AfterMember(ms, r);
    MemberThenRest(ms, r);
    MemberReads(ms[0], x);
    if |ms| > 1 {
      SomeMembersRead(ms[1..], r);
      assert x[1..] == DumpMembers(ms[1..]) + ("}" + r);
      assert ms == [ms[0]] + ms[1..];
    } else {
      assert x[1..] == r && ms == [ms[0]];
    }
  }

  /** The whole of a text, and nothing after it. */
  function Loads(t: string): Option<Value> {
    match ReadValue(t)
    case None => None
    case Some((v, rest)) => if rest == "" then Some(v) else None
  }

  /** Any value, written compactly, is read back from the whole of its text. */
  lemma LoadsDump(v: Value)
    ensures Loads(Dump(v)) == Some(v)
  {
    hide Dump, ReadValue;
    DumpReads(v, "");
    assert Dump(v) + "" == Dump(v);
  }
}
