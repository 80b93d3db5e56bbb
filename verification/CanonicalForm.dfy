/**
 What the digest rule rests on: canonical text is injective on content and blind to everything else.
 */
module CanonicalForm {
  import opened Wrappers
  import opened Hashing
  import opened Json
  import opened JsonReader
  import Utf8

  /** Compact JSON text determines the value it was written from. */
  lemma DumpIsInjective(v: Value, w: Value)
    requires Dump(v) == Dump(w)
    ensures v == w
  {
    hide Dump, Loads;
    LoadsDump(v);
    LoadsDump(w);
  }

  // ---------------------------------------------------------------- lines

  predicate OneLine(s: string) {
    '\n' !in s
  }

  lemma {:induction false} NatTextOnOneLine(n: nat)
    ensures OneLine(NatText(n))
  {
    if n >= 10 {
      NatTextOnOneLine(n / 10);
    }
  }

  lemma EscapeOnOneLine(c: char)
    ensures OneLine(Escape(c))
  {
    var e := Escape(c);
    assert forall i :: 0 <= i < |e| ==> e[i] != '\n';
  }

  lemma {:induction false} EscapedOnOneLine(s: string)
    ensures OneLine(Escaped(s))
  {
    hide Escape;
    if s != "" {
      EscapeOnOneLine(s[0]);
      EscapedOnOneLine(s[1..]);
    }
  }

  /** Canonical text holds no raw newline: it would have been escaped. */
  lemma {:induction false} DumpOnOneLine(v: Value)
    ensures OneLine(Dump(v))
    decreases v, 0
  {
    hide Escaped, NatText;
    match v
    case Int(n) => NatTextOnOneLine(if n < 0 then -n else n);
    case Str(s) => EscapedOnOneLine(s);
    case Arr(items) => ItemsOnOneLine(items);
    case Obj(members) => MembersOnOneLine(members);
    case _ =>
  }

  lemma {:induction false} ItemsOnOneLine(vs: seq<Value>)
    ensures OneLine(DumpItems(vs))
    decreases vs, 1
  {
    hide Dump;
    if vs != [] {
      DumpOnOneLine(vs[0]);
      ItemsOnOneLine(vs[1..]);
    }
  }

  lemma {:induction false} MembersOnOneLine(ms: seq<Member>)
    ensures OneLine(DumpMembers(ms))
    decreases ms, 1
  {
    hide Dump, Escaped;
    if ms != [] {
      EscapedOnOneLine(ms[0].name);
      DumpOnOneLine(ms[0].value);
      MembersOnOneLine(ms[1..]);
    }
  }

  predicate Lines(lines: seq<string>) {
    forall l :: l in lines ==> l != "" && OneLine(l)
  }

  /** The first line of a text: what stands before its first newline. */
  function LineEnd(t: string): (n: nat)
    ensures n <= |t| && (n < |t| ==> t[n] == '\n') && forall i :: 0 <= i < n ==> t[i] != '\n'
  {
    if t == "" || t[0] == '\n' then 0
    else
      var n := LineEnd(t[1..]);
      assert forall i :: 0 < i <= n ==> t[i] == t[1..][i - 1];
      n + 1
  }

  /** A text cut at its newlines. */
  function LinesOf(t: string): seq<string>
    decreases |t|
  {
    var n := LineEnd(t);
    if n == |t| then [t] else [t[..n]] + LinesOf(t[n + 1..])
  }

  lemma JoinShape(lines: seq<string>)
    requires lines != []
    ensures var first, t := lines[0], Join(lines);
            if |lines| == 1 then t == first
            else |t| > |first| && t[..|first|] == first && t[|first|] == '\n' && t[|first| + 1..] == Join(lines[1..])
  {
    if |lines| > 1 {
      var rest := Join(lines[1..]);
      hide Join;
      assert Join(lines) == lines[0] + ("\n" + rest);
    }
  }

  lemma LineEndIs(t: string, n: nat)
    requires n <= |t| && OneLine(t[..n]) && (n < |t| ==> t[n] == '\n')
    ensures LineEnd(t) == n
  {
    var m := LineEnd(t);
    assert forall i :: 0 <= i < n ==> t[i] == t[..n][i] && t[..n][i] in t[..n];
  }

  /** The join keeps every line apart: cut at its newlines it is the lines again. */
  lemma {:induction false} LinesOfJoin(lines: seq<string>)
    requires lines != [] && forall l :: l in lines ==> OneLine(l)
    ensures LinesOf(Join(lines)) == lines
  {
    hide Join, LineEnd, OneLine;
    var first, t := lines[0], Join(lines);
    JoinShape(lines);
    assert |lines| == 1 ==> t[..|first|] == first;
    LineEndIs(t, |first|);
    if |lines| > 1 {
      assert forall l :: l in lines[1..] ==> l in lines;
      LinesOfJoin(lines[1..]);
      assert lines == [first] + lines[1..];
    } else {
      assert lines == [first];
    }
  }

  lemma JoinIsInjective(a: seq<string>, b: seq<string>)
    requires Lines(a) && Lines(b) && Join(a) == Join(b)
    ensures a == b
  {
    if a != [] && b != [] {
      LinesOfJoin(a);
      LinesOfJoin(b);
    } else if a != [] {
      SomethingJoined(a);
    } else if b != [] {
      SomethingJoined(b);
    }
  }

  lemma SomethingJoined(lines: seq<string>)
    requires lines != [] && Lines(lines)
    ensures Join(lines) != ""
  {
    assert lines[0] in lines;
  }

  // ---------------------------------------------------------------- order of names

  /** The texts agree for `k` characters, and then the one ends or has the lesser of the two that follow. */
  predicate PartsAt(a: string, b: string, k: int) {
    0 <= k <= |a| && k < |b| && a[..k] == b[..k] && (k == |a| || a[k] < b[k])
  }

  /** One text is before another by code points, a prefix first. */
  lemma {:induction false} BeforeIff(a: string, b: string)
    ensures Before(a, b) <==> exists k :: PartsAt(a, b, k)
  {
    if b != "" && a == "" {
      assert PartsAt(a, b, 0);
    } else if b != "" && a[0] == b[0] {
      BeforeIff(a[1..], b[1..]);
      forall k | PartsAt(a[1..], b[1..], k)
        ensures PartsAt(a, b, k + 1)
      {
        assert a[..k + 1] == [a[0]] + a[1..][..k] && b[..k + 1] == [b[0]] + b[1..][..k];
      }
      forall k | PartsAt(a, b, k)
        ensures k > 0 && PartsAt(a[1..], b[1..], k - 1)
      {
        assert a[1..][..k - 1] == a[..k][1..] && b[1..][..k - 1] == b[..k][1..];
      }
    } else if b != "" {
      assert a[0] < b[0] ==> PartsAt(a, b, 0);
      assert forall k :: PartsAt(a, b, k) && k > 0 ==> a[..k][0] == b[..k][0];
    }
  }

  lemma {:induction false} BeforeIsStrict(a: string, b: string)
    ensures !Before(a, a)
    ensures a == b || Before(a, b) || Before(b, a)
    ensures !(Before(a, b) && Before(b, a))
  {
    if a != "" {
      BeforeIsStrict(a[1..], if b == "" then "" else b[1..]);
      if b != "" && a[0] == b[0] {
        assert a == [a[0]] + a[1..] && b == [b[0]] + b[1..];
      }
    }
  }

  lemma {:induction false} BeforeIsTransitive(a: string, b: string, c: string)
    requires Before(a, b) && Before(b, c)
    ensures Before(a, c)
  {
    if a != "" && a[0] == b[0] == c[0] {
      BeforeIsTransitive(a[1..], b[1..], c[1..]);
    }
  }

  ghost predicate Ascending(ms: seq<Member>) {
    forall i, j :: 0 <= i < j < |ms| ==> Before(ms[i].name, ms[j].name)
  }

  lemma {:induction false} InsertHolds(m: Member, ms: seq<Member>)
    ensures forall x :: x in Insert(m, ms) <==> x == m || x in ms
  {
    if ms != [] {
      InsertHolds(m, ms[1..]);
      assert forall x :: x in ms <==> x == ms[0] || x in ms[1..];
    }
  }

  lemma {:induction false} InsertAscends(m: Member, ms: seq<Member>)
    requires Ascending(ms) && forall x :: x in ms ==> x.name != m.name
    ensures Ascending(Insert(m, ms))
  {
    hide Before;
    if ms != [] {
      BeforeIsStrict(m.name, ms[0].name);
      if Before(ms[0].name, m.name) {
        assert forall i, j :: 0 <= i < j < |ms[1..]| ==> ms[1..][i] == ms[i + 1] && ms[1..][j] == ms[j + 1];
        InsertAscends(m, ms[1..]);
        InsertHolds(m, ms[1..]);
        assert forall x :: x in Insert(m, ms[1..]) ==> Before(ms[0].name, x.name);
      } else {
        forall i | 0 <= i < |ms|
          ensures Before(m.name, ms[i].name)
        {
          if i > 0 {
            BeforeIsTransitive(m.name, ms[0].name, ms[i].name);
          }
        }
      }
    }
  }

  lemma SomeMember(ms: seq<Member>)
    ensures ms != [] ==> exists x :: x in ms
  {
    if ms != [] {
      assert ms[0] in ms;
    }
  }

  /** Two ascending lists of the same members are the same list. */
  lemma {:induction false} AscendingIsUnique(ms: seq<Member>, ns: seq<Member>)
    requires Ascending(ms) && Ascending(ns) && forall x :: x in ms <==> x in ns
    ensures ms == ns
  {
    hide Before;
    if ms == [] || ns == [] {
      SomeMember(ms);
      SomeMember(ns);
    } else {
      assert ms[0] in ns && ns[0] in ms;
      BeforeIsStrict(ms[0].name, ns[0].name);
      assert ms[0] == ns[0];
      RestHolds(ms);
      RestHolds(ns);
      AscendingIsUnique(ms[1..], ns[1..]);
      assert ms == [ms[0]] + ms[1..] && ns == [ns[0]] + ns[1..];
    }
  }

  lemma RestHolds(ms: seq<Member>)
    requires ms != [] && Ascending(ms)
    ensures Ascending(ms[1..]) && forall x :: x in ms[1..] <==> x in ms && x != ms[0]
  {
    forall i | 0 < i < |ms|
      ensures ms[i] != ms[0]
    {
      BeforeIsStrict(ms[0].name, ms[i].name);
    }
    hide Before;
    assert forall x :: x in ms <==> x == ms[0] || x in ms[1..];
  }

  // ---------------------------------------------------------------- normal forms

  ghost predicate Kept(ms: seq<Member>, x: Member) {
    exists i :: 0 <= i < |ms| && !Hidden(ms[i].name) && x == Member(ms[i].name, Normal(ms[i].value))
  }

  lemma {:induction false} NormalMembersHold(ms: seq<Member>)
    ensures forall x :: x in NormalMembers(ms) <==> Kept(ms, x)
  {
    hide Normal, Insert;
    if ms != [] {
      var first := Member(ms[0].name, Normal(ms[0].value));
      NormalMembersHold(ms[1..]);
      InsertHolds(first, NormalMembers(ms[1..]));
      forall x
        ensures Kept(ms, x) <==> Kept(ms[1..], x) || (!Hidden(ms[0].name) && x == first)
      {
        if i :| 0 <= i < |ms[1..]| && !Hidden(ms[1..][i].name) && x == Member(ms[1..][i].name, Normal(ms[1..][i].value)) {
          assert ms[i + 1] == ms[1..][i];
        }
        if j :| 0 < j < |ms| && !Hidden(ms[j].name) && x == Member(ms[j].name, Normal(ms[j].value)) {
          assert ms[j] == ms[1..][j - 1];
        }
      }
    }
  }

  lemma {:induction false} NormalMembersAscend(ms: seq<Member>)
    requires DistinctNames(ms)
    ensures Ascending(NormalMembers(ms))
  {
    hide Normal, Insert;
    if ms != [] {
      assert forall i, j :: 0 <= i < j < |ms[1..]| ==> ms[1..][i] == ms[i + 1] && ms[1..][j] == ms[j + 1];
      NormalMembersAscend(ms[1..]);
      NormalMembersHold(ms[1..]);
      forall x | x in NormalMembers(ms[1..])
        ensures x.name != ms[0].name
      {
        var i :| 0 <= i < |ms[1..]| && x == Member(ms[1..][i].name, Normal(ms[1..][i].value));
        assert ms[1..][i] == ms[i + 1];
      }
      InsertAscends(Member(ms[0].name, Normal(ms[0].value)), NormalMembers(ms[1..]));
    }
  }

  lemma {:induction false} NormalItemsAt(vs: seq<Value>, i: nat)
    requires i < |vs|
    ensures |NormalItems(vs)| == |vs| && NormalItems(vs)[i] == Normal(vs[i])
  {
    hide Normal;
    if |vs| > 1 {
      NormalItemsAt(vs[1..], if i == 0 then 0 else i - 1);
    }
  }

  /** Normal forms are equal exactly when the content is the same. */
  lemma {:induction false} NormalIffSame(v: Value, w: Value)
    requires Parsed(v) && Parsed(w)
    ensures Normal(v) == Normal(w) <==> Same(v, w)
    decreases v
  {
    if v.Arr? && w.Arr? {
      NormalItemsIffSame(v, w);
    } else if v.Obj? && w.Obj? {
      NormalMembersIffSame(v, w);
    }
  }

  lemma {:induction false} NormalItemsIffSame(v: Value, w: Value)
    requires v.Arr? && w.Arr? && Parsed(v) && Parsed(w)
    ensures Normal(v) == Normal(w) <==> Same(v, w)
    decreases v, 0
  {
    var a, b := v.items, w.items;
    hide NormalItems;
    if a == [] || b == [] {
      NoItems(a);
      NoItems(b);
    } else {
      NormalItemsAt(a, 0);
      NormalItemsAt(b, 0);
      if |a| == |b| {
        forall i | 0 <= i < |a|
          ensures NormalItems(a)[i] == NormalItems(b)[i] <==> Same(a[i], b[i])
        {
          NormalItemsAt(a, i);
          NormalItemsAt(b, i);
          NormalIffSame(a[i], b[i]);
        }
      }
    }
  }

  lemma NoItems(vs: seq<Value>)
    ensures NormalItems(vs) == [] <==> vs == []
  {
  }

  lemma {:induction false} NormalMembersIffSame(v: Value, w: Value)
    requires v.Obj? && w.Obj? && Parsed(v) && Parsed(w)
    ensures Normal(v) == Normal(w) <==> Same(v, w)
    decreases v, 0
  {
    var a, b := v.members, w.members;
    forall i, j | 0 <= i < |a| && 0 <= j < |b|
      ensures Normal(a[i].value) == Normal(b[j].value) <==> Same(a[i].value, b[j].value)
    {
      NormalIffSame(a[i].value, b[j].value);
    }
    assert DistinctNames(a) && DistinctNames(b);
    SameObjects(a, b);
    hide Same, Normal, SameMembers, Parsed, DistinctNames;
    SameIffSameMembers(a, b);
    NormalMembersEqual(a, b);
    NormalObjects(a, b);
  }

  lemma NormalObjects(a: seq<Member>, b: seq<Member>)
    ensures Normal(Obj(a)) == Normal(Obj(b)) <==> NormalMembers(a) == NormalMembers(b)
  {
  }

  /** One unfolding of `Same`. */
  ghost predicate SameObject(a: seq<Member>, b: seq<Member>) {
    && (forall i :: 0 <= i < |a| && !Hidden(a[i].name) ==>
         exists j :: 0 <= j < |b| && a[i].name == b[j].name && Same(a[i].value, b[j].value))
    && (forall j :: 0 <= j < |b| && !Hidden(b[j].name) ==> Named(a, b[j].name))
  }

  lemma SameObjects(a: seq<Member>, b: seq<Member>)
    ensures Same(Obj(a), Obj(b)) <==> SameObject(a, b)
  {
  }

  lemma SameIffSameMembers(a: seq<Member>, b: seq<Member>)
    requires forall i, j :: 0 <= i < |a| && 0 <= j < |b| ==>
               (Normal(a[i].value) == Normal(b[j].value) <==> Same(a[i].value, b[j].value))
    ensures SameObject(a, b) <==> SameMembers(a, b)
  {
    hide Same, Normal, Named;
    forall i | 0 <= i < |a|
      ensures (exists j :: 0 <= j < |b| && a[i].name == b[j].name && Same(a[i].value, b[j].value))
         <==> (exists j :: 0 <= j < |b| && a[i].name == b[j].name && Normal(a[i].value) == Normal(b[j].value))
    {
      if j :| 0 <= j < |b| && a[i].name == b[j].name && Same(a[i].value, b[j].value) {
        assert Normal(a[i].value) == Normal(b[j].value);
      }
      if j :| 0 <= j < |b| && a[i].name == b[j].name && Normal(a[i].value) == Normal(b[j].value) {
        assert Same(a[i].value, b[j].value);
      }
    }
  }

  lemma NormalMembersEqual(a: seq<Member>, b: seq<Member>)
    requires DistinctNames(a) && DistinctNames(b)
    ensures NormalMembers(a) == NormalMembers(b) <==> SameMembers(a, b)
  {
    NormalMembersHold(a);
    NormalMembersHold(b);
    NormalMembersAscend(a);
    NormalMembersAscend(b);
    hide NormalMembers, Kept, SameMembers, DistinctNames, Ascending;
    if SameMembers(a, b) {
      SameMembersKept(a, b);
      AscendingIsUnique(NormalMembers(a), NormalMembers(b));
    }
    if NormalMembers(a) == NormalMembers(b) {
      KeptMembersSame(a, b);
    }
  }

  ghost predicate SameMembers(a: seq<Member>, b: seq<Member>) {
    && (forall i :: 0 <= i < |a| && !Hidden(a[i].name) ==>
         exists j :: 0 <= j < |b| && a[i].name == b[j].name && Normal(a[i].value) == Normal(b[j].value))
    && (forall j :: 0 <= j < |b| && !Hidden(b[j].name) ==> Named(a, b[j].name))
  }

  lemma SameMembersKept(a: seq<Member>, b: seq<Member>)
    requires DistinctNames(b) && SameMembers(a, b)
    ensures forall x :: Kept(a, x) <==> Kept(b, x)
  {
    hide Normal;
    forall x
      ensures Kept(a, x) <==> Kept(b, x)
    {
      if j :| 0 <= j < |b| && !Hidden(b[j].name) && x == Member(b[j].name, Normal(b[j].value)) {
        var i :| 0 <= i < |a| && a[i].name == b[j].name;
        var k :| 0 <= k < |b| && a[i].name == b[k].name && Normal(a[i].value) == Normal(b[k].value);
        assert k == j;
      }
    }
  }

  lemma KeptMembersSame(a: seq<Member>, b: seq<Member>)
    requires forall x :: Kept(a, x) <==> Kept(b, x)
    ensures SameMembers(a, b)
  {
    hide Normal;
    forall i | 0 <= i < |a| && !Hidden(a[i].name)
      ensures exists j :: 0 <= j < |b| && a[i].name == b[j].name && Normal(a[i].value) == Normal(b[j].value)
    {
      assert Kept(b, Member(a[i].name, Normal(a[i].value)));
    }
    forall j | 0 <= j < |b| && !Hidden(b[j].name)
      ensures Named(a, b[j].name)
    {
      assert Kept(a, Member(b[j].name, Normal(b[j].value)));
    }
  }

  // ---------------------------------------------------------------- main results

  /** Same content, same portability: annotations and member order cannot make a value refusable. */
  lemma {:induction false} SamePortability(v: Value, w: Value)
    requires Parsed(v) && Parsed(w) && Same(v, w)
    ensures Unportable(v).Some? <==> Unportable(w).Some?
    decreases v
  {
    if v.Arr? {
      SamePortableItems(v.items, w.items);
    } else if v.Obj? {
      SamePortableMembers(v.members, w.members);
    }
  }

  lemma {:induction false} SamePortableItems(a: seq<Value>, b: seq<Value>)
    requires Parsed(Arr(a)) && Parsed(Arr(b)) && Same(Arr(a), Arr(b))
    ensures UnportableItem(a).Some? <==> UnportableItem(b).Some?
    decreases a
  {
    UnportableItemAt(a);
    UnportableItemAt(b);
    forall i | 0 <= i < |a|
      ensures Unportable(a[i]).Some? <==> Unportable(b[i]).Some?
    {
      SamePortability(a[i], b[i]);
    }
  }

  ghost predicate Refusable(ms: seq<Member>, i: int) {
    0 <= i < |ms| && !Hidden(ms[i].name) && Unportable(ms[i].value).Some?
  }

  lemma {:induction false} SamePortableMembers(a: seq<Member>, b: seq<Member>)
    requires Parsed(Obj(a)) && Parsed(Obj(b)) && Same(Obj(a), Obj(b))
    ensures UnportableMember(a).Some? <==> UnportableMember(b).Some?
    decreases a
  {
    UnportableMemberAt(a);
    UnportableMemberAt(b);
    SameObjects(a, b);
    assert DistinctNames(b);
    forall i, j | 0 <= i < |a| && 0 <= j < |b| && Same(a[i].value, b[j].value)
      ensures Unportable(a[i].value).Some? <==> Unportable(b[j].value).Some?
    {
      SamePortability(a[i].value, b[j].value);
    }
    hide *;
    RefusableAlike(a, b);
  }

  /** Members match one another, so one object has a member to refuse when the other has. */
  lemma RefusableAlike(a: seq<Member>, b: seq<Member>)
    requires SameObject(a, b) && DistinctNames(b)
    requires forall i, j :: 0 <= i < |a| && 0 <= j < |b| && Same(a[i].value, b[j].value) ==>
               (Unportable(a[i].value).Some? <==> Unportable(b[j].value).Some?)
    ensures (exists i :: Refusable(a, i)) <==> (exists j :: Refusable(b, j))
  {
    hide Unportable, Same;
    if i :| Refusable(a, i) {
      var j :| 0 <= j < |b| && a[i].name == b[j].name && Same(a[i].value, b[j].value);
      assert Refusable(b, j);
    }
    if j :| Refusable(b, j) {
      assert Named(a, b[j].name);
      var i :| 0 <= i < |a| && a[i].name == b[j].name;
      var k :| 0 <= k < |b| && a[i].name == b[k].name && Same(a[i].value, b[k].value);
      assert k == j;
      assert Refusable(a, i);
    }
  }

  lemma {:induction false} UnportableItemAt(vs: seq<Value>)
    ensures UnportableItem(vs).Some? <==> exists i :: 0 <= i < |vs| && Unportable(vs[i]).Some?
  {
    hide Unportable;
    if vs != [] {
      UnportableItemAt(vs[1..]);
      assert forall i :: 0 < i < |vs| ==> vs[i] == vs[1..][i - 1];
      if i :| 0 <= i < |vs[1..]| && Unportable(vs[1..][i]).Some? {
        assert Unportable(vs[i + 1]).Some?;
      }
    }
  }

  lemma {:induction false} UnportableMemberAt(ms: seq<Member>)
    ensures UnportableMember(ms).Some? <==> exists i :: Refusable(ms, i)
  {
    hide Unportable;
    if ms != [] {
      UnportableMemberAt(ms[1..]);
      if i :| Refusable(ms[1..], i) {
        assert Refusable(ms, i + 1);
      }
      if i :| Refusable(ms, i) && i > 0 {
        assert Refusable(ms[1..], i - 1);
      }
      assert UnportableMember(ms).Some? <==> Refusable(ms, 0) || UnportableMember(ms[1..]).Some?;
    }
  }

  /** What a digest refuses: an integer beyond 2 to the power 53 that is not in an annotation, at any depth. */
  lemma RefusedIff(v: Value)
    ensures v.Int? ==> (Canonical(v).Ok? <==> -9007199254740992 <= v.n <= 9007199254740992)
    ensures v.Arr? ==> (Canonical(v).Ok? <==> forall i :: 0 <= i < |v.items| ==> Canonical(v.items[i]).Ok?)
    ensures v.Obj? ==>
              (Canonical(v).Ok? <==>
               forall i :: 0 <= i < |v.members| && !("_" <= v.members[i].name) ==> Canonical(v.members[i].value).Ok?)
    ensures v.Null? || v.Bool? || v.Str? ==> Canonical(v).Ok?
  {
    hide Dump, Normal;
    if v.Arr? {
      UnportableItemAt(v.items);
    } else if v.Obj? {
      UnportableMemberAt(v.members);
      RefusableAt(v.members);
    }
  }

  lemma RefusableAt(ms: seq<Member>)
    ensures (exists i :: Refusable(ms, i)) <==>
              exists i :: 0 <= i < |ms| && !("_" <= ms[i].name) && Unportable(ms[i].value).Some?
  {
    hide Unportable;
    if i :| Refusable(ms, i) {
      assert !("_" <= ms[i].name);
    }
    if i :| 0 <= i < |ms| && !("_" <= ms[i].name) && Unportable(ms[i].value).Some? {
      assert Refusable(ms, i);
    }
  }

  /** No annotation, and names in ascending order of code points, at every depth. */
  ghost predicate Tidy(v: Value)
    decreases v
  {
    match v
    case Arr(items) => forall i :: 0 <= i < |items| ==> Tidy(items[i])
    case Obj(members) =>
      && Ascending(members)
      && forall i :: 0 <= i < |members| ==> !("_" <= members[i].name) && Tidy(members[i].value)
    case _ => true
  }

  /** The normal form is tidy, and loses nothing but annotations and the order of members. */
  lemma {:induction false} NormalIsTidy(v: Value)
    requires Parsed(v)
    ensures Tidy(Normal(v)) && Same(v, Normal(v))
    decreases v
  {
    if v.Arr? {
      forall i | 0 <= i < |v.items|
        ensures |NormalItems(v.items)| == |v.items|
        ensures Tidy(NormalItems(v.items)[i]) && Same(v.items[i], NormalItems(v.items)[i])
      {
        NormalItemsAt(v.items, i);
        NormalIsTidy(v.items[i]);
      }
      NormalItemsLength(v.items);
    } else if v.Obj? {
      forall i | 0 <= i < |v.members|
        ensures Tidy(Normal(v.members[i].value)) && Same(v.members[i].value, Normal(v.members[i].value))
      {
        NormalIsTidy(v.members[i].value);
      }
      NormalMembersTidy(v.members);
      SameObjects(v.members, NormalMembers(v.members));
    }
  }

  lemma NormalItemsLength(vs: seq<Value>)
    ensures |NormalItems(vs)| == |vs|
  {
    if vs != [] {
      NormalItemsAt(vs, 0);
    }
  }

  lemma NormalMembersTidy(ms: seq<Member>)
    requires DistinctNames(ms)
    requires forall i :: 0 <= i < |ms| ==> Tidy(Normal(ms[i].value)) && Same(ms[i].value, Normal(ms[i].value))
    ensures Tidy(Obj(NormalMembers(ms))) && SameObject(ms, NormalMembers(ms))
  {
    NormalMembersHold(ms);
    NormalMembersAscend(ms);
    hide *;
    KeptAreTidy(ms, NormalMembers(ms));
    KeptAreAll(ms, NormalMembers(ms));
  }

  lemma KeptAreTidy(ms: seq<Member>, out: seq<Member>)
    requires Ascending(out) && forall x :: x in out <==> Kept(ms, x)
    requires forall i :: 0 <= i < |ms| ==> Tidy(Normal(ms[i].value))
    ensures Tidy(Obj(out))
  {
    hide Ascending, Normal;
    forall j | 0 <= j < |out|
      ensures !("_" <= out[j].name) && Tidy(out[j].value)
    {
      assert out[j] in out;
      var i :| 0 <= i < |ms| && !Hidden(ms[i].name) && out[j] == Member(ms[i].name, Normal(ms[i].value));
    }
  }

  lemma KeptAreAll(ms: seq<Member>, out: seq<Member>)
    requires forall x :: x in out <==> Kept(ms, x)
    requires forall i :: 0 <= i < |ms| ==> Same(ms[i].value, Normal(ms[i].value))
    ensures SameObject(ms, out)
  {
    hide Normal, Same, Hidden;
    forall i | 0 <= i < |ms| && !Hidden(ms[i].name)
      ensures exists j :: 0 <= j < |out| && ms[i].name == out[j].name && Same(ms[i].value, out[j].value)
    {
      assert Kept(ms, Member(ms[i].name, Normal(ms[i].value)));
      var j :| 0 <= j < |out| && out[j] == Member(ms[i].name, Normal(ms[i].value));
    }
    forall j | 0 <= j < |out|
      ensures Named(ms, out[j].name)
    {
      assert out[j] in out;
    }
  }

  /** A canonical string is JSON text: read back it is the same content, tidy. */
  lemma CanonicalReads(v: Value)
    requires Parsed(v) && Canonical(v).Ok?
    ensures var read := Loads(Canonical(v).value); read.Some? && Tidy(read.value) && Same(v, read.value)
  {
    NormalIsTidy(v);
    hide Dump, Normal, Tidy, Same, Parsed, Loads;
    LoadsDump(Normal(v));
  }

  /**
   Two entries have the same canonical string exactly when they are the same JSON value after
   dropping underscore-prefixed members at every depth and ignoring member order; and of two such
   entries neither is refused unless both are.
   */
  lemma CanonicalIffSame(v: Value, w: Value)
    requires Parsed(v) && Parsed(w)
    ensures Canonical(v).Ok? && Canonical(w).Ok? ==> (Canonical(v) == Canonical(w) <==> Same(v, w))
    ensures Same(v, w) ==> (Canonical(v).Ok? <==> Canonical(w).Ok?)
  {
    NormalIffSame(v, w);
    if Same(v, w) {
      SamePortability(v, w);
    }
    if Dump(Normal(v)) == Dump(Normal(w)) {
      DumpIsInjective(Normal(v), Normal(w));
    }
  }

  ghost predicate SameEntries(a: seq<Value>, b: seq<Value>) {
    |a| == |b| && forall i :: 0 <= i < |a| ==> Same(a[i], b[i])
  }

  ghost predicate AllParsed(entries: seq<Value>) {
    forall i :: 0 <= i < |entries| ==> Parsed(entries[i])
  }

  lemma {:induction false} CanonicalsAre(entries: seq<Value>)
    requires Canonicals(entries).Ok?
    ensures var lines := Canonicals(entries).value;
            && |lines| == |entries| && Lines(lines)
            && forall i :: 0 <= i < |entries| ==> Canonical(entries[i]) == Ok(lines[i])
  {
    if entries != [] {
      CanonicalsAre(entries[1..]);
      var lines := Canonicals(entries).value;
      Opens(Normal(entries[0]));
      DumpOnOneLine(Normal(entries[0]));
      hide Dump;
      assert lines[1..] == Canonicals(entries[1..]).value;
      forall i | 0 < i < |entries|
        ensures Canonical(entries[i]) == Ok(lines[i])
      {
        assert entries[1..][i - 1] == entries[i] && lines[1..][i - 1] == lines[i];
      }
    }
  }

  lemma MessageIffSame(a: seq<Value>, b: seq<Value>)
    requires AllParsed(a) && AllParsed(b) && Message(a).Ok? && Message(b).Ok?
    ensures Message(a) == Message(b) <==> SameEntries(a, b)
  {
    CanonicalsAre(a);
    CanonicalsAre(b);
    var x, y := Canonicals(a).value, Canonicals(b).value;
    hide Canonicals, Canonical, Same, Join, Utf8.Encode;
    forall i | 0 <= i < |a| && i < |b|
      ensures x[i] == y[i] <==> Same(a[i], b[i])
    {
      CanonicalIffSame(a[i], b[i]);
    }
    Utf8.DecodeEncoded(Join(x));
    Utf8.DecodeEncoded(Join(y));
    if Message(a) == Message(b) {
      JoinIsInjective(x, y);
    }
    if SameEntries(a, b) {
      assert x == y;
    }
  }

  /** The message is UTF-8 text, a line for each entry, and each line reads back as that entry's content. */
  lemma MessageReads(entries: seq<Value>)
    requires AllParsed(entries) && entries != [] && Message(entries).Ok?
    ensures var text := Utf8.Decode(Message(entries).value);
            && text.Some? && |LinesOf(text.value)| == |entries|
            && forall i :: 0 <= i < |entries| ==>
                 var read := Loads(LinesOf(text.value)[i]); read.Some? && Tidy(read.value) && Same(entries[i], read.value)
  {
    CanonicalsAre(entries);
    var lines := Canonicals(entries).value;
    hide Canonicals, Canonical, Same, Join, Utf8.Encode, Utf8.Decode, Loads, Tidy, Parsed, LinesOf;
    Utf8.DecodeEncoded(Join(lines));
    LinesOfJoin(lines);
    forall i | 0 <= i < |entries|
      ensures var read := Loads(lines[i]); read.Some? && Tidy(read.value) && Same(entries[i], read.value)
    {
      CanonicalReads(entries[i]);
    }
  }

  /** Equal digests mean equal content, entry by entry and in order, unless the two messages collide. */
  lemma DigestIffSame(sha: Hash, a: seq<Value>, b: seq<Value>)
    requires AllParsed(a) && AllParsed(b) && DigestOf(sha, a).Ok? && DigestOf(sha, b).Ok?
    requires CollisionFree(sha, {Message(a).value, Message(b).value})
    ensures DigestOf(sha, a) == DigestOf(sha, b) <==> SameEntries(a, b)
  {
    hide Message, SameEntries;
    MessageIffSame(a, b);
  }
}
