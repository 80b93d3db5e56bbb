/** What changed between two times: `diff` of server/beliefdiff.py. */
module BeliefDiff {
  import opened Wrappers
  import opened Json
  import opened Ordering
  import Contribution
  import TestimonyRecord

  // Which beliefs a viewer may see is a parameter; the engine's answers (assertions with their intervals,
  // conflicts, referent partitions) are arguments.

  const MAX_ITEMS := 100
  const RETRACTED := "RETRACTED"

  datatype Belief = Belief(id: string, time: int, proposition: string, closed: Option<int>)

  /** Believed over [time, closed). */
  predicate OpenAt(b: Belief, T: int) {
    b.time <= T && (b.closed.Some? ==> T < b.closed.value)
  }

  predicate Machinery(b: Belief) {
    b.proposition == RETRACTED || "COREF(" <= b.proposition
  }

  predicate Shown(visible: string -> bool, b: Belief) {
    !Machinery(b) && visible(b.id)
  }

  // ---------------------------------------------------------------- beliefs

  predicate Appears(visible: string -> bool, since: int, T: int, b: Belief) {
    Shown(visible, b) && b.time > since && OpenAt(b, T)
  }

  predicate Closes(visible: string -> bool, since: int, T: int, b: Belief) {
    Shown(visible, b) && !(b.time > since && OpenAt(b, T)) && OpenAt(b, since) && !OpenAt(b, T)
  }

  function Where<T>(p: T -> bool, bs: seq<T>): seq<T> {
    if bs == [] then [] else Where(p, bs[..|bs| - 1]) + if p(bs[|bs| - 1]) then [bs[|bs| - 1]] else []
  }

  function Capped<T>(s: seq<T>): seq<T> {
    if |s| <= MAX_ITEMS then s else s[..MAX_ITEMS]
  }

  /** Newest first, then by id. */
  predicate NewerOrSame(a: Belief, b: Belief) {
    a.time > b.time || (a.time == b.time && TestimonyRecord.AtOrBefore(a.id, b.id))
  }

  function Ordered(bs: seq<Belief>): seq<Belief> {
    SortBy(NewerOrSame, bs)
  }

  method Beliefs(bs: seq<Belief>, visible: string -> bool, since: int, T: int) returns (appeared: seq<Belief>, closed: seq<Belief>)
    ensures appeared == Capped(Where(b => Appears(visible, since, T, b), Ordered(bs)))
    ensures closed == Capped(Where(b => Closes(visible, since, T, b), Ordered(bs)))
  {
    hide Machinery;
    var ordered := Ordered(bs);
    ghost var p: Belief -> bool, q: Belief -> bool := b => Appears(visible, since, T, b), b => Closes(visible, since, T, b);
    appeared, closed := [], [];
    for i := 0 to |ordered|
      invariant appeared == Capped(Where(p, ordered[..i])) && closed == Capped(Where(q, ordered[..i]))
    {
      var b := ordered[i];
      assert ordered[..i + 1][..i] == ordered[..i];
      if Machinery(b) || !visible(b.id) {
        continue;
      }
      if b.time > since && OpenAt(b, T) {
        if |appeared| < MAX_ITEMS {
          appeared := appeared + [b];
        }
        continue;
      }
      if OpenAt(b, since) && !OpenAt(b, T) {
        if |closed| >= MAX_ITEMS {
          continue;
        }
        closed := closed + [b];
      }
    }
    assert ordered[..|ordered|] == ordered;
  }

  lemma {:induction false} WhereAre<T>(p: T -> bool, bs: seq<T>)
    ensures forall b :: b in Where(p, bs) <==> b in bs && p(b)
  {
    if bs != [] {
      WhereAre(p, bs[..|bs| - 1]);
      assert forall b :: b in bs <==> b in bs[..|bs| - 1] || b == bs[|bs| - 1];
    }
  }

  lemma ListsAre(bs: seq<Belief>, p: Belief -> bool)
    ensures forall b :: b in Where(p, Ordered(bs)) <==> b in bs && p(b)
    ensures Capped(Where(p, Ordered(bs))) == [] <==> forall b :: b in bs ==> !p(b)
  {
    WhereAre(p, Ordered(bs));
    SortKeeps(NewerOrSame, bs);
    var w := Where(p, Ordered(bs));
    hide Where;
    assert w != [] ==> w[0] in w;
  }

  /** What a viewer is told of: never the bookkeeping of retractions and identities. */
  lemma ToldOf(visible: string -> bool, b: Belief)
    ensures Shown(visible, b) <==>
              visible(b.id) && b.proposition != "RETRACTED" && !(|b.proposition| >= 6 && b.proposition[..6] == "COREF(")
  {
    assert "COREF(" <= b.proposition <==> |b.proposition| >= 6 && b.proposition[..6] == "COREF(";
  }

  /** What appeared began since then and holds still; what closed held then and ended since. */
  lemma BeganOrEnded(bs: seq<Belief>, visible: string -> bool, since: int, T: int, appeared: seq<Belief>, closed: seq<Belief>, b: Belief)
    requires since <= T
    requires appeared == Capped(Where(b => Appears(visible, since, T, b), Ordered(bs)))
    requires closed == Capped(Where(b => Closes(visible, since, T, b), Ordered(bs)))
    ensures var told := b in bs && Shown(visible, b);
            var began := since < b.time <= T && (b.closed.None? || b.closed.value > T);
            var ended := b.time <= since && b.closed.Some? && since < b.closed.value <= T;
            && (if |appeared| < 100 then b in appeared <==> told && began else b in appeared ==> told && began)
            && (if |closed| < 100 then b in closed <==> told && ended else b in closed ==> told && ended)
  {
    ListsAre(bs, b => Appears(visible, since, T, b));
    ListsAre(bs, b => Closes(visible, since, T, b));
    hide Shown, Where, Ordered;
  }

  /** Who was open, less what closed, plus what appeared, is who is open now. */
  lemma DiffIsAPatch(bs: seq<Belief>, visible: string -> bool, since: int, T: int, appeared: seq<Belief>, closed: seq<Belief>)
    requires since <= T
    requires appeared == Capped(Where(b => Appears(visible, since, T, b), Ordered(bs))) && |appeared| < MAX_ITEMS
    requires closed == Capped(Where(b => Closes(visible, since, T, b), Ordered(bs))) && |closed| < MAX_ITEMS
    ensures forall b :: b in bs && Shown(visible, b) && OpenAt(b, T) <==>
                    b in appeared || (b in bs && Shown(visible, b) && OpenAt(b, since) && b !in closed)
    ensures forall b :: !(b in appeared && b in closed)
    ensures forall b :: b in closed ==> Shown(visible, b) && OpenAt(b, since)
    ensures forall b :: b in appeared ==> !OpenAt(b, since)
  {
    ListsAre(bs, b => Appears(visible, since, T, b));
    ListsAre(bs, b => Closes(visible, since, T, b));
    hide Machinery, Where, Ordered;
  }

  /** Nothing listed means nothing changed, cap or no cap. */
  lemma NoBeliefsListedIff(bs: seq<Belief>, visible: string -> bool, since: int, T: int)
    requires since <= T
    ensures Capped(Where(b => Appears(visible, since, T, b), Ordered(bs))) == [] && Capped(Where(b => Closes(visible, since, T, b), Ordered(bs))) == []
            <==> forall b :: b in bs && Shown(visible, b) ==> (OpenAt(b, since) <==> OpenAt(b, T))
  {
    var p: Belief -> bool, q: Belief -> bool := b => Appears(visible, since, T, b), b => Closes(visible, since, T, b);
    ListsAre(bs, p);
    ListsAre(bs, q);
    hide Machinery, Where, Ordered, Capped;
  }

  lemma BeliefsAreOrdered()
    ensures TotalOrder(NewerOrSame)
  {
    hide TestimonyRecord.AtOrBefore;
    forall a, b
      ensures NewerOrSame(a, b) || NewerOrSame(b, a)
    {
      Contribution.TextsOrdered(a.id, b.id, b.id);
    }
    forall a, b, c | NewerOrSame(a, b) && NewerOrSame(b, c)
      ensures NewerOrSame(a, c)
    {
      Contribution.TextsOrdered(a.id, b.id, c.id);
    }
  }

  lemma {:induction false} WhereInOrder<T(!new)>(leq: Order<T>, p: T -> bool, s: seq<T>)
    requires InOrder(leq, s)
    ensures InOrder(leq, Where(p, s))
    ensures s != [] && p(s[|s| - 1]) ==> forall b :: b in Where(p, s) ==> b == s[|s| - 1] || leq(b, s[|s| - 1])
  {
    if s != [] {
      var n := |s| - 1;
      WhereInOrder(leq, p, s[..n]);
      WhereAre(p, s[..n]);
      var before := Where(p, s[..n]);
      forall i | 0 <= i < |before|
        ensures leq(before[i], s[n])
      {
        assert before[i] in s[..n];
        var k :| 0 <= k < n && s[k] == before[i];
      }
    }
  }

  /** The lists run from the newest, ids breaking ties, and the cap drops none newer than one it keeps. */
  lemma ListedNewestFirst(bs: seq<Belief>, p: Belief -> bool, out: seq<Belief>)
    requires out == Capped(Where(p, Ordered(bs)))
    ensures |out| <= 100
    ensures forall i, j :: 0 <= i < j < |out| ==>
              out[i].time > out[j].time || (out[i].time == out[j].time && !Before(out[j].id, out[i].id))
    ensures forall a, b :: a in bs && p(a) && a !in out && b in out ==>
              |out| == 100 && (b.time > a.time || (b.time == a.time && !Before(a.id, b.id)))
  {
    var whole := Where(p, Ordered(bs));
    BeliefsAreOrdered();
    SortOrders(NewerOrSame, bs);
    WhereInOrder(NewerOrSame, p, Ordered(bs));
    ListsAre(bs, p);
    hide Where, Ordered, Before;
    assert forall k :: 0 <= k < |out| ==> out[k] == whole[k] && out[k] in out;
    forall a, b | a in bs && p(a) && a !in out && b in out
      ensures |out| == 100 && NewerOrSame(b, a)
    {
      var i :| 0 <= i < |whole| && whole[i] == a;
      var j :| 0 <= j < |out| && out[j] == b;
    }
  }

  // ---------------------------------------------------------------- identity

  type Partition = set<set<string>>

  ghost predicate Disjoint(part: Partition) {
    forall c, d :: c in part && d in part && c * d != {} ==> c == d
  }

  /** Two entities are one referent. */
  ghost predicate Related(part: Partition, x: string, y: string) {
    x == y || exists c :: c in part && x in c && y in c
  }

  type ClassMap = map<string, set<string>>

  ghost predicate Maps(part: Partition, m: ClassMap) {
    && (forall e :: e in m ==> m[e] in part && e in m[e])
    && (forall c, e :: c in part && e in c ==> e in m)
  }

  function Class(m: ClassMap, e: string): set<string> {
    if e in m then m[e] else {e}
  }

  method ClassMapOf(part: Partition) returns (m: ClassMap)
    ensures Maps(part, m)
  {
    m := map[];
    var classes := part;
    while classes != {}
      invariant classes <= part
      invariant forall e :: e in m ==> m[e] in part && e in m[e]
      invariant forall c, e :: c in part - classes && e in c ==> e in m
      decreases |classes|
    {
      var cls :| cls in classes;
      var members := cls;
      while members != {}
        invariant members <= cls
        invariant forall e :: e in m ==> m[e] in part && e in m[e]
        invariant forall c, e :: c in part - classes && e in c ==> e in m
        invariant forall e :: e in cls - members ==> e in m
        decreases |members|
      {
        var e :| e in members;
        m := m[e := cls];
        members := members - {e};
      }
      classes := classes - {cls};
    }
  }

  /** The members do not all have one class: somebody unmapped is a class alone. */
  predicate Spans(m: ClassMap, members: set<string>) {
    exists x, y :: x in members && y in members && Class(m, x) != Class(m, y)
  }

  /** Classes of the one partition whose members the other keeps apart. */
  method Joined(mine: ClassMap, other: ClassMap) returns (joined: set<set<string>>)
    ensures forall c :: c in joined <==> c in mine.Values && |c| >= 2 && Spans(other, c)
  {
    joined := {};
    var rest := mine.Values;
    while rest != {}
      invariant rest <= mine.Values
      invariant forall c :: c in joined <==> c in mine.Values - rest && |c| >= 2 && Spans(other, c)
      decreases |rest|
    {
      var c :| c in rest;
      rest := rest - {c};
      var classes := set e | e in c :: Class(other, e);
      SpansIff(other, c, classes);
      if |c| >= 2 && |classes| > 1 {
        joined := joined + {c};
      }
    }
  }

  lemma SpansIff(m: ClassMap, members: set<string>, classes: set<set<string>>)
    requires classes == set e | e in members :: Class(m, e)
    ensures Spans(m, members) <==> |classes| > 1
  {
    hide Class;
    if Spans(m, members) {
      var x, y :| x in members && y in members && Class(m, x) != Class(m, y);
      assert {Class(m, x), Class(m, y)} <= classes;
      AtLeast({Class(m, x), Class(m, y)}, classes);
    }
    if |classes| > 1 {
      var c :| c in classes;
      assert |classes - {c}| > 0;
      var d :| d in classes - {c};
      var x :| x in members && Class(m, x) == c;
      var y :| y in members && Class(m, y) == d;
    }
  }

  lemma AtLeast<T>(a: set<T>, b: set<T>)
    requires a <= b
    ensures |a| <= |b|
  {
    assert b == a + (b - a);
  }

  lemma ClassesAreReferents(part: Partition, m: ClassMap, x: string, y: string)
    requires Disjoint(part) && Maps(part, m)
    ensures Class(m, x) == Class(m, y) <==> Related(part, x, y)
  {
    if Related(part, x, y) && x != y {
      var c :| c in part && x in c && y in c;
      assert x in m[x] * c && y in m[y] * c;
    }
    assert x in Class(m, x) && y in Class(m, y);
  }

  lemma NoneJoinedIff(mine: Partition, other: Partition, m: ClassMap, o: ClassMap, joined: set<set<string>>)
    requires Disjoint(mine) && Disjoint(other) && Maps(mine, m) && Maps(other, o)
    requires forall c :: c in joined <==> c in m.Values && |c| >= 2 && Spans(o, c)
    ensures joined == {} <==> forall x, y :: Related(mine, x, y) ==> Related(other, x, y)
  {
    hide Disjoint, Maps, Related, Class;
    if joined == {} {
      forall x, y | Related(mine, x, y)
        ensures Related(other, x, y)
      {
        StillTogether(mine, other, m, o, x, y);
      }
    } else {
      var c :| c in joined;
      var x, y :| x in c && y in c && Class(o, x) != Class(o, y);
      ClassesAreReferents(other, o, x, y);
      InOneClass(mine, m, c, x, y);
    }
  }

  lemma InOneClass(part: Partition, m: ClassMap, c: set<string>, x: string, y: string)
    requires Maps(part, m) && c in m.Values && x in c && y in c
    ensures Related(part, x, y)
  {
  }

  lemma StillTogether(mine: Partition, other: Partition, m: ClassMap, o: ClassMap, x: string, y: string)
    requires Disjoint(mine) && Disjoint(other) && Maps(mine, m) && Maps(other, o)
    requires forall c :: c in m.Values && |c| >= 2 ==> !Spans(o, c)
    requires Related(mine, x, y)
    ensures Related(other, x, y)
  {
    ClassesAreReferents(other, o, x, y);
    if x != y {
      var c :| c in mine && x in c && y in c;
      assert x in m[x] * c;
      assert m[x] in m.Values;
      assert {x, y} <= c;
      AtLeast({x, y}, c);
    }
  }

  // ---------------------------------------------------------------- conflicts

  /** A pair of assertion ids, the lesser first. */
  type Contest = (string, string)

  predicate ContestOrSame(a: Contest, b: Contest) {
    Before(a.0, b.0) || (a.0 == b.0 && TestimonyRecord.AtOrBefore(a.1, b.1))
  }

  /** Both sides are seen, and both are in the store. */
  predicate ContestShown(visible: string -> bool, known: set<string>, c: Contest) {
    visible(c.0) && visible(c.1) && c.0 in known && c.1 in known
  }

  lemma ContestsAreOrdered()
    ensures TotalOrder(ContestOrSame)
  {
    hide TestimonyRecord.AtOrBefore, Before;
    forall a, b
      ensures ContestOrSame(a, b) || ContestOrSame(b, a)
    {
      Contribution.TextsOrdered(a.0, b.0, b.0);
      Contribution.TextsOrdered(a.1, b.1, b.1);
    }
    forall a, b, c | ContestOrSame(a, b) && ContestOrSame(b, c)
      ensures ContestOrSame(a, c)
    {
      Contribution.TextsOrdered(a.0, b.0, c.0);
      Contribution.TextsOrdered(a.1, b.1, c.1);
    }
  }

  /** Ascending by the lesser id, then by the other. */
  ghost predicate Ascending(out: seq<Contest>) {
    forall i, j :: 0 <= i < j < |out| ==> Before(out[i].0, out[j].0) || (out[i].0 == out[j].0 && !Before(out[j].1, out[i].1))
  }

  method ConflictView(pairs: set<Contest>, visible: string -> bool, known: set<string>) returns (out: seq<Contest>)
    ensures forall c :: c in out ==> c in pairs && ContestShown(visible, known, c)
    ensures out == [] <==> forall c :: c in pairs ==> !ContestShown(visible, known, c)
    ensures |out| <= MAX_ITEMS && (|out| < MAX_ITEMS ==> forall c :: c in pairs && ContestShown(visible, known, c) ==> c in out)
    ensures Ascending(out)
    ensures forall c, d :: c in pairs && ContestShown(visible, known, c) && c !in out && d in out ==> ContestOrSame(d, c)
  {
    hide ContestShown, ContestOrSame;
    ContestsAreOrdered();
    var listed := Listed(ContestOrSame, pairs);
    out := [];
    for i := 0 to |listed|
      invariant forall c :: c in out <==> c in listed[..i] && ContestShown(visible, known, c)
      invariant |out| < MAX_ITEMS
      invariant InOrder(ContestOrSame, out)
    {
      assert listed[..i + 1] == listed[..i] + [listed[i]];
      if !ContestShown(visible, known, listed[i]) {
        continue;
      }
      AfterAll(listed, i, out);
      out := out + [listed[i]];
      if |out| >= MAX_ITEMS {
        assert out[0] in out;
        InOrderAscends(out);
        LaterLeftOut(listed, i, out);
        return;
      }
    }
    assert listed[..|listed|] == listed;
    SomeListed(out);
    InOrderAscends(out);
  }

  lemma AfterAll(listed: seq<Contest>, i: nat, out: seq<Contest>)
    requires i < |listed| && InOrder(ContestOrSame, listed) && InOrder(ContestOrSame, out)
    requires forall c :: c in out ==> c in listed[..i]
    ensures InOrder(ContestOrSame, out + [listed[i]])
  {
    hide ContestOrSame;
    forall k | 0 <= k < |out|
      ensures ContestOrSame(out[k], listed[i])
    {
      assert out[k] in listed[..i];
      var n :| 0 <= n < i && listed[n] == out[k];
    }
  }

  lemma InOrderAscends(out: seq<Contest>)
    requires InOrder(ContestOrSame, out)
    ensures Ascending(out)
  {
    hide Before;
  }

  lemma LaterLeftOut(listed: seq<Contest>, i: nat, out: seq<Contest>)
    requires i < |listed| && InOrder(ContestOrSame, listed) && forall c :: c in out ==> c in listed[..i + 1]
    ensures forall c, d :: c in listed && c !in listed[..i + 1] && d in out ==> ContestOrSame(d, c)
  {
    hide ContestOrSame;
    assert forall m :: 0 <= m < i + 1 ==> listed[..i + 1][m] == listed[m];
    forall c, d | c in listed && c !in listed[..i + 1] && d in out
      ensures ContestOrSame(d, c)
    {
      assert d in listed[..i + 1];
      var n :| 0 <= n < i + 1 && listed[n] == d;
      var m :| 0 <= m < |listed| && listed[m] == c;
    }
  }

  lemma SomeListed<T>(out: seq<T>)
    ensures out == [] <==> forall c :: c !in out
  {
    if out != [] {
      assert out[0] in out;
    }
  }

  // ---------------------------------------------------------------- the whole report

  datatype Engine = Engine(beliefs: seq<Belief>, conflictsThen: set<Contest>, conflictsNow: set<Contest>, referentsThen: Partition, referentsNow: Partition)

  datatype Report = Report(appeared: seq<Belief>, closed: seq<Belief>, newConflicts: seq<Contest>, resolvedConflicts: seq<Contest>,
                           merged: set<set<string>>, split: set<set<string>>, quiet: bool)

  /** Nothing this viewer can see is different between the two times. */
  ghost predicate NothingChanged(e: Engine, visible: string -> bool, since: int, T: int) {
    && (forall b :: b in e.beliefs && Shown(visible, b) ==> (OpenAt(b, since) <==> OpenAt(b, T)))
    && (forall c :: ContestShown(visible, Ids(e.beliefs), c) ==> (c in e.conflictsThen <==> c in e.conflictsNow))
    && (forall x, y :: Related(e.referentsThen, x, y) <==> Related(e.referentsNow, x, y))
  }

  function Ids(bs: seq<Belief>): set<string> {
    set b | b in bs :: b.id
  }

  /** What a viewer is told of the conflicts that are in `here` and not in `there`. */
  ghost predicate ListsConflicts(out: seq<Contest>, here: set<Contest>, there: set<Contest>, visible: string -> bool, known: set<string>) {
    && |out| <= 100 && Ascending(out)
    && (forall c :: c in out ==> c in here && c !in there && visible(c.0) && visible(c.1) && c.0 in known && c.1 in known)
    && (|out| < 100 ==>
          forall c :: c in here && c !in there && visible(c.0) && visible(c.1) && c.0 in known && c.1 in known ==> c in out)
  }

  /** Exactly the classes of two or more in the one partition that hold two entities the other keeps apart. */
  ghost predicate ListsClasses(out: set<set<string>>, here: Partition, there: Partition) {
    forall c :: c in out <==> c in here && |c| >= 2 && exists x, y :: x in c && y in c && !Related(there, x, y)
  }

  lemma JoinedAre(mine: Partition, other: Partition, m: ClassMap, o: ClassMap, joined: set<set<string>>)
    requires Disjoint(mine) && Disjoint(other) && Maps(mine, m) && Maps(other, o)
    requires forall c :: c in joined <==> c in m.Values && |c| >= 2 && Spans(o, c)
    ensures ListsClasses(joined, mine, other)
  {
    hide Disjoint, Maps, Related, Class;
    forall c
      ensures c in joined <==> c in mine && |c| >= 2 && exists x, y :: x in c && y in c && !Related(other, x, y)
    {
      if |c| >= 2 {
        ClassIsMapped(mine, m, c);
      }
      forall x, y {
        ClassesAreReferents(other, o, x, y);
      }
    }
  }

  lemma ClassIsMapped(part: Partition, m: ClassMap, c: set<string>)
    requires Disjoint(part) && Maps(part, m) && |c| > 0
    ensures c in m.Values <==> c in part
  {
    if c in part {
      var e :| e in c;
      assert m[e] * c != {} by {
        assert e in m[e] * c;
      }
      assert m[e] in m.Values;
    }
  }

  /** The report is quiet exactly when nothing the viewer can see has changed, whatever the caps. */
  method Diff(e: Engine, visible: string -> bool, asked: int, T: int) returns (r: Report)
    requires Disjoint(e.referentsThen) && Disjoint(e.referentsNow)
    ensures var since := if asked < T then asked else T;
            && r.appeared == Capped(Where(b => Appears(visible, since, T, b), Ordered(e.beliefs)))
            && r.closed == Capped(Where(b => Closes(visible, since, T, b), Ordered(e.beliefs)))
            && ListsConflicts(r.newConflicts, e.conflictsNow, e.conflictsThen, visible, Ids(e.beliefs))
            && ListsConflicts(r.resolvedConflicts, e.conflictsThen, e.conflictsNow, visible, Ids(e.beliefs))
            && ListsClasses(r.merged, e.referentsNow, e.referentsThen)
            && ListsClasses(r.split, e.referentsThen, e.referentsNow)
            && (r.merged == {} <==> forall x, y :: Related(e.referentsNow, x, y) ==> Related(e.referentsThen, x, y))
            && (r.split == {} <==> forall x, y :: Related(e.referentsThen, x, y) ==> Related(e.referentsNow, x, y))
            && (r.quiet <==> NothingChanged(e, visible, since, T))
  {
    hide *;
    var since := if asked < T then asked else T;
    var appeared, closed := Beliefs(e.beliefs, visible, since, T);
    var appearing := ConflictView(e.conflictsNow - e.conflictsThen, visible, Ids(e.beliefs));
    var resolved := ConflictView(e.conflictsThen - e.conflictsNow, visible, Ids(e.beliefs));
    var was := ClassMapOf(e.referentsThen);
    var now := ClassMapOf(e.referentsNow);
    var merged := Joined(now, was);
    var split := Joined(was, now);
    NoneJoinedIff(e.referentsNow, e.referentsThen, now, was, merged);
    NoneJoinedIff(e.referentsThen, e.referentsNow, was, now, split);
    JoinedAre(e.referentsNow, e.referentsThen, now, was, merged);
    JoinedAre(e.referentsThen, e.referentsNow, was, now, split);
    Listing(appearing, e.conflictsNow, e.conflictsThen, visible, Ids(e.beliefs));
    Listing(resolved, e.conflictsThen, e.conflictsNow, visible, Ids(e.beliefs));
    NoBeliefsListedIff(e.beliefs, visible, since, T);
    ChangesAre(e, visible, since, T);
    r := Report(appeared, closed, appearing, resolved, merged, split,
                appeared == [] && closed == [] && appearing == [] && resolved == [] && merged == {} && split == {});
  }

  lemma Listing(out: seq<Contest>, here: set<Contest>, there: set<Contest>, visible: string -> bool, known: set<string>)
    requires Ascending(out) && forall c :: c in out ==> c in here - there && ContestShown(visible, known, c)
    requires |out| <= MAX_ITEMS && (|out| < MAX_ITEMS ==> forall c :: c in here - there && ContestShown(visible, known, c) ==> c in out)
    ensures ListsConflicts(out, here, there, visible, known)
  {
    hide Ascending;
  }

  lemma ChangesAre(e: Engine, visible: string -> bool, since: int, T: int)
    ensures NothingChanged(e, visible, since, T) <==>
              && (forall b :: b in e.beliefs && Shown(visible, b) ==> (OpenAt(b, since) <==> OpenAt(b, T)))
              && (forall c :: c in e.conflictsNow - e.conflictsThen ==> !ContestShown(visible, Ids(e.beliefs), c))
              && (forall c :: c in e.conflictsThen - e.conflictsNow ==> !ContestShown(visible, Ids(e.beliefs), c))
              && (forall x, y :: Related(e.referentsNow, x, y) ==> Related(e.referentsThen, x, y))
              && (forall x, y :: Related(e.referentsThen, x, y) ==> Related(e.referentsNow, x, y))
  {
    hide Shown, OpenAt, ContestShown, Related, Ids;
  }
}
