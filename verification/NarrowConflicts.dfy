/** The narrow conflict query, server/conflict_narrow.py, for any engine: its answers are parameters. */
module NarrowConflicts {
  import opened Json
  import opened CanonicalForm

  datatype Claim = Claim(id: string, subjects: seq<string>, proposition: string)

  /** Which propositions contradict or mark a retraction, and how subjects reduce to referents at the time asked about. */
  datatype Engine = Engine(contradicts: (string, string) -> bool, retracted: string -> bool, reduce: seq<string> -> set<string>)

  /** A declared contradiction has no direction. */
  ghost predicate Symmetric(e: Engine) {
    forall p, q :: e.contradicts(p, q) <==> e.contradicts(q, p)
  }

  ghost predicate UniqueIds(open: seq<Claim>) {
    forall i, j :: 0 <= i < j < |open| ==> open[i].id != open[j].id
  }

  // ---------------------------------------------------------------- every pair of open claims

  /** Two open claims in conflict. */
  predicate Conflict(e: Engine, a: Claim, b: Claim) {
    && a.id != b.id
    && !e.retracted(a.proposition) && !e.retracted(b.proposition)
    && e.reduce(a.subjects) == e.reduce(b.subjects)
    && e.contradicts(a.proposition, b.proposition)
  }

  /** `pair` names two open claims in conflict, one of them a candidate. */
  ghost predicate Touching(e: Engine, open: seq<Claim>, candidates: seq<string>, pair: set<string>) {
    exists a, b :: a in open && b in open && Conflict(e, a, b) && pair == {a.id, b.id} && (a.id in candidates || b.id in candidates)
  }

  /** In full: two different claims, neither a retraction, about one referent, whose propositions contradict. */
  lemma TouchingMeans(e: Engine, open: seq<Claim>, candidates: seq<string>, pair: set<string>)
    ensures Touching(e, open, candidates, pair) <==>
              exists a, b ::
                && a in open && b in open && a.id != b.id && pair == {a.id, b.id} && (a.id in candidates || b.id in candidates)
                && !e.retracted(a.proposition) && !e.retracted(b.proposition)
                && e.reduce(a.subjects) == e.reduce(b.subjects) && e.contradicts(a.proposition, b.proposition)
  {
  }

  // ---------------------------------------------------------------- the neighbourhood

  function Subjects(c: Claim): set<string> {
    set x | x in c.subjects
  }

  /** The claim shares a subject, as written, with an open candidate. */
  ghost predicate Relevant(open: seq<Claim>, candidates: seq<string>, c: Claim) {
    exists a :: a in open && a.id in candidates && Subjects(a) * Subjects(c) != {}
  }

  method CandidateSubjects(open: seq<Claim>, candidates: seq<string>) returns (subjects: set<string>)
    ensures forall x :: x in subjects <==> exists a :: a in open && a.id in candidates && x in Subjects(a)
  {
    subjects := {};
    for i := 0 to |open|
      invariant forall x :: x in subjects <==> exists a :: a in open[..i] && a.id in candidates && x in Subjects(a)
    {
      assert open[..i + 1] == open[..i] + [open[i]];
      if open[i].id in candidates {
        subjects := subjects + Subjects(open[i]);
      }
    }
    assert open[..|open|] == open;
  }

  method Neighbours(open: seq<Claim>, candidates: seq<string>) returns (relevant: seq<Claim>)
    ensures forall c :: c in relevant <==> c in open && Relevant(open, candidates, c)
  {
    var subjects := CandidateSubjects(open, candidates);
    relevant := [];
    for i := 0 to |open|
      invariant forall c :: c in relevant <==> c in open[..i] && subjects * Subjects(c) != {}
    {
      assert open[..i + 1] == open[..i] + [open[i]];
      if subjects * Subjects(open[i]) != {} {
        relevant := relevant + [open[i]];
      }
    }
    assert open[..|open|] == open;
    forall c
      ensures subjects * Subjects(c) != {} <==> Relevant(open, candidates, c)
    {
      SharesASubject(open, candidates, subjects, c);
    }
  }

  lemma SharesASubject(open: seq<Claim>, candidates: seq<string>, subjects: set<string>, c: Claim)
    requires forall x :: x in subjects <==> exists a :: a in open && a.id in candidates && x in Subjects(a)
    ensures subjects * Subjects(c) != {} <==> Relevant(open, candidates, c)
  {
    hide Subjects;
    if subjects * Subjects(c) != {} {
      var x :| x in subjects * Subjects(c);
      var a :| a in open && a.id in candidates && x in Subjects(a);
      assert x in Subjects(a) * Subjects(c);
    }
    if Relevant(open, candidates, c) {
      var a :| a in open && a.id in candidates && Subjects(a) * Subjects(c) != {};
      var x :| x in Subjects(a) * Subjects(c);
      assert x in subjects;
    }
  }

  // ---------------------------------------------------------------- conflicts_for

  /** `b` is passed over for the candidate `a`: the pair is left to be found from the other side. */
  predicate LeftToTheOther(candidates: seq<string>, a: Claim, b: Claim) {
    b.id in candidates && Before(b.id, a.id)
  }

  method Against(e: Engine, candidates: seq<string>, a: Claim, relevant: seq<Claim>) returns (found: set<set<string>>)
    requires !e.retracted(a.proposition)
    ensures forall pair :: pair in found <==>
                exists b :: b in relevant && a in relevant && Conflict(e, a, b) && !LeftToTheOther(candidates, a, b) && pair == {a.id, b.id}
  {
    found := {};
    for i := 0 to |relevant|
      invariant forall pair :: pair in found <==>
                  exists b :: b in relevant[..i] && a in relevant && Conflict(e, a, b) && !LeftToTheOther(candidates, a, b) && pair == {a.id, b.id}
    {
      var b := relevant[i];
      assert relevant[..i + 1] == relevant[..i] + [b];
      if b.id == a.id {
        continue;
      }
      if b.id in candidates && Before(b.id, a.id) {
        continue;
      }
      if e.retracted(b.proposition) {
        continue;
      }
      if a !in relevant || e.reduce(b.subjects) != e.reduce(a.subjects) {
        continue;
      }
      if !e.contradicts(a.proposition, b.proposition) {
        continue;
      }
      found := found + {{a.id, b.id}};
    }
    assert relevant[..|relevant|] == relevant;
  }

  /** A pair touching a candidate, both of whose sides share a subject with an open candidate. */
  ghost predicate Near(e: Engine, open: seq<Claim>, candidates: seq<string>, pair: set<string>) {
    exists a, b ::
      && a in open && b in open && Conflict(e, a, b) && pair == {a.id, b.id} && (a.id in candidates || b.id in candidates)
      && Relevant(open, candidates, a) && Relevant(open, candidates, b)
  }

  /** What the loop over the candidates adds. */
  ghost predicate Found(e: Engine, candidates: seq<string>, done: seq<string>, relevant: seq<Claim>, pair: set<string>) {
    exists a, b ::
      && a in relevant && b in relevant && a.id in done && Conflict(e, a, b)
      && !LeftToTheOther(candidates, a, b) && pair == {a.id, b.id}
  }

  method OpenById(open: seq<Claim>) returns (byId: map<string, Claim>)
    requires UniqueIds(open)
    ensures forall c :: c in open <==> c.id in byId && byId[c.id] == c
    ensures forall id :: id in byId ==> byId[id].id == id
  {
    byId := map[];
    for i := 0 to |open|
      invariant forall c :: c in open[..i] <==> c.id in byId && byId[c.id] == c
      invariant forall id :: id in byId ==> byId[id].id == id
    {
      assert open[..i + 1] == open[..i] + [open[i]];
      forall c | c in open[..i]
        ensures c.id != open[i].id
      {
        var k :| 0 <= k < i && open[k] == c;
      }
      byId := byId[open[i].id := open[i]];
    }
    assert open[..|open|] == open;
  }

  method ForCandidate(e: Engine, candidates: seq<string>, cid: string, byId: map<string, Claim>, relevant: seq<Claim>)
    returns (found: set<set<string>>)
    requires forall c :: c in relevant ==> c.id in byId && byId[c.id] == c
    requires forall id :: id in byId ==> byId[id].id == id
    ensures forall pair :: pair in found <==> FoundFor(e, candidates, cid, relevant, pair)
  {
    hide Conflict, LeftToTheOther;
    if cid !in byId {
      return {};
    }
    var a := byId[cid];
    if e.retracted(a.proposition) {
      NoConflictOf(e, a);
      return {};
    }
    assert forall c :: c in relevant && c.id == cid ==> c == a;
    found := Against(e, candidates, a, relevant);
  }

  /** Whatever the candidates, exactly the conflicts among their neighbours. */
  method ConflictsFor(e: Engine, open: seq<Claim>, candidates: seq<string>) returns (result: set<set<string>>)
    requires UniqueIds(open) && Symmetric(e)
    ensures forall pair :: pair in result <==> Near(e, open, candidates, pair)
  {
    hide Relevant, Conflict, Symmetric, Near, Found, FoundFor;
    result := {};
    var byId := OpenById(open);
    var relevant := Neighbours(open, candidates);
    forall pair {
      FoundForNone(e, candidates, relevant, pair);
    }
    for i := 0 to |candidates|
      invariant forall pair :: pair in result <==> Found(e, candidates, candidates[..i], relevant, pair)
    {
      assert candidates[..i + 1] == candidates[..i] + [candidates[i]];
      forall pair {
        FoundMore(e, candidates, candidates[..i], candidates[i], relevant, pair);
      }
      var found := ForCandidate(e, candidates, candidates[i], byId, relevant);
      result := result + found;
    }
    assert candidates[..|candidates|] == candidates;
    forall pair
      ensures Found(e, candidates, candidates, relevant, pair) <==> Near(e, open, candidates, pair)
    {
      FoundIsNear(e, open, candidates, relevant, pair);
    }
  }

  lemma FoundForNone(e: Engine, candidates: seq<string>, relevant: seq<Claim>, pair: set<string>)
    ensures !Found(e, candidates, [], relevant, pair)
  {
    hide Conflict, LeftToTheOther;
  }

  /** What one candidate more adds. */
  ghost predicate FoundFor(e: Engine, candidates: seq<string>, cid: string, relevant: seq<Claim>, pair: set<string>) {
    exists a, b ::
      && a in relevant && b in relevant && a.id == cid && Conflict(e, a, b)
      && !LeftToTheOther(candidates, a, b) && pair == {a.id, b.id}
  }

  lemma FoundMore(e: Engine, candidates: seq<string>, done: seq<string>, cid: string, relevant: seq<Claim>, pair: set<string>)
    ensures Found(e, candidates, done + [cid], relevant, pair) <==>
              Found(e, candidates, done, relevant, pair) || FoundFor(e, candidates, cid, relevant, pair)
  {
    hide Conflict, LeftToTheOther;
  }

  lemma NoConflictOf(e: Engine, a: Claim)
    requires e.retracted(a.proposition)
    ensures forall b :: !Conflict(e, a, b)
  {
  }

  lemma ConflictTurns(e: Engine, a: Claim, b: Claim)
    requires Symmetric(e)
    ensures Conflict(e, a, b) <==> Conflict(e, b, a)
  {
  }

  /** Passing a pair over loses nothing: it is not passed over from both sides. */
  lemma FoundIsNear(e: Engine, open: seq<Claim>, candidates: seq<string>, relevant: seq<Claim>, pair: set<string>)
    requires Symmetric(e) && forall c :: c in relevant <==> c in open && Relevant(open, candidates, c)
    ensures Found(e, candidates, candidates, relevant, pair) <==> Near(e, open, candidates, pair)
  {
    hide Relevant, Symmetric, Conflict;
    if Near(e, open, candidates, pair) {
      var a, b :|
        && a in open && b in open && Conflict(e, a, b) && pair == {a.id, b.id} && (a.id in candidates || b.id in candidates)
        && Relevant(open, candidates, a) && Relevant(open, candidates, b);
      ConflictTurns(e, a, b);
      BeforeIsStrict(a.id, b.id);
      hide Before;
      assert {a.id, b.id} == {b.id, a.id};
      if a.id in candidates && !LeftToTheOther(candidates, a, b) {
        assert Found(e, candidates, candidates, relevant, pair);
      } else {
        assert Found(e, candidates, candidates, relevant, pair);
      }
    }
  }

  // ---------------------------------------------------------------- when it is the whole answer

  /** Never a pair the full scan would not give. */
  lemma NearIsTouching(e: Engine, open: seq<Claim>, candidates: seq<string>, pair: set<string>)
    requires Near(e, open, candidates, pair)
    ensures Touching(e, open, candidates, pair)
  {
    hide Relevant, Conflict;
  }

  lemma OwnNeighbour(open: seq<Claim>, candidates: seq<string>, c: Claim)
    requires c in open && c.id in candidates
    ensures Relevant(open, candidates, c) <==> c.subjects != []
  {
    if c.subjects != [] {
      assert c.subjects[0] in Subjects(c) * Subjects(c);
    }
  }

  /** The route that asks about every open claim gets every conflict between claims that have a subject. */
  lemma AllOpenIsEverything(e: Engine, open: seq<Claim>, candidates: seq<string>, pair: set<string>)
    requires forall c :: c in open ==> c.id in candidates
    ensures Near(e, open, candidates, pair) <==>
              exists a, b ::
                && a in open && b in open && Conflict(e, a, b) && pair == {a.id, b.id}
                && a.subjects != [] && b.subjects != []
  {
    hide Relevant, Conflict;
    forall c | c in open
      ensures Relevant(open, candidates, c) <==> c.subjects != []
    {
      OwnNeighbour(open, candidates, c);
    }
  }

  /** Whatever the candidates, the whole answer. */
  ghost predicate NothingLost(e: Engine, open: seq<Claim>) {
    forall candidates, pair :: Near(e, open, candidates, pair) <==> Touching(e, open, candidates, pair)
  }

  /** Open claims in conflict have a subject, as written, in common. */
  ghost predicate ConflictsShareASubject(e: Engine, open: seq<Claim>) {
    forall a, b :: a in open && b in open && Conflict(e, a, b) ==> Subjects(a) * Subjects(b) != {}
  }

  lemma SharersAreNeighbours(open: seq<Claim>, candidates: seq<string>, a: Claim, b: Claim)
    requires a in open && b in open && Subjects(a) * Subjects(b) != {} && (a.id in candidates || b.id in candidates)
    ensures Relevant(open, candidates, a) && Relevant(open, candidates, b)
  {
    hide Subjects;
    assert Subjects(a) * Subjects(b) == Subjects(b) * Subjects(a);
    assert Subjects(a) * Subjects(a) != {} && Subjects(b) * Subjects(b) != {};
  }

  lemma SharedIsNear(e: Engine, open: seq<Claim>, candidates: seq<string>, pair: set<string>)
    requires ConflictsShareASubject(e, open) && Touching(e, open, candidates, pair)
    ensures Near(e, open, candidates, pair)
  {
    hide Subjects, Relevant, Conflict;
    var a, b :| a in open && b in open && Conflict(e, a, b) && pair == {a.id, b.id} && (a.id in candidates || b.id in candidates);
    SharersAreNeighbours(open, candidates, a, b);
  }

  lemma SameId(open: seq<Claim>, a: Claim, b: Claim)
    requires UniqueIds(open) && a in open && b in open && a.id == b.id
    ensures a == b
  {
    var i :| 0 <= i < |open| && open[i] == a;
    var j :| 0 <= j < |open| && open[j] == b;
    assert i == j;
  }

  /** Asked about one side alone, a conflict is found only by a subject the two sides share. */
  lemma NearIsShared(e: Engine, open: seq<Claim>, a: Claim, b: Claim)
    requires UniqueIds(open) && a in open && b in open && Near(e, open, [a.id], {a.id, b.id})
    ensures Subjects(a) * Subjects(b) != {}
  {
    hide Subjects, Conflict, UniqueIds;
    var c, d :|
      && c in open && d in open && Conflict(e, c, d) && {a.id, b.id} == {c.id, d.id} && (c.id in [a.id] || d.id in [a.id])
      && Relevant(open, [a.id], c) && Relevant(open, [a.id], d);
    assert b.id in {c.id, d.id};
    var found := if c.id == b.id then c else d;
    SameId(open, b, found);
    var x :| x in open && x.id in [a.id] && Subjects(x) * Subjects(b) != {};
    SameId(open, a, x);
  }

  /** Exactly when it is the whole answer for any candidates at all. */
  lemma WholeAnswerIff(e: Engine, open: seq<Claim>)
    requires UniqueIds(open)
    ensures NothingLost(e, open) <==> ConflictsShareASubject(e, open)
  {
    hide Subjects, Relevant, Conflict, Near, Touching, UniqueIds;
    if NothingLost(e, open) {
      forall a, b | a in open && b in open && Conflict(e, a, b)
        ensures Subjects(a) * Subjects(b) != {}
      {
        AskedAboutOneSide(e, open, a, b);
        NearIsShared(e, open, a, b);
      }
    }
    if ConflictsShareASubject(e, open) {
      forall candidates, pair
        ensures Near(e, open, candidates, pair) <==> Touching(e, open, candidates, pair)
      {
        if Near(e, open, candidates, pair) {
          NearIsTouching(e, open, candidates, pair);
        }
        if Touching(e, open, candidates, pair) {
          SharedIsNear(e, open, candidates, pair);
        }
      }
    }
  }

  lemma AskedAboutOneSide(e: Engine, open: seq<Claim>, a: Claim, b: Claim)
    requires a in open && b in open && Conflict(e, a, b)
    ensures Touching(e, open, [a.id], {a.id, b.id})
  {
    hide Conflict;
    assert a.id in [a.id];
  }

  /** Claims about one referent name it by a subject they share. */
  ghost predicate SameReferentSharesASubject(e: Engine, open: seq<Claim>) {
    forall a, b :: a in open && b in open && e.reduce(a.subjects) == e.reduce(b.subjects) ==> Subjects(a) * Subjects(b) != {}
  }

  /** In particular then, for any candidates. */
  lemma SharedSubjectsLoseNothing(e: Engine, open: seq<Claim>, candidates: seq<string>, pair: set<string>)
    requires SameReferentSharesASubject(e, open)
    ensures Near(e, open, candidates, pair) <==> Touching(e, open, candidates, pair)
  {
    hide Subjects, Near, Touching;
    if Near(e, open, candidates, pair) {
      NearIsTouching(e, open, candidates, pair);
    }
    if Touching(e, open, candidates, pair) {
      assert ConflictsShareASubject(e, open);
      SharedIsNear(e, open, candidates, pair);
    }
  }

  /** Two names merged into one referent and a claim under each: some candidates miss their conflict. */
  lemma MergedNamesCanHideAConflict()
    ensures exists e, open, candidates, pair ::
              Symmetric(e) && UniqueIds(open) && Touching(e, open, candidates, pair) && !Near(e, open, candidates, pair)
  {
    hide Near, Touching, Relevant;
    var e := Engine((p, q) => p != q, p => false, subjects => {"r"});
    var a, b := Claim("a", ["x"], "p"), Claim("b", ["y"], "q");
    var open := [a, b];
    assert "a"[0] != "b"[0] && "p"[0] != "q"[0] && "x"[0] != "y"[0];
    assert a in open && b in open && Conflict(e, a, b);
    assert Subjects(a) * Subjects(b) == {};
    WholeAnswerIff(e, open);
    var candidates, pair :| !(Near(e, open, candidates, pair) <==> Touching(e, open, candidates, pair));
    if Near(e, open, candidates, pair) {
      NearIsTouching(e, open, candidates, pair);
    }
  }
}
