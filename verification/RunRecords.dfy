/** What a run of the exporter records of the answers it got, position by position. */
module RunRecords {
  import opened Wrappers
  import opened Json
  import opened Export
  import opened Gathering
  import opened ExporterInvariant

  // Which entries there are, what each belief cites, and what the evidence it cites is dated and carries.
  // A mention is a memory's source or one of its nodes, where a node is mentioned if it has an id and is an
  // event or an assertion. Mentions are of an origin: a source, an event or an antecedent belief.

  // ---------------------------------------------------------------- mentions, from the answers alone

  datatype Origin = OfSource(id: string) | OfEvent(id: string) | OfAntecedent(id: string)

  predicate Citable(nd: Node) {
    nd.id != "" && (nd.kind.EventNode? || nd.kind.AssertionNode?)
  }

  function OriginOf(nd: Node): Origin {
    if nd.kind.EventNode? then OfEvent(nd.id) else OfAntecedent(nd.id)
  }

  /** A memory mentions an origin: in its source, which is at -1, or in the node at `j`. */
  predicate MentionedAt(m: Memory, j: int, o: Origin): (at: bool)
    ensures at ==> if j == -1 then m.source.Some? else 0 <= j < |m.nodes|
  {
    || (j == -1 && m.source.Some? && o == OfSource(m.source.value.id))
    || (0 <= j < |m.nodes| && Citable(m.nodes[j]) && o == OriginOf(m.nodes[j]))
  }

  /** A source is dated when it was received, if it was received before the belief was recorded. */
  function MentionTime(m: Memory, j: int): int
    requires j == -1 ==> m.source.Some?
  {
    if j == -1 && m.source.value.received.Some? && m.source.value.received.value < m.recordedAt
    then m.source.value.received.value
    else m.recordedAt
  }

  function MentionExtra(m: Memory, j: int): seq<Member>
    requires j == -1 ==> m.source.Some?
    requires j != -1 ==> 0 <= j < |m.nodes|
  {
    if j == -1 then m.source.value.extra else m.nodes[j].extra
  }

  function CountCitable(nodes: seq<Node>): nat {
    if nodes == [] then 0
    else CountCitable(nodes[..|nodes| - 1]) + if Citable(nodes[|nodes| - 1]) then 1 else 0
  }

  /** How many mentions of a memory come before the one at `j`: the source first, then the nodes in order. */
  function PlaceOf(m: Memory, j: int): nat
    requires j <= |m.nodes|
  {
    if j < 0 then 0 else (if m.source.Some? then 1 else 0) + CountCitable(m.nodes[..j])
  }

  /** The answer is a memory with an id that no earlier answer remembered. */
  ghost predicate Counts(answers: seq<Answer>, i: int): (counts: bool)
    ensures counts ==> 0 <= i < |answers| && answers[i].Remembered?
  {
    && 0 <= i < |answers| && answers[i].Remembered? && answers[i].memory.assertion != ""
    && forall k :: 0 <= k < i && answers[k].Remembered? ==> answers[k].memory.assertion != answers[i].memory.assertion
  }

  ghost predicate Mentions(answers: seq<Answer>, i: int, j: int, o: Origin): (mentions: bool)
    ensures mentions ==> Counts(answers, i) && MentionedAt(answers[i].memory, j, o)
  {
    Counts(answers, i) && MentionedAt(answers[i].memory, j, o)
  }

  predicate NotAfter(i: int, j: int, i': int, j': int) {
    i < i' || (i == i' && j <= j')
  }

  // ---------------------------------------------------------------- one citation after another

  ghost predicate CitedFor(done: seq<Citation>, k: string, p: int): (cited: bool)
    ensures cited ==> 0 <= p < |done|
  {
    0 <= p < |done| && done[p].key == k
  }

  ghost predicate FirstFor(done: seq<Citation>, k: string, p: int): (first: bool)
    ensures first ==> CitedFor(done, k, p)
  {
    CitedFor(done, k, p) && forall q :: 0 <= q < p ==> done[q].key != k
  }

  /** Dated by the earliest of the citations under `k`, with the members of the first. */
  ghost predicate AsCited(e: Draft, done: seq<Citation>, k: string) {
    && (forall p :: CitedFor(done, k, p) ==> e.ts <= done[p].ts)
    && (exists p :: CitedFor(done, k, p) && e.ts == done[p].ts)
    && (exists p :: FirstFor(done, k, p) && e.extra == done[p].extra)
  }

  ghost predicate OnShelf(s: State, done: seq<Citation>, k: string) {
    k in s.pool && s.pool[k] < |s.entries| && s.entries[s.pool[k]].body.Evidence? && AsCited(s.entries[s.pool[k]], done, k)
  }

  ghost predicate Shelved(s: State, done: seq<Citation>) {
    && (forall p :: 0 <= p < |done| ==> OnShelf(s, done, done[p].key))
    && (forall k :: k in s.pool ==> exists p :: CitedFor(done, k, p))
    && (forall k, l :: k in s.pool && l in s.pool && s.pool[k] == s.pool[l] ==> k == l)
    && (forall i :: 0 <= i < |s.entries| && s.entries[i].body.Evidence? ==> exists k :: k in s.pool && s.pool[k] == i)
  }

  /** Nothing is forgotten or renamed, and only evidence can be redated. */
  ghost predicate Extends(s: State, t: State) {
    && |s.entries| <= |t.entries|
    && (forall i :: 0 <= i < |s.entries| ==>
         t.entries[i].id == s.entries[i].id && (s.entries[i].body.Evidence? || t.entries[i] == s.entries[i]))
    && (forall k :: k in s.pool ==> k in t.pool && t.pool[k] == s.pool[k])
  }

  lemma CitedMore(done: seq<Citation>, c: Citation, k: string)
    ensures forall p :: CitedFor(done + [c], k, p) <==> CitedFor(done, k, p) || (p == |done| && c.key == k)
    ensures forall p :: FirstFor(done, k, p) ==> FirstFor(done + [c], k, p)
    ensures (forall p :: !CitedFor(done, k, p)) && c.key == k ==> FirstFor(done + [c], k, |done|)
  {
    assert forall q :: 0 <= q < |done| && done[q].key == k ==> CitedFor(done, k, q);
  }

  lemma AsCitedMore(e: Draft, done: seq<Citation>, c: Citation, k: string)
    requires AsCited(e, done, k)
    ensures AsCited(if c.key == k && c.ts < e.ts then e.(ts := c.ts) else e, done + [c], k)
  {
    CitedMore(done, c, k);
    var all := done + [c];
    var p :| CitedFor(done, k, p) && e.ts == done[p].ts;
    var q :| FirstFor(done, k, q) && e.extra == done[q].extra;
    assert all[|done|] == c && all[p] == done[p] && all[q] == done[q];
    assert CitedFor(all, k, p) && FirstFor(all, k, q) && (c.key == k ==> CitedFor(all, k, |done|));
  }

  lemma FirstCitation(done: seq<Citation>, c: Citation, e: Draft)
    requires (forall p :: !CitedFor(done, c.key, p)) && e.ts == c.ts && e.extra == c.extra
    ensures AsCited(e, done + [c], c.key)
  {
    CitedMore(done, c, c.key);
    var all := done + [c];
    assert all[|done|] == c && CitedFor(all, c.key, |done|) && FirstFor(all, c.key, |done|);
  }

  /** A source cited again keeps its entry, earlier if need be; a new one gets an entry. */
  lemma CiteShelves(s: State, done: seq<Citation>, c: Citation)
    requires Shelved(s, done)
    ensures var (t, id) := Cite(s, c);
            && Shelved(t, done + [c]) && Extends(s, t)
            && c.key in t.pool && t.pool[c.key] < |t.entries| && id == t.entries[t.pool[c.key]].id
            && t.seen == s.seen && t.rows == s.rows && t.n == s.n
            && (forall d :: d in t.entries && d.body.Belief? ==> d in s.entries)
  {
    CiteAddsNoBelief(s, done, c);
    if c.key in s.pool {
      CitedAgain(s, done, c);
    } else {
      CitedNew(s, done, c);
    }
  }

  lemma CiteAddsNoBelief(s: State, done: seq<Citation>, c: Citation)
    requires Shelved(s, done)
    ensures forall d :: d in Cite(s, c).0.entries && d.body.Belief? ==> d in s.entries
  {
    hide Numbered, AsCited, CitedFor;
    if c.key in s.pool {
      ShelfHolds(s, done, c.key);
    }
  }

  lemma CitedAgain(s: State, done: seq<Citation>, c: Citation)
    requires Shelved(s, done) && c.key in s.pool
    ensures var (t, id) := Cite(s, c);
            && Shelved(t, done + [c]) && Extends(s, t)
            && c.key in t.pool && t.pool[c.key] < |t.entries| && id == t.entries[t.pool[c.key]].id
            && t.seen == s.seen && t.rows == s.rows && t.n == s.n
  {
    hide AsCited, CitedFor, FirstFor;
    var t, all := Cite(s, c).0, done + [c];
    ShelfHolds(s, done, c.key);
    forall k | k in s.pool
      ensures OnShelf(t, all, k)
    {
      ShelfHolds(s, done, k);
      AsCitedMore(s.entries[s.pool[k]], done, c, k);
    }
    forall p | 0 <= p < |all|
      ensures OnShelf(t, all, all[p].key)
    {
      assert p < |done| ==> all[p] == done[p];
    }
    forall k | k in t.pool
      ensures exists p :: CitedFor(all, k, p)
    {
      CitedMore(done, c, k);
      var p :| CitedFor(done, k, p);
    }
  }

  lemma ShelfHolds(s: State, done: seq<Citation>, k: string)
    requires Shelved(s, done) && k in s.pool
    ensures OnShelf(s, done, k)
  {
    hide OnShelf;
    var p :| CitedFor(done, k, p);
  }

  lemma CitedNew(s: State, done: seq<Citation>, c: Citation)
    requires Shelved(s, done) && c.key !in s.pool
    ensures var (t, id) := Cite(s, c);
            && Shelved(t, done + [c]) && Extends(s, t)
            && c.key in t.pool && t.pool[c.key] < |t.entries| && id == t.entries[t.pool[c.key]].id
            && t.seen == s.seen && t.rows == s.rows && t.n == s.n
  {
    hide AsCited, CitedFor, FirstFor;
    var d := Draft(Numbered("evidence", |s.pool| + 1), c.ts, Evidence, c.extra);
    hide Numbered;
    NotCitedYet(s, done, c.key);
    FirstCitation(done, c, d);
    NewEntryShelves(s, done, c, d);
  }

  lemma NewEntryShelves(s: State, done: seq<Citation>, c: Citation, d: Draft)
    requires Shelved(s, done) && c.key !in s.pool && d.body.Evidence? && AsCited(d, done + [c], c.key)
    ensures Shelved(s.(entries := s.entries + [d], pool := s.pool[c.key := |s.entries|]), done + [c])
  {
    hide AsCited, CitedFor, FirstFor;
    var t, all := s.(entries := s.entries + [d], pool := s.pool[c.key := |s.entries|]), done + [c];
    forall k | k in s.pool
      ensures OnShelf(t, all, k) && s.pool[k] < |s.entries|
    {
      ShelfHolds(s, done, k);
      AsCitedMore(s.entries[s.pool[k]], done, c, k);
    }
    forall p | 0 <= p < |all|
      ensures OnShelf(t, all, all[p].key)
    {
      if p < |done| {
        assert all[p] == done[p] && OnShelf(s, done, done[p].key);
      }
    }
    forall k | k in t.pool
      ensures exists p :: CitedFor(all, k, p)
    {
      CitedMore(done, c, k);
      if k in s.pool {
        var p :| CitedFor(done, k, p);
      } else {
        assert CitedFor(all, k, |done|);
      }
    }
    NewPool(s, t, c.key);
  }

  lemma NewPool(s: State, t: State, key: string)
    requires key !in s.pool && t.pool == s.pool[key := |s.entries|]
    requires |t.entries| == |s.entries| + 1 && t.entries[..|s.entries|] == s.entries
    requires forall k :: k in s.pool ==> s.pool[k] < |s.entries|
    requires forall k, l :: k in s.pool && l in s.pool && s.pool[k] == s.pool[l] ==> k == l
    requires forall i :: 0 <= i < |s.entries| && s.entries[i].body.Evidence? ==> exists k :: k in s.pool && s.pool[k] == i
    ensures forall k, l :: k in t.pool && l in t.pool && t.pool[k] == t.pool[l] ==> k == l
    ensures forall i :: 0 <= i < |t.entries| && t.entries[i].body.Evidence? ==> exists k :: k in t.pool && t.pool[k] == i
  {
    forall i | 0 <= i < |t.entries| && t.entries[i].body.Evidence?
      ensures exists k :: k in t.pool && t.pool[k] == i
    {
      if i < |s.entries| {
        assert t.entries[i] == s.entries[i];
        var k :| k in s.pool && s.pool[k] == i;
        assert k in t.pool && t.pool[k] == i;
      } else {
        assert key in t.pool && t.pool[key] == i;
      }
    }
  }

  lemma NotCitedYet(s: State, done: seq<Citation>, k: string)
    requires Shelved(s, done) && k !in s.pool
    ensures forall p :: !CitedFor(done, k, p)
  {
    assert forall p :: CitedFor(done, k, p) ==> OnShelf(s, done, done[p].key);
  }

  // ---------------------------------------------------------------- one answer after another

  ghost predicate Names(s: State, id: string, k: string) {
    k in s.pool && s.pool[k] < |s.entries| && s.entries[s.pool[k]].id == id
  }

  ghost predicate NamesAll(s: State, ids: seq<string>, cs: seq<Citation>) {
    |ids| == |cs| && forall i :: 0 <= i < |cs| ==> Names(s, ids[i], cs[i].key)
  }

  lemma NamesKept(s: State, t: State, ids: seq<string>, cs: seq<Citation>)
    requires Extends(s, t) && NamesAll(s, ids, cs)
    ensures NamesAll(t, ids, cs)
  {
    forall i | 0 <= i < |cs|
      ensures Names(t, ids[i], cs[i].key)
    {
      assert Names(s, ids[i], cs[i].key);
    }
  }

  lemma ExtendsOn(s: State, t: State, u: State)
    requires Extends(s, t) && Extends(t, u)
    ensures Extends(s, u)
  {
  }

  lemma {:induction false} CiteAllShelves(s: State, done: seq<Citation>, cs: seq<Citation>)
    requires Shelved(s, done)
    ensures var (t, ids) := CiteAll(s, cs);
            && Shelved(t, done + cs) && Extends(s, t) && NamesAll(t, ids, cs)
            && t.seen == s.seen && t.rows == s.rows && t.n == s.n
            && (forall d :: d in t.entries && d.body.Belief? ==> d in s.entries)
  {
    hide Shelved, Extends, Cite, Names;
    if cs == [] {
      assert done + cs == done;
      ExtendsItself(s);
    } else {
      var n := |cs| - 1;
      var (t, ids) := CiteAll(s, cs[..n]);
      var (u, id) := Cite(t, cs[n]);
      CiteAllShelves(s, done, cs[..n]);
      CiteShelves(t, done + cs[..n], cs[n]);
      assert done + cs[..n] + [cs[n]] == done + cs;
      ExtendsOn(s, t, u);
      NamesKept(t, u, ids, cs[..n]);
      IsNamed(u, id, cs[n].key);
      NamesOneMore(u, ids, cs[..n], id, cs[n]);
      assert cs[..n] + [cs[n]] == cs;
    }
  }

  lemma ExtendsItself(s: State)
    ensures Extends(s, s)
  {
  }

  lemma IsNamed(s: State, id: string, k: string)
    requires k in s.pool && s.pool[k] < |s.entries| && id == s.entries[s.pool[k]].id
    ensures Names(s, id, k)
  {
  }

  lemma NamesOneMore(s: State, ids: seq<string>, cs: seq<Citation>, id: string, c: Citation)
    requires NamesAll(s, ids, cs) && Names(s, id, c.key)
    ensures NamesAll(s, ids + [id], cs + [c])
  {
    hide Names;
  }

  /** The entry a memory is written as, citing all it mentions. */
  ghost predicate BeliefOf(s: State, d: Draft, m: Memory) {
    d.body.Belief? && d == Draft(m.assertion, m.recordedAt, d.body, m.extra) && NamesAll(s, d.body.evidence, Citations(m))
  }

  ghost predicate Told(s: State, m: Memory) {
    exists d :: d in s.entries && BeliefOf(s, d, m)
  }

  /** Entries that are neither evidence nor beliefs change nothing here. */
  ghost predicate Others(more: seq<Draft>) {
    forall d :: d in more ==> !d.body.Evidence? && !d.body.Belief?
  }

  lemma AppendShelves(s: State, t: State, done: seq<Citation>, more: seq<Draft>)
    requires Shelved(s, done) && t.entries == s.entries + more && t.pool == s.pool
    requires forall d :: d in more ==> !d.body.Evidence?
    ensures Shelved(t, done) && Extends(s, t)
  {
    hide AsCited, CitedFor;
    forall p | 0 <= p < |done|
      ensures OnShelf(t, done, done[p].key)
    {
      assert OnShelf(s, done, done[p].key);
    }
    assert forall i :: |s.entries| <= i < |t.entries| ==> t.entries[i] == more[i - |s.entries|] && more[i - |s.entries|] in more;
    forall i | 0 <= i < |t.entries| && t.entries[i].body.Evidence?
      ensures exists k :: k in t.pool && t.pool[k] == i
    {
      assert t.entries[i] == s.entries[i];
    }
  }

  lemma BeliefShelves(s: State, done: seq<Citation>, m: Memory)
    requires Shelved(s, done) && m.assertion != "" && m.assertion !in s.seen
    ensures var t := AddBelief(s, m);
            && Shelved(t, done + Citations(m)) && Extends(s, t)
            && |t.entries| > |s.entries| && BeliefOf(t, t.entries[|t.entries| - 1], m)
            && (forall d :: d in t.entries[..|t.entries| - 1] && d.body.Belief? ==> d in s.entries)
            && t.seen.Keys == s.seen.Keys + {m.assertion}
  {
    hide Shelved, CiteAll, Citations, NamesAll;
    var cs := Citations(m);
    var (t, ids) := CiteAll(s, cs);
    var d := Draft(m.assertion, m.recordedAt, Belief(ids), m.extra);
    var u := AddBelief(s, m);
    CiteAllShelves(s, done, cs);
    AppendShelves(t, u, done + cs, [d]);
    ExtendsOn(s, t, u);
    assert u.entries[..|u.entries| - 1] == t.entries;
    hide Extends;
    NamesKept(t, u, ids, cs);
  }

  lemma OthersAppended(s: State, a: Answer) returns (more: seq<Draft>)
    requires !a.Remembered?
    ensures var t := Take(s, a); t.entries == s.entries + more && t.pool == s.pool && t.seen == s.seen && Others(more)
  {
    hide Numbered, RanDecisions;
    match a
    case Contested(row, extra) =>
      SeenAreSeen(s, row);
      hide Seen, Latest;
      more := Take(s, a).entries[|s.entries|..];
    case Judged(v) =>
      more := Take(s, a).entries[|s.entries|..];
    case Repaired(r) =>
      more := if r.ran == [] then [] else Appended(s, r);
      if r.ran != [] {
        RecoveryAppends(s, r);
        AppendedAreActs(s, r);
      }
  }

  lemma AppendedAreActs(s: State, r: Recovery)
    requires r.ran != []
    ensures Others(Appended(s, r))
  {
    hide Numbered;
  }

  // ---------------------------------------------------------------- whole runs

  /** Every citation made for the first `n` answers, in order. */
  ghost function Done(answers: seq<Answer>, n: nat): seq<Citation>
    requires n <= |answers|
  {
    if n == 0 then []
    else Done(answers, n - 1) + if Counts(answers, n - 1) then Citations(answers[n - 1].memory) else []
  }

  ghost predicate RememberedBy(answers: seq<Answer>, n: nat, x: string)
    requires n <= |answers|
  {
    exists k :: 0 <= k < n && answers[k].Remembered? && answers[k].memory.assertion == x
  }

  lemma RememberedMore(answers: seq<Answer>, n: nat, x: string)
    requires n < |answers|
    ensures RememberedBy(answers, n + 1, x) <==>
              RememberedBy(answers, n, x) || (answers[n].Remembered? && answers[n].memory.assertion == x)
  {
    if answers[n].Remembered? && answers[n].memory.assertion == x {
      assert RememberedBy(answers, n + 1, x);
    }
  }

  lemma CountsAt(answers: seq<Answer>, n: nat)
    requires n < |answers|
    ensures Counts(answers, n) <==>
              answers[n].Remembered? && answers[n].memory.assertion != "" && !RememberedBy(answers, n, answers[n].memory.assertion)
  {
  }

  /** The belief is what is written of one of the first `n` answers. */
  ghost predicate Written(s: State, answers: seq<Answer>, n: nat, d: Draft)
    requires n <= |answers|
  {
    exists i :: 0 <= i < n && Counts(answers, i) && BeliefOf(s, d, answers[i].memory)
  }

  ghost predicate SeenAre(s: State, answers: seq<Answer>, n: nat)
    requires n <= |answers|
  {
    forall x :: x in s.seen <==> x != "" && RememberedBy(answers, n, x)
  }

  lemma SeenMore(s: State, t: State, answers: seq<Answer>, n: nat)
    requires n < |answers| && SeenAre(s, answers, n)
    requires t.seen.Keys == s.seen.Keys +
               if answers[n].Remembered? && answers[n].memory.assertion != "" then {answers[n].memory.assertion} else {}
    ensures SeenAre(t, answers, n + 1)
  {
    hide RememberedBy;
    forall x
      ensures x in t.seen <==> x != "" && RememberedBy(answers, n + 1, x)
    {
      RememberedMore(answers, n, x);
      assert x in t.seen <==> x in t.seen.Keys;
      assert x in s.seen <==> x in s.seen.Keys;
    }
  }

  lemma SeenHolds(s: State, answers: seq<Answer>, n: nat)
    requires n < |answers| && SeenAre(s, answers, n)
    ensures Counts(answers, n) <==>
              answers[n].Remembered? && answers[n].memory.assertion != "" && answers[n].memory.assertion !in s.seen
  {
    CountsAt(answers, n);
    hide RememberedBy, Counts;
  }

  /** The beliefs entered are the memories that count, each citing all it mentions. */
  ghost predicate Recorded(s: State, answers: seq<Answer>, n: nat)
    requires n <= |answers|
  {
    && Shelved(s, Done(answers, n))
    && SeenAre(s, answers, n)
    && (forall i :: 0 <= i < n && Counts(answers, i) ==> Told(s, answers[i].memory))
    && (forall d :: d in s.entries && d.body.Belief? ==> Written(s, answers, n, d))
  }

  lemma BeliefKept(s: State, t: State, d: Draft, m: Memory)
    requires Extends(s, t) && d in s.entries && BeliefOf(s, d, m)
    ensures d in t.entries && BeliefOf(t, d, m)
  {
    var i :| 0 <= i < |s.entries| && s.entries[i] == d;
    assert t.entries[i] == d;
    NamesKept(s, t, d.body.evidence, Citations(m));
  }

  lemma ToldKept(s: State, t: State, m: Memory)
    requires Extends(s, t) && Told(s, m)
    ensures Told(t, m)
  {
    hide BeliefOf, Extends;
    var d :| d in s.entries && BeliefOf(s, d, m);
    BeliefKept(s, t, d, m);
  }

  lemma WrittenKept(s: State, t: State, answers: seq<Answer>, n: nat, d: Draft)
    requires n < |answers| && Extends(s, t) && d in s.entries && Written(s, answers, n, d)
    ensures Written(t, answers, n + 1, d)
  {
    hide BeliefOf, Extends, Counts;
    var i :| 0 <= i < n && Counts(answers, i) && BeliefOf(s, d, answers[i].memory);
    BeliefKept(s, t, d, answers[i].memory);
  }

  lemma {:induction false} RunIsRecorded(answers: seq<Answer>, n: nat)
    requires n <= |answers|
    ensures Recorded(TakeAll(EMPTY, answers[..n]), answers, n)
  {
    hide Recorded, Take;
    if n == 0 {
      NothingRecorded(answers);
    } else {
      RunIsRecorded(answers, n - 1);
      assert answers[..n][..n - 1] == answers[..n - 1];
      RecordedMore(TakeAll(EMPTY, answers[..n - 1]), answers, n - 1);
    }
  }

  lemma NothingRecorded(answers: seq<Answer>)
    ensures Recorded(EMPTY, answers, 0)
  {
  }

  lemma RecordedMore(s: State, answers: seq<Answer>, n: nat)
    requires n < |answers| && Recorded(s, answers, n)
    ensures Recorded(Take(s, answers[n]), answers, n + 1)
  {
    hide Shelved, Extends, BeliefOf, Told, Written, Counts, SeenAre, Take, Others;
    var a, t := answers[n], Take(s, answers[n]);
    SeenHolds(s, answers, n);
    if a.Remembered? {
      TakesABelief(s, a.memory);
      if a.memory.assertion != "" && a.memory.assertion !in s.seen {
        BeliefShelves(s, Done(answers, n), a.memory);
        NewBeliefRecorded(s, t, answers, n);
      } else {
        ExtendsItself(s);
        assert s.entries + [] == s.entries;
        NoOthers();
        OthersRecorded(s, t, [], answers, n);
      }
    } else {
      var more := OthersAppended(s, a);
      NoEvidence(more);
      AppendShelves(s, t, Done(answers, n), more);
      OthersRecorded(s, t, more, answers, n);
    }
  }

  lemma TakesABelief(s: State, m: Memory)
    ensures Take(s, Remembered(m)) == AddBelief(s, m)
    ensures m.assertion == "" || m.assertion in s.seen ==> AddBelief(s, m) == s
  {
    hide CiteAll, Citations;
  }

  lemma NoOthers()
    ensures Others([])
  {
  }

  lemma NoEvidence(more: seq<Draft>)
    requires Others(more)
    ensures forall d :: d in more ==> !d.body.Evidence?
  {
  }

  lemma OthersRecorded(s: State, t: State, more: seq<Draft>, answers: seq<Answer>, n: nat)
    requires n < |answers| && Recorded(s, answers, n) && !Counts(answers, n)
    requires answers[n].Remembered? ==> answers[n].memory.assertion == "" || answers[n].memory.assertion in s.seen
    requires Shelved(t, Done(answers, n)) && Extends(s, t)
    requires t.entries == s.entries + more && Others(more) && t.seen == s.seen
    ensures Recorded(t, answers, n + 1)
  {
    hide Shelved, Extends, Told, Written, SeenAre, Counts;
    SeenMore(s, t, answers, n);
    assert Done(answers, n) + [] == Done(answers, n);
    forall i | 0 <= i < n + 1 && Counts(answers, i)
      ensures Told(t, answers[i].memory)
    {
      ToldKept(s, t, answers[i].memory);
    }
    forall d | d in t.entries && d.body.Belief?
      ensures Written(t, answers, n + 1, d)
    {
      WrittenKept(s, t, answers, n, d);
    }
  }

  lemma NewBeliefRecorded(s: State, t: State, answers: seq<Answer>, n: nat)
    requires n < |answers| && Recorded(s, answers, n) && Counts(answers, n)
    requires Shelved(t, Done(answers, n + 1)) && Extends(s, t)
    requires |t.entries| > |s.entries| && BeliefOf(t, t.entries[|t.entries| - 1], answers[n].memory)
    requires forall d :: d in t.entries[..|t.entries| - 1] && d.body.Belief? ==> d in s.entries
    requires t.seen.Keys == s.seen.Keys + {answers[n].memory.assertion}
    ensures Recorded(t, answers, n + 1)
  {
    hide Shelved, Extends, BeliefOf, Done, SeenAre, Written, Told, Counts;
    var last := t.entries[|t.entries| - 1];
    SeenHolds(s, answers, n);
    SeenMore(s, t, answers, n);
    forall i | 0 <= i < n + 1 && Counts(answers, i)
      ensures Told(t, answers[i].memory)
    {
      if i < n {
        ToldKept(s, t, answers[i].memory);
      } else {
        TellsLast(t, answers[n].memory);
      }
    }
    WritesLast(t, answers, n, last);
    forall d | d in t.entries && d.body.Belief?
      ensures Written(t, answers, n + 1, d)
    {
      if d != last {
        assert t.entries == t.entries[..|t.entries| - 1] + [last];
        WrittenKept(s, t, answers, n, d);
      }
    }
  }

  lemma TellsLast(t: State, m: Memory)
    requires t.entries != [] && BeliefOf(t, t.entries[|t.entries| - 1], m)
    ensures Told(t, m)
  {
    hide BeliefOf;
    assert t.entries[|t.entries| - 1] in t.entries;
  }

  lemma WritesLast(t: State, answers: seq<Answer>, n: nat, d: Draft)
    requires n < |answers| && Counts(answers, n) && BeliefOf(t, d, answers[n].memory)
    ensures Written(t, answers, n + 1, d)
  {
    hide BeliefOf, Counts;
    assert 0 <= n < n + 1;
  }

  // ---------------------------------------------------------------- citations, mention by mention

  function Key(o: Origin): string {
    match o
    case OfSource(id) => "src:" + id
    case OfEvent(id) => "event:" + id
    case OfAntecedent(id) => "derived:" + id
  }

  lemma KeysApart(o: Origin, o': Origin)
    requires Key(o) == Key(o')
    ensures o == o'
  {
    assert Key(o)[0] == Key(o')[0];
    match o
    case OfSource(id) => assert Key(o)[4..] == id && Key(o')[4..] == o'.id;
    case OfEvent(id) => assert Key(o)[6..] == id && Key(o')[6..] == o'.id;
    case OfAntecedent(id) => assert Key(o)[8..] == id && Key(o')[8..] == o'.id;
  }

  lemma OneNode(nd: Node, ts: int)
    ensures NodeCitations([nd], ts) == if Citable(nd) then [Citation(Key(OriginOf(nd)), ts, nd.extra)] else []
  {
    assert [nd][1..] == [] && NodeCitations([], ts) == [];
  }

  lemma FirstNode(nodes: seq<Node>, ts: int)
    requires nodes != []
    ensures NodeCitations(nodes, ts) == NodeCitations([nodes[0]], ts) + NodeCitations(nodes[1..], ts)
  {
    assert [nodes[0]][1..] == [] && NodeCitations([], ts) == [];
  }

  lemma {:induction false} NodeCitationsMore(nodes: seq<Node>, nd: Node, ts: int)
    ensures NodeCitations(nodes + [nd], ts) ==
              NodeCitations(nodes, ts) + if Citable(nd) then [Citation(Key(OriginOf(nd)), ts, nd.extra)] else []
  {
    OneNode(nd, ts);
    if nodes == [] {
      assert nodes + [nd] == [nd] && NodeCitations(nodes, ts) == [];
    } else {
      hide NodeCitations, Citable, Key, OriginOf;
      NodeCitationsMore(nodes[1..], nd, ts);
      FirstNode(nodes, ts);
      FirstNode(nodes + [nd], ts);
      assert (nodes + [nd])[1..] == nodes[1..] + [nd];
    }
  }

  lemma {:induction false} NodesCounted(nodes: seq<Node>, ts: int)
    ensures |NodeCitations(nodes, ts)| == CountCitable(nodes)
  {
    hide Citable, Key;
    if nodes != [] {
      var n := |nodes| - 1;
      NodesCounted(nodes[..n], ts);
      NodeCitationsMore(nodes[..n], nodes[n], ts);
      assert nodes[..n] + [nodes[n]] == nodes;
    }
  }

  /** The citation made for a node stands where the nodes before it leave off. */
  lemma {:induction false} NodeStands(nodes: seq<Node>, ts: int, j: nat)
    requires j < |nodes| && Citable(nodes[j])
    ensures var at := CountCitable(nodes[..j]);
            at < |NodeCitations(nodes, ts)| && NodeCitations(nodes, ts)[at] == Citation(Key(OriginOf(nodes[j])), ts, nodes[j].extra)
  {
    hide Citable, Key, OriginOf;
    var n := |nodes| - 1;
    NodeCitationsMore(nodes[..n], nodes[n], ts);
    assert nodes[..n] + [nodes[n]] == nodes;
    NodesCounted(nodes[..n], ts);
    if j < n {
      NodeStands(nodes[..n], ts, j);
      assert nodes[..n][..j] == nodes[..j];
    }
  }

  /** Every citation made for nodes is made for one of them. */
  lemma {:induction false} NodeCited(nodes: seq<Node>, ts: int, p: nat) returns (j: nat)
    requires p < |NodeCitations(nodes, ts)|
    ensures j < |nodes| && Citable(nodes[j]) && CountCitable(nodes[..j]) == p
  {
    hide Citable, Key, OriginOf;
    var n := |nodes| - 1;
    NodeCitationsMore(nodes[..n], nodes[n], ts);
    assert nodes[..n] + [nodes[n]] == nodes;
    NodesCounted(nodes[..n], ts);
    if p < |NodeCitations(nodes[..n], ts)| {
      j := NodeCited(nodes[..n], ts, p);
      assert nodes[..n][..j] == nodes[..j];
    } else {
      j := n;
    }
  }

  lemma CitationsStand(m: Memory, j: int, o: Origin)
    requires MentionedAt(m, j, o)
    ensures |Citations(m)| == PlaceOf(m, |m.nodes|)
    ensures PlaceOf(m, j) < |Citations(m)|
    ensures Citations(m)[PlaceOf(m, j)] == Citation(Key(o), MentionTime(m, j), MentionExtra(m, j))
  {
    PlacesCounted(m);
    if j >= 0 {
      NodeStands(m.nodes, m.recordedAt, j);
    }
    hide NodeCitations, CountCitable, Citable, OriginOf;
  }

  lemma PlacesCounted(m: Memory)
    ensures |Citations(m)| == PlaceOf(m, |m.nodes|)
  {
    NodesCounted(m.nodes, m.recordedAt);
    hide NodeCitations, CountCitable;
    assert m.nodes[..|m.nodes|] == m.nodes;
  }

  lemma CitationsMade(m: Memory, p: nat) returns (j: int, o: Origin)
    requires p < |Citations(m)|
    ensures MentionedAt(m, j, o) && PlaceOf(m, j) == p
  {
    var q := if m.source.Some? then 1 else 0;
    if p < q {
      j, o := -1, OfSource(m.source.value.id);
    } else {
      j := NodeCited(m.nodes, m.recordedAt, p - q);
      o := OriginOf(m.nodes[j]);
    }
    hide NodeCitations, CountCitable, Citable, OriginOf;
  }

  lemma {:induction false} CountGrows(nodes: seq<Node>, j: nat, k: nat)
    requires j < k <= |nodes|
    ensures CountCitable(nodes[..k]) >= CountCitable(nodes[..j]) + if Citable(nodes[j]) then 1 else 0
  {
    hide Citable;
    assert nodes[..k][..k - 1] == nodes[..k - 1] && nodes[..k][k - 1] == nodes[k - 1];
    if j < k - 1 {
      CountGrows(nodes, j, k - 1);
    }
  }

  lemma PlacesInOrder(m: Memory, j: int, o: Origin, k: int, u: Origin)
    requires MentionedAt(m, j, o) && MentionedAt(m, k, u)
    ensures PlaceOf(m, j) <= PlaceOf(m, k) <==> j <= k
  {
    if 0 <= j < k {
      CountGrows(m.nodes, j, k);
    } else if 0 <= k < j {
      CountGrows(m.nodes, k, j);
    }
    hide CountCitable;
  }

  // ---------------------------------------------------------------- the run's citations, mention by mention

  /** Where the citation made for a mention stands in the run. */
  ghost function Position(answers: seq<Answer>, i: int, j: int): nat
    requires Counts(answers, i) && j <= |answers[i].memory.nodes|
  {
    |Done(answers, i)| + PlaceOf(answers[i].memory, j)
  }

  function MentionOf(m: Memory, j: int, o: Origin): Citation
    requires MentionedAt(m, j, o)
  {
    Citation(Key(o), MentionTime(m, j), MentionExtra(m, j))
  }

  lemma {:induction false} DoneStands(answers: seq<Answer>, n: nat, i: int, j: int, o: Origin)
    requires n <= |answers| && i < n && Mentions(answers, i, j, o)
    ensures Position(answers, i, j) < |Done(answers, n)|
    ensures Done(answers, n)[Position(answers, i, j)] == MentionOf(answers[i].memory, j, o)
  {
    hide Counts, PlaceOf, Citations, Key, MentionTime, MentionExtra, MentionedAt;
    if i < n - 1 {
      DoneStands(answers, n - 1, i, j, o);
    } else {
      CitationsStand(answers[i].memory, j, o);
    }
  }

  lemma {:induction false} DoneGrows(answers: seq<Answer>, m: nat, n: nat)
    requires m <= n <= |answers|
    ensures |Done(answers, m)| <= |Done(answers, n)|
    ensures m < n && Counts(answers, m) ==> |Done(answers, m)| + |Citations(answers[m].memory)| <= |Done(answers, n)|
  {
    hide Counts, Citations;
    if m < n {
      DoneGrows(answers, m, n - 1);
    }
  }

  lemma {:induction false} DoneMade(answers: seq<Answer>, n: nat, p: nat) returns (i: int, j: int, o: Origin)
    requires n <= |answers| && p < |Done(answers, n)|
    ensures i < n && Mentions(answers, i, j, o) && Position(answers, i, j) == p
  {
    hide Counts, PlaceOf, Citations, MentionedAt;
    if p < |Done(answers, n - 1)| {
      i, j, o := DoneMade(answers, n - 1, p);
    } else {
      i := n - 1;
      j, o := CitationsMade(answers[i].memory, p - |Done(answers, n - 1)|);
    }
  }

  lemma PositionsInOrder(answers: seq<Answer>, i: int, j: int, o: Origin, k: int, l: int, u: Origin)
    requires Mentions(answers, i, j, o) && Mentions(answers, k, l, u)
    ensures Position(answers, i, j) <= Position(answers, k, l) <==> NotAfter(i, j, k, l)
  {
    hide Counts, Citations, MentionedAt, PlaceOf, Done;
    CitationsStand(answers[i].memory, j, o);
    CitationsStand(answers[k].memory, l, u);
    if i < k {
      DoneGrows(answers, i, k);
    } else if k < i {
      DoneGrows(answers, k, i);
    } else {
      PlacesInOrder(answers[i].memory, j, o, l, u);
    }
  }

  // ---------------------------------------------------------------- main results

  /** Dated by the earliest mention of its origin, with what the first mention says of it. */
  ghost predicate Describes(answers: seq<Answer>, e: Draft, o: Origin) {
    && (forall i, j :: Mentions(answers, i, j, o) ==> e.ts <= MentionTime(answers[i].memory, j))
    && (exists i, j :: Mentions(answers, i, j, o) && e.ts == MentionTime(answers[i].memory, j))
    && (exists i, j :: Mentions(answers, i, j, o) && e.extra == MentionExtra(answers[i].memory, j)
          && forall k, l :: Mentions(answers, k, l, o) ==> NotAfter(i, j, k, l))
  }

  lemma CitedBy(answers: seq<Answer>, o: Origin, p: int) returns (i: int, j: int)
    requires CitedFor(Done(answers, |answers|), Key(o), p)
    ensures Mentions(answers, i, j, o) && Position(answers, i, j) == p
    ensures Done(answers, |answers|)[p] == MentionOf(answers[i].memory, j, o)
  {
    hide Counts, Position, MentionedAt, Done, Key;
    var u;
    i, j, u := DoneMade(answers, |answers|, p);
    DoneStands(answers, |answers|, i, j, u);
    KeysApart(o, u);
  }

  lemma MentionCites(answers: seq<Answer>, i: int, j: int, o: Origin)
    requires Mentions(answers, i, j, o)
    ensures CitedFor(Done(answers, |answers|), Key(o), Position(answers, i, j))
    ensures Done(answers, |answers|)[Position(answers, i, j)] == MentionOf(answers[i].memory, j, o)
  {
    hide Counts, Position, MentionedAt, Done, Key;
    DoneStands(answers, |answers|, i, j, o);
  }

  lemma AsMentioned(answers: seq<Answer>, e: Draft, o: Origin)
    requires AsCited(e, Done(answers, |answers|), Key(o))
    ensures Describes(answers, e, o)
  {
    hide Counts, Position, MentionedAt, Done, Key, MentionTime, MentionExtra, Mentions, CitedFor, FirstFor;
    forall i, j | Mentions(answers, i, j, o)
      ensures e.ts <= MentionTime(answers[i].memory, j)
    {
      MentionCites(answers, i, j, o);
    }
    var p :| CitedFor(Done(answers, |answers|), Key(o), p) && e.ts == Done(answers, |answers|)[p].ts;
    var _, _ := CitedBy(answers, o, p);
    FirstMention(answers, e, o);
  }

  lemma FirstMention(answers: seq<Answer>, e: Draft, o: Origin)
    requires AsCited(e, Done(answers, |answers|), Key(o))
    ensures exists i, j :: Mentions(answers, i, j, o) && e.extra == MentionExtra(answers[i].memory, j)
              && forall k, l :: Mentions(answers, k, l, o) ==> NotAfter(i, j, k, l)
  {
    hide Counts, Position, MentionedAt, Done, Key, MentionTime, MentionExtra, Mentions, NotAfter;
    var done := Done(answers, |answers|);
    var q :| FirstFor(done, Key(o), q) && e.extra == done[q].extra;
    var i, j := CitedBy(answers, o, q);
    forall k, l | Mentions(answers, k, l, o)
      ensures NotAfter(i, j, k, l)
    {
      MentionCites(answers, k, l, o);
      assert Position(answers, k, l) >= q;
      PositionsInOrder(answers, i, j, o, k, l, o);
    }
  }

  lemma ToldOf(s: State, answers: seq<Answer>, i: int) returns (d: Draft)
    requires Recorded(s, answers, |answers|) && Counts(answers, i)
    ensures d in s.entries && BeliefOf(s, d, answers[i].memory)
  {
    hide Shelved, SeenAre, Written, Counts, BeliefOf;
    d :| d in s.entries && BeliefOf(s, d, answers[i].memory);
  }

  lemma RecordedShelves(s: State, answers: seq<Answer>)
    requires Recorded(s, answers, |answers|)
    ensures Shelved(s, Done(answers, |answers|))
  {
    hide Shelved;
  }

  /** The entry an origin is cited by. */
  ghost predicate StandsFor(s: State, e: Draft, k: string) {
    k in s.pool && s.pool[k] < |s.entries| && e == s.entries[s.pool[k]]
  }

  lemma MentionStands(s: State, answers: seq<Answer>, i: int, j: int, o: Origin, d: Draft) returns (e: Draft)
    requires Recorded(s, answers, |answers|) && Mentions(answers, i, j, o) && BeliefOf(s, d, answers[i].memory)
    ensures PlaceOf(answers[i].memory, j) < |d.body.evidence| == PlaceOf(answers[i].memory, |answers[i].memory.nodes|)
    ensures e in s.entries && e.body.Evidence? && e.id == d.body.evidence[PlaceOf(answers[i].memory, j)]
    ensures StandsFor(s, e, Key(o)) && Describes(answers, e, o)
  {
    hide Recorded, Shelved, Describes, AsCited, Counts, MentionedAt, PlaceOf, Citations, Key, Done;
    var m := answers[i].memory;
    CitationsStand(m, j, o);
    var p := PlaceOf(m, j);
    assert Names(s, d.body.evidence[p], Citations(m)[p].key);
    e := s.entries[s.pool[Key(o)]];
    RecordedShelves(s, answers);
    ShelfHolds(s, Done(answers, |answers|), Key(o));
    AsMentioned(answers, e, o);
  }

  /** Every mention is cited, in its place, by an evidence entry of its origin. */
  lemma EveryMentionIsCited(answers: seq<Answer>, i: int, j: int, o: Origin) returns (d: Draft, e: Draft)
    requires Mentions(answers, i, j, o)
    ensures var entries, m := TakeAll(EMPTY, answers).entries, answers[i].memory;
            && d in entries && d.body.Belief? && d == Draft(m.assertion, m.recordedAt, d.body, m.extra)
            && PlaceOf(m, j) < |d.body.evidence| == PlaceOf(m, |m.nodes|)
            && e in entries && e.body.Evidence? && e.id == d.body.evidence[PlaceOf(m, j)] && Describes(answers, e, o)
  {
    hide Recorded, Describes, Counts, MentionedAt, PlaceOf, NamesAll, TakeAll, StandsFor;
    var s := TakeAll(EMPTY, answers);
    assert answers[..|answers|] == answers;
    RunIsRecorded(answers, |answers|);
    d := ToldOf(s, answers, i);
    e := MentionStands(s, answers, i, j, o, d);
  }

  /** Every memory that counts is a belief, citing as many as it mentions; and there is no other belief. */
  lemma EveryMemoryIsABelief(answers: seq<Answer>)
    ensures forall i :: Counts(answers, i) ==>
              exists d :: d in TakeAll(EMPTY, answers).entries && WrittenAs(d, answers[i].memory)
    ensures forall d :: d in TakeAll(EMPTY, answers).entries && d.body.Belief? ==>
              exists i :: Counts(answers, i) && WrittenAs(d, answers[i].memory)
  {
    hide Counts, TakeAll, BeliefOf, WrittenAs, Shelved, SeenAre;
    var s := TakeAll(EMPTY, answers);
    assert answers[..|answers|] == answers;
    RunIsRecorded(answers, |answers|);
    forall i | Counts(answers, i)
      ensures exists d :: d in s.entries && WrittenAs(d, answers[i].memory)
    {
      var d := ToldOf(s, answers, i);
      AsWritten(s, d, answers[i].memory);
    }
    forall d | d in s.entries && d.body.Belief?
      ensures exists i :: Counts(answers, i) && WrittenAs(d, answers[i].memory)
    {
      var i :| 0 <= i < |answers| && Counts(answers, i) && BeliefOf(s, d, answers[i].memory);
      AsWritten(s, d, answers[i].memory);
    }
  }

  ghost predicate WrittenAs(d: Draft, m: Memory) {
    d.body.Belief? && d == Draft(m.assertion, m.recordedAt, d.body, m.extra) && |d.body.evidence| == PlaceOf(m, |m.nodes|)
  }

  lemma AsWritten(s: State, d: Draft, m: Memory)
    requires BeliefOf(s, d, m)
    ensures WrittenAs(d, m)
  {
    hide PlaceOf, Citations, Names;
    PlacesCounted(m);
  }

  /** Two mentions are cited by one id exactly when they are of one source, one event or one antecedent. */
  lemma SameIdIff(answers: seq<Answer>, i: int, j: int, o: Origin, d: Draft, k: int, l: int, u: Origin, f: Draft)
    requires NamesApart(answers) && Mentions(answers, i, j, o) && Mentions(answers, k, l, u)
    requires d in TakeAll(EMPTY, answers).entries && d.body.Belief? && d.id == answers[i].memory.assertion
    requires f in TakeAll(EMPTY, answers).entries && f.body.Belief? && f.id == answers[k].memory.assertion
    ensures var p, q := PlaceOf(answers[i].memory, j), PlaceOf(answers[k].memory, l);
            p < |d.body.evidence| && q < |f.body.evidence| && (d.body.evidence[p] == f.body.evidence[q] <==> o == u)
  {
    hide Recorded, Describes, Counts, MentionedAt, PlaceOf, NamesAll, TakeAll, NamesApart, Good, Shelved, Key, Done, StandsFor;
    var s := TakeAll(EMPTY, answers);
    assert answers[..|answers|] == answers;
    RunIsRecorded(answers, |answers|);
    EveryRunIsGood(answers);
    var d' := ToldOf(s, answers, i);
    var f' := ToldOf(s, answers, k);
    OneEntry(s, d, d');
    OneEntry(s, f, f');
    var e := MentionStands(s, answers, i, j, o, d);
    var g := MentionStands(s, answers, k, l, u, f);
    RecordedShelves(s, answers);
    OneOrigin(s, Done(answers, |answers|), e, o, g, u);
  }

  lemma OneEntry(s: State, d: Draft, f: Draft)
    requires Good(s) && d in s.entries && f in s.entries && d.id == f.id
    ensures d == f
  {
    assert DistinctIds(s.entries);
    var i :| 0 <= i < |s.entries| && s.entries[i] == d;
    var j :| 0 <= j < |s.entries| && s.entries[j] == f;
    assert !(i < j) && !(j < i);
  }

  lemma OneOrigin(s: State, done: seq<Citation>, e: Draft, o: Origin, g: Draft, u: Origin)
    requires Good(s) && Shelved(s, done) && StandsFor(s, e, Key(o)) && StandsFor(s, g, Key(u))
    ensures e.id == g.id <==> o == u
  {
    hide Key, OnShelf, CitedFor;
    assert DistinctIds(s.entries);
    if e.id == g.id {
      assert s.pool[Key(o)] == s.pool[Key(u)];
      KeysApart(o, u);
    }
  }

  /** Nothing else is evidence. */
  lemma OnlyMentionsAreEvidence(answers: seq<Answer>, e: Draft)
    requires e in TakeAll(EMPTY, answers).entries && e.body.Evidence?
    ensures exists i, j, o :: Mentions(answers, i, j, o) && Describes(answers, e, o)
  {
    hide Recorded, Describes, Counts, MentionedAt, Position, TakeAll, Key, Done, AsCited;
    var s := TakeAll(EMPTY, answers);
    assert answers[..|answers|] == answers;
    RunIsRecorded(answers, |answers|);
    RecordedShelves(s, answers);
    var n :| 0 <= n < |s.entries| && s.entries[n] == e;
    var k :| k in s.pool && s.pool[k] == n;
    var p :| CitedFor(Done(answers, |answers|), k, p);
    var i, j, o := DoneMade(answers, |answers|, p);
    DoneStands(answers, |answers|, i, j, o);
    ShelfHolds(s, Done(answers, |answers|), k);
    AsMentioned(answers, e, o);
  }
}
