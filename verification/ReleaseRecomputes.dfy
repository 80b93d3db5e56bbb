/**
 A release verifies against itself, and against nothing else: the numbers are those of the snapshots
 it was built from, and a changed contribution or a changed file is a reported problem.
 */
module ReleaseRecomputes {
  import opened Wrappers
  import opened Ordering
  import opened CommonsTokens
  import opened Contribution
  import opened Pooling
  import opened PooledBank
  import opened Ledger
  import opened Release
  import TestimonyRecord

  // ---------------------------------------------------------------- the digests are over sorted rows

  lemma {:induction false} PlaceKeepsFirst(lexicon: Lexicon, x: Row, s: seq<Row>, k: Pair)
    ensures First(lexicon, Place(PairOrSame, x, s), k) == First(lexicon, [x] + s, k)
  {
    hide Publishable, PairOrSame;
    var placed := Place(PairOrSame, x, s);
    assert ([x] + s)[1..] == s;
    if s != [] && !PairOrSame(x, s[0]) {
      PlaceKeepsFirst(lexicon, x, s[1..], k);
      assert placed[1..] == Place(PairOrSame, x, s[1..]);
      assert ([x] + s[1..])[1..] == s[1..];
      OtherPair(x, s[0]);
    }
  }

  lemma OtherPair(x: Row, y: Row)
    requires !PairOrSame(x, y)
    ensures PairOf(x) != PairOf(y)
  {
    hide TestimonyRecord.AtOrBefore;
    TextsOrdered(x.consequent, x.consequent, x.consequent);
  }

  /** Sorting by pair leaves each instance speaking for a pair by the same row. */
  lemma {:induction false} SortKeepsFirst(lexicon: Lexicon, rows: seq<Row>, k: Pair)
    ensures First(lexicon, SortBy(PairOrSame, rows), k) == First(lexicon, rows, k)
  {
    hide Publishable, PairOrSame;
    if rows != [] {
      SortKeepsFirst(lexicon, rows[1..], k);
      PlaceKeepsFirst(lexicon, rows[0], SortBy(PairOrSame, rows[1..]), k);
      FirstOfCons(lexicon, rows[0], SortBy(PairOrSame, rows[1..]), k);
    }
  }

  lemma FirstOfCons(lexicon: Lexicon, x: Row, s: seq<Row>, k: Pair)
    ensures First(lexicon, [x] + s, k) == if Publishable(lexicon, x) && PairOf(x) == k then Some(x) else First(lexicon, s, k)
  {
    hide Publishable;
    assert ([x] + s)[1..] == s;
  }

  // ---------------------------------------------------------------- the dicts of a release

  lemma {:induction false} ByInstanceFinds(cs: seq<Entry>)
    ensures forall i :: i in ByInstance(cs) ==> ByInstance(cs)[i] in cs && ByInstance(cs)[i].instance == i
    ensures forall c :: c in cs ==> c.instance in ByInstance(cs)
  {
    if cs != [] {
      ByInstanceFinds(cs[..|cs| - 1]);
      assert forall c :: c in cs <==> c in cs[..|cs| - 1] || c == cs[|cs| - 1];
    }
  }

  lemma ReleasedEntries(build: Build, latest: map<string, Snapshot>, cs: seq<Entry>)
    requires Lists(build, latest, cs)
    ensures ByInstance(cs).Keys == latest.Keys
    ensures forall i :: i in latest ==> ByInstance(cs)[i] == EntryOf(build, i, latest[i])
  {
    hide EntryOf, InOrder, Distinct;
    ByInstanceFinds(cs);
    forall i
      ensures i in ByInstance(cs) <==> i in latest
    {
      if i in latest {
        EntryNames(build, i, latest[i]);
        assert EntryOf(build, i, latest[i]) in cs;
      }
    }
  }

  function Names(cs: seq<Entry>): seq<Named> {
    seq(|cs|, n requires 0 <= n < |cs| => Named(cs[n].instance, cs[n].digest))
  }

  lemma {:induction false} NamedAre(cs: seq<Entry>)
    ensures NamedIn(Names(cs)).Keys == ByInstance(cs).Keys
    ensures forall i :: i in ByInstance(cs) ==> NamedIn(Names(cs))[i] == ByInstance(cs)[i].digest
  {
    if cs != [] {
      var n := |cs| - 1;
      NamedAre(cs[..n]);
      assert Names(cs)[..n] == Names(cs[..n]);
    }
  }

  // ---------------------------------------------------------------- rebuilding gives one corpus

  /** The same instances with the same rows. */
  ghost predicate SameContributions(have: map<string, Entry>, have': map<string, Entry>) {
    have.Keys == have'.Keys && forall i :: i in have ==> have[i].patterns == have'[i].patterns
  }

  lemma {:induction false} PatternsPermute(have: map<string, Entry>, have': map<string, Entry>, keys: seq<string>, keys': seq<string>)
    requires SameContributions(have, have') && multiset(keys) == multiset(keys') && forall i :: i in keys ==> i in have
    ensures forall i :: i in keys' ==> i in have'
    ensures multiset(PatternsOf(have, keys)) == multiset(PatternsOf(have', keys'))
  {
    SameBag(keys, keys');
    if keys != [] {
      var n := |keys| - 1;
      var i, rest := Matching(keys, keys');
      PatternsPermute(have, have', keys[..n], rest);
      PatternsSplit(have, keys, n);
      PatternsSplit(have', keys', i);
      assert keys[..n] + keys[n + 1..] == keys[..n];
      assert keys[n] in keys;
    }
  }

  lemma PatternsSplit(have: map<string, Entry>, keys: seq<string>, i: nat)
    requires i < |keys| && forall k :: k in keys ==> k in have
    ensures var rest := keys[..i] + keys[i + 1..];
            && (forall k :: k in rest ==> k in have)
            && keys[i] in have
            && multiset(PatternsOf(have, keys)) == multiset(PatternsOf(have, rest)) + multiset{have[keys[i]].patterns}
  {
    var rest := keys[..i] + keys[i + 1..];
    assert forall k :: k in rest ==> k in keys;
    assert keys[i] in keys;
    var all := PatternsOf(have, keys);
    assert all == all[..i] + [all[i]] + all[i + 1..];
    assert PatternsOf(have, rest) == all[..i] + all[i + 1..];
  }

  lemma RebuiltIsOne(build: Build, own: seq<Row>, have: map<string, Entry>, have': map<string, Entry>, rows: seq<Pooled>, rows': seq<Pooled>)
    requires SameContributions(have, have') && Rebuilds(build, own, have, rows) && Rebuilds(build, own, have', rows')
    ensures rows == rows'
  {
    hide Banks;
    var keys :| Distinct(keys) && (forall i :: i in keys <==> i in have) && Banks(build.lexicon, own, PatternsOf(have, keys), rows);
    var keys' :| Distinct(keys') && (forall i :: i in keys' <==> i in have') && Banks(build.lexicon, own, PatternsOf(have', keys'), rows');
    hide Distinct;
    DistinctSame(keys, keys');
    PatternsPermute(have, have', keys, keys');
    BankForgetsArrival(build.lexicon, own, PatternsOf(have, keys), PatternsOf(have', keys'), rows, rows');
  }

  // ---------------------------------------------------------------- verification

  /** What `VerifyRelease` answers. */
  ghost predicate Answers(build: Build, m: Manifest, have: map<string, Entry>, jsonl: string, rows: seq<Pooled>, problems: seq<Problem>) {
    forall p :: p in problems <==>
      || ContributionShows(build, NamedIn(m.contributions), have, p)
      || CorpusShows(build, m, build.text(rows), jsonl, p)
  }

  ghost predicate Released(build: Build, own: seq<Row>, latest: map<string, Snapshot>, cs: seq<Entry>, rows: seq<Pooled>, m: Manifest) {
    Lists(build, latest, cs) && Rebuilds(build, own, ByInstance(cs), rows) && m == ManifestOf(build, cs, rows)
  }

  lemma ReleasedNames(build: Build, own: seq<Row>, latest: map<string, Snapshot>, cs: seq<Entry>, rows: seq<Pooled>, m: Manifest, i: string)
    requires Released(build, own, latest, cs, rows, m)
    ensures i in NamedIn(m.contributions) <==> i in ByInstance(cs)
    ensures i in ByInstance(cs) ==> NamedIn(m.contributions)[i] == Marked(build.digest(ByInstance(cs)[i].patterns))
  {
    NamedAre(cs);
    ReleasedEntries(build, latest, cs);
    hide Lists, Rebuilds, NamedIn, ByInstance, Marked;
    assert m.contributions == Names(cs);
  }

  /** A release verifies on its own manifest, contributions and text. */
  lemma OwnReleaseVerifies(build: Build, own: seq<Row>, latest: map<string, Snapshot>, cs: seq<Entry>, rows: seq<Pooled>, m: Manifest,
                           have: map<string, Entry>, rows': seq<Pooled>, problems: seq<Problem>)
    requires Released(build, own, latest, cs, rows, m) && SameContributions(ByInstance(cs), have)
    requires Rebuilds(build, own, have, rows') && Answers(build, m, have, build.text(rows), rows', problems)
    ensures problems == []
  {
    hide *;
    SameRows(build, own, latest, cs, rows, m, have, rows');
    forall p
      ensures p !in problems
    {
      forall i {
        ReleasedNames(build, own, latest, cs, rows, m, i);
      }
      NothingShows(build, m, ByInstance(cs), have, build.text(rows), p);
      InAnswers(build, m, have, build.text(rows), rows', problems, p);
    }
    NoneIn(problems);
  }

  lemma NoneIn(problems: seq<Problem>)
    requires forall p :: p !in problems
    ensures problems == []
  {
    if problems != [] {
      SomeIn(problems);
    }
  }

  lemma SomeIn(problems: seq<Problem>)
    requires problems != []
    ensures exists p :: p in problems
  {
    assert problems[0] in problems;
  }

  lemma InAnswers(build: Build, m: Manifest, have: map<string, Entry>, jsonl: string, rows: seq<Pooled>, problems: seq<Problem>, p: Problem)
    requires Answers(build, m, have, jsonl, rows, problems)
    ensures p in problems <==> ContributionShows(build, NamedIn(m.contributions), have, p) || CorpusShows(build, m, build.text(rows), jsonl, p)
  {
    hide ContributionShows, CorpusShows;
  }

  lemma SameRows(build: Build, own: seq<Row>, latest: map<string, Snapshot>, cs: seq<Entry>, rows: seq<Pooled>, m: Manifest,
                 have: map<string, Entry>, rows': seq<Pooled>)
    requires Released(build, own, latest, cs, rows, m) && SameContributions(ByInstance(cs), have) && Rebuilds(build, own, have, rows')
    ensures rows == rows' && m.aggregation == build.version && m.corpus == Marked(build.sha(build.text(rows)))
  {
    hide Rebuilds, SameContributions, Lists, Marked;
    RebuiltIsOne(build, own, ByInstance(cs), have, rows, rows');
  }

  lemma NothingShows(build: Build, m: Manifest, released: map<string, Entry>, have: map<string, Entry>, text: string, p: Problem)
    requires SameContributions(released, have) && m.aggregation == build.version && m.corpus == Marked(build.sha(text))
    requires forall i :: i in NamedIn(m.contributions) <==> i in released
    requires forall i :: i in released ==> NamedIn(m.contributions)[i] == Marked(build.digest(released[i].patterns))
    ensures !ContributionShows(build, NamedIn(m.contributions), have, p) && !CorpusShows(build, m, text, text, p)
  {
    hide NamedIn, Marked;
  }

  lemma MarkedApart(x: string, y: string)
    requires Marked(x) == Marked(y)
    ensures x == y
  {
    TakeOff("sha256:", x, y);
  }

  /** No two of the lists of rows, and no two of the texts, that the two sides hash have one digest. */
  ghost predicate NoCollisions(build: Build, released: map<string, Entry>, have: map<string, Entry>, texts: set<string>) {
    && (forall i :: i in released && i in have && build.digest(released[i].patterns) == build.digest(have[i].patterns) ==>
         released[i].patterns == have[i].patterns)
    && (forall t, u :: t in texts && u in texts && build.sha(t) == build.sha(u) ==> t == u)
  }

  /**
   And on nothing else: whoever verifies a release with no problem reported holds the contributions
   it was made from and the text it was published as.
   */
  lemma OnlyTheReleaseVerifies(build: Build, own: seq<Row>, latest: map<string, Snapshot>, cs: seq<Entry>, rows: seq<Pooled>, m: Manifest,
                               have: map<string, Entry>, rows': seq<Pooled>, jsonl: string, problems: seq<Problem>)
    requires Released(build, own, latest, cs, rows, m)
    requires Answers(build, m, have, jsonl, rows', problems) && problems == []
    requires NoCollisions(build, ByInstance(cs), have, {build.text(rows), build.text(rows'), jsonl})
    ensures SameContributions(ByInstance(cs), have) && jsonl == build.text(rows)
  {
    hide *;
    var released := ByInstance(cs);
    forall i
      ensures i in released <==> i in have
      ensures i in released && i in have ==> released[i].patterns == have[i].patterns
    {
      ReleasedNames(build, own, latest, cs, rows, m, i);
      InAnswers(build, m, have, jsonl, rows', problems, Missing(i));
      InAnswers(build, m, have, jsonl, rows', problems, Extra(i));
      InAnswers(build, m, have, jsonl, rows', problems, OtherDigest(i));
      Unreported(build, NamedIn(m.contributions), released, have, {build.text(rows), build.text(rows'), jsonl}, i);
    }
    AreSame(released, have);
    InAnswers(build, m, have, jsonl, rows', problems, OtherCorpus);
    InAnswers(build, m, have, jsonl, rows', problems, OtherFile);
    CorpusOf(build, own, latest, cs, rows, m);
    SameText(build, m, released, have, build.text(rows), build.text(rows'), jsonl);
  }

  lemma Unreported(build: Build, named: map<string, string>, released: map<string, Entry>, have: map<string, Entry>, texts: set<string>, i: string)
    requires NoCollisions(build, released, have, texts)
    requires i in named <==> i in released
    requires i in released ==> named[i] == Marked(build.digest(released[i].patterns))
    requires !ContributionShows(build, named, have, Missing(i)) && !ContributionShows(build, named, have, Extra(i))
    requires !ContributionShows(build, named, have, OtherDigest(i))
    ensures i in released <==> i in have
    ensures i in released && i in have ==> released[i].patterns == have[i].patterns
  {
    hide Marked;
    if i in released && i in have {
      MarkedApart(build.digest(have[i].patterns), build.digest(released[i].patterns));
    }
  }

  lemma AreSame(released: map<string, Entry>, have: map<string, Entry>)
    requires forall i :: i in released <==> i in have
    requires forall i :: i in released && i in have ==> released[i].patterns == have[i].patterns
    ensures SameContributions(released, have)
  {
  }

  lemma CorpusOf(build: Build, own: seq<Row>, latest: map<string, Snapshot>, cs: seq<Entry>, rows: seq<Pooled>, m: Manifest)
    requires Released(build, own, latest, cs, rows, m)
    ensures m.corpus == Marked(build.sha(build.text(rows)))
  {
    hide Lists, Rebuilds, Marked;
  }

  lemma SameText(build: Build, m: Manifest, released: map<string, Entry>, have: map<string, Entry>, text: string, rebuilt: string, jsonl: string)
    requires NoCollisions(build, released, have, {text, rebuilt, jsonl}) && m.corpus == Marked(build.sha(text))
    requires !CorpusShows(build, m, rebuilt, jsonl, OtherCorpus) && !CorpusShows(build, m, rebuilt, jsonl, OtherFile)
    ensures jsonl == text
  {
    hide Marked;
    MarkedApart(build.sha(rebuilt), build.sha(text));
  }

  // ---------------------------------------------------------------- the numbers published

  function Snapshots(latest: map<string, Snapshot>, keys: seq<string>): seq<seq<Row>>
    requires forall i :: i in keys ==> i in latest
  {
    seq(|keys|, n requires 0 <= n < |keys| => latest[keys[n]].patterns)
  }

  lemma {:induction false} SameShares(lexicon: Lexicon, sent: seq<seq<Row>>, sent': seq<seq<Row>>, k: Pair)
    requires |sent| == |sent'| && forall n :: 0 <= n < |sent| ==> sent'[n] == SortBy(PairOrSame, sent[n])
    ensures SentTotal(lexicon, sent, k) == SentTotal(lexicon, sent', k)
  {
    hide First;
    if sent != [] {
      var n := |sent| - 1;
      SameShares(lexicon, sent[..n], sent'[..n], k);
      SortKeepsFirst(lexicon, sent[n], k);
    }
  }

  /** The corpus published is the bank of the newest usable snapshots themselves. */
  lemma CorpusIsTheBank(build: Build, own: seq<Row>, latest: map<string, Snapshot>, cs: seq<Entry>, rows: seq<Pooled>, m: Manifest,
                        keys: seq<string>, bank: seq<Pooled>)
    requires Released(build, own, latest, cs, rows, m)
    requires Distinct(keys) && forall i :: i in keys <==> i in latest
    requires Banks(build.lexicon, own, Snapshots(latest, keys), bank)
    ensures rows == bank
  {
    hide Banks;
    var have := ByInstance(cs);
    ReleasedEntries(build, latest, cs);
    var keys' :| Distinct(keys') && (forall i :: i in keys' <==> i in have) && Banks(build.lexicon, own, PatternsOf(have, keys'), rows);
    hide Distinct, Lists, ByInstance;
    DistinctSame(keys, keys');
    var sent := PatternsOf(have, keys);
    PatternsPermute(have, have, keys, keys');
    forall n | 0 <= n < |keys|
      ensures sent[n] == SortBy(PairOrSame, Snapshots(latest, keys)[n])
    {
      assert keys[n] in keys;
    }
    hide *;
    forall k
      ensures Total(build.lexicon, own, Snapshots(latest, keys), k) == Total(build.lexicon, own, PatternsOf(have, keys'), k)
    {
      SameShares(build.lexicon, Snapshots(latest, keys), sent, k);
      TotalForgetsOrder(build.lexicon, sent, PatternsOf(have, keys'), k);
      TotalSplits(build.lexicon, own, Snapshots(latest, keys), PatternsOf(have, keys'), k);
    }
    SameTotalsSameBank(build.lexicon, own, Snapshots(latest, keys), PatternsOf(have, keys'), bank, rows);
  }

  lemma TotalSplits(lexicon: Lexicon, own: seq<Row>, sent: seq<seq<Row>>, sent': seq<seq<Row>>, k: Pair)
    ensures SentTotal(lexicon, sent, k) == SentTotal(lexicon, sent', k) ==> Total(lexicon, own, sent, k) == Total(lexicon, own, sent', k)
  {
    hide OwnTotal, SentTotal;
  }
}
