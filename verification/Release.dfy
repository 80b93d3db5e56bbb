/**
 A dated corpus and its recomputation by a third party: `contribution_rows`, `release` and
 `verify_release` of server/commons.py.
 */
module Release {
  import opened Json
  import opened Ordering
  import opened CommonsTokens
  import opened Contribution
  import opened Pooling
  import opened Ledger
  import TestimonyRecord

  const RELEASE_SPEC := "commons-release/2"

  /**
   The digest of a list of rows, the text of a list of pooled rows, the digest of a text, and the
   version of the aggregation: a reader has the same ones, or says so.
   */
  datatype Build = Build(lexicon: Lexicon, digest: seq<Row> -> string, text: seq<Pooled> -> string, sha: string -> string, version: string)

  datatype Entry = Entry(instance: string, received: real, patterns: seq<Row>, digest: string)

  datatype Named = Named(instance: string, digest: string)

  datatype Manifest = Manifest(spec: string, aggregation: string, corpus: string, contributions: seq<Named>)

  // ---------------------------------------------------------------- contribution_rows

  predicate PairOrSame(r: Row, w: Row) {
    || TextBefore(r.antecedent, w.antecedent)
    || (r.antecedent == w.antecedent && TestimonyRecord.AtOrBefore(r.consequent, w.consequent))
  }

  predicate TextBefore(a: string, b: string) {
    TestimonyRecord.AtOrBefore(a, b) && a != b
  }

  predicate InstanceOrSame(c: Entry, d: Entry) {
    TestimonyRecord.AtOrBefore(c.instance, d.instance)
  }

  function Marked(digest: string): string {
    "sha256:" + digest
  }

  function EntryOf(build: Build, instance: string, s: Snapshot): Entry {
    var rows := SortBy(PairOrSame, s.patterns);
    Entry(instance, s.received, rows, Marked(build.digest(rows)))
  }

  /** Every contribution in a release, once, in order of instance. */
  ghost predicate Lists(build: Build, latest: map<string, Snapshot>, cs: seq<Entry>) {
    && InOrder(InstanceOrSame, cs) && Distinct(cs)
    && forall c :: c in cs <==> c.instance in latest && c == EntryOf(build, c.instance, latest[c.instance])
  }

  lemma InstancesAreOrdered()
    ensures TotalOrder(InstanceOrSame)
  {
    hide TestimonyRecord.AtOrBefore;
    forall c, d
      ensures InstanceOrSame(c, d) || InstanceOrSame(d, c)
    {
      TextsOrdered(c.instance, d.instance, d.instance);
    }
    forall c, d, e | InstanceOrSame(c, d) && InstanceOrSame(d, e)
      ensures InstanceOrSame(c, e)
    {
      TextsOrdered(c.instance, d.instance, e.instance);
    }
  }

  method ContributionRows(build: Build, latest: map<string, Snapshot>) returns (cs: seq<Entry>)
    ensures Lists(build, latest, cs)
  {
    hide EntryOf, InstanceOrSame, InOrder;
    cs := [];
    var rest := latest.Keys;
    while rest != {}
      invariant rest <= latest.Keys && Distinct(cs)
      invariant forall c :: c in cs <==> c.instance in latest.Keys - rest && c == EntryOf(build, c.instance, latest[c.instance])
      decreases |rest|
    {
      var i :| i in rest;
      EntryNames(build, i, latest[i]);
      JoinDistinct(cs, [EntryOf(build, i, latest[i])]);
      cs, rest := cs + [EntryOf(build, i, latest[i])], rest - {i};
    }
    InstancesAreOrdered();
    SortOrders(InstanceOrSame, cs);
    SortDistinct(InstanceOrSame, cs);
    SortKeeps(InstanceOrSame, cs);
    cs := SortBy(InstanceOrSame, cs);
  }

  lemma EntryNames(build: Build, instance: string, s: Snapshot)
    ensures EntryOf(build, instance, s).instance == instance
  {
  }

  // ---------------------------------------------------------------- a dict of contributions

  /** Under each instance the last contribution it made. */
  function ByInstance(cs: seq<Entry>): map<string, Entry> {
    if cs == [] then map[] else ByInstance(cs[..|cs| - 1])[cs[|cs| - 1].instance := cs[|cs| - 1]]
  }

  function NamedIn(names: seq<Named>): map<string, string> {
    if names == [] then map[] else NamedIn(names[..|names| - 1])[names[|names| - 1].instance := names[|names| - 1].digest]
  }

  function PatternsOf(have: map<string, Entry>, keys: seq<string>): seq<seq<Row>>
    requires forall i :: i in keys ==> i in have
  {
    seq(|keys|, n requires 0 <= n < |keys| => have[keys[n]].patterns)
  }

  /** The corpus rebuilt from a dict of contributions, whatever order the dict is walked in. */
  ghost predicate Rebuilds(build: Build, own: seq<Row>, have: map<string, Entry>, rows: seq<Pooled>) {
    exists keys :: Distinct(keys) && (forall i :: i in keys <==> i in have) && Banks(build.lexicon, own, PatternsOf(have, keys), rows)
  }

  method Rebuild(build: Build, own: seq<Row>, have: map<string, Entry>) returns (rows: seq<Pooled>)
    ensures Rebuilds(build, own, have, rows)
  {
    hide Banks;
    var keys := Listed(TestimonyRecord.AtOrBefore, have.Keys);
    rows := Merged(build.lexicon, own, PatternsOf(have, keys));
  }

  // ---------------------------------------------------------------- release

  function ManifestOf(build: Build, cs: seq<Entry>, rows: seq<Pooled>): Manifest {
    Manifest(RELEASE_SPEC, build.version, Marked(build.sha(build.text(rows))),
             seq(|cs|, n requires 0 <= n < |cs| => Named(cs[n].instance, cs[n].digest)))
  }

  /** What a manifest says: the format, the digest of the text, and who contributed what. */
  lemma ManifestSays(build: Build, cs: seq<Entry>, rows: seq<Pooled>)
    ensures var m := ManifestOf(build, cs, rows);
            && m.spec == "commons-release/2" && m.aggregation == build.version && m.corpus == "sha256:" + build.sha(build.text(rows))
            && |m.contributions| == |cs|
            && forall n :: 0 <= n < |cs| ==> m.contributions[n].instance == cs[n].instance && m.contributions[n].digest == cs[n].digest
  {
  }

  /** What a contribution says: its rows, by antecedent and then by consequent, and their digest. */
  lemma EntrySays(build: Build, instance: string, s: Snapshot)
    ensures var e := EntryOf(build, instance, s);
            && e.instance == instance && e.received == s.received && multiset(e.patterns) == multiset(s.patterns)
            && e.digest == "sha256:" + build.digest(e.patterns)
            && forall i, j :: 0 <= i < j < |e.patterns| ==>
                 var r, w := e.patterns[i], e.patterns[j];
                 Before(r.antecedent, w.antecedent) || (r.antecedent == w.antecedent && !Before(w.consequent, r.consequent))
  {
    var e := EntryOf(build, instance, s);
    PairsAreOrdered();
    SortOrders(PairOrSame, s.patterns);
    SortKeeps(PairOrSame, s.patterns);
    hide SortBy, Before;
    forall i, j | 0 <= i < j < |e.patterns|
      ensures var r, w := e.patterns[i], e.patterns[j];
              Before(r.antecedent, w.antecedent) || (r.antecedent == w.antecedent && !Before(w.consequent, r.consequent))
    {
      var r, w := e.patterns[i], e.patterns[j];
      assert PairOrSame(r, w);
      TextsOrdered(r.antecedent, w.antecedent, w.antecedent);
    }
  }

  lemma PairsAreOrdered()
    ensures TotalOrder(PairOrSame)
  {
    hide TestimonyRecord.AtOrBefore;
    forall r, w
      ensures PairOrSame(r, w) || PairOrSame(w, r)
    {
      TextsOrdered(r.antecedent, w.antecedent, w.antecedent);
      TextsOrdered(r.consequent, w.consequent, w.consequent);
    }
    forall r, w, x | PairOrSame(r, w) && PairOrSame(w, x)
      ensures PairOrSame(r, x)
    {
      TextsOrdered(r.antecedent, w.antecedent, x.antecedent);
      TextsOrdered(r.consequent, w.consequent, x.consequent);
    }
  }

  method MakeRelease(build: Build, own: seq<Row>, latest: map<string, Snapshot>)
    returns (manifest: Manifest, jsonl: string, cs: seq<Entry>, rows: seq<Pooled>)
    ensures Lists(build, latest, cs)
    ensures Rebuilds(build, own, ByInstance(cs), rows)
    ensures jsonl == build.text(rows) && manifest == ManifestOf(build, cs, rows)
  {
    cs := ContributionRows(build, latest);
    rows := Rebuild(build, own, ByInstance(cs));
    jsonl := build.text(rows);
    manifest := ManifestOf(build, cs, rows);
  }

  // ---------------------------------------------------------------- verify_release

  datatype Problem =
    | OtherSpec
    | Missing(instance: string)
    | Extra(instance: string)
    | OtherDigest(instance: string)
    | OtherAggregation
    | OtherCorpus
    | OtherFile

  predicate ContributionShows(build: Build, named: map<string, string>, have: map<string, Entry>, p: Problem) {
    match p
    case Missing(i) => i in named && i !in have
    case Extra(i) => i in have && i !in named
    case OtherDigest(i) => i in named && i in have && Marked(build.digest(have[i].patterns)) != named[i]
    case _ => false
  }

  predicate CorpusShows(build: Build, m: Manifest, rebuilt: string, jsonl: string, p: Problem) {
    match p
    case OtherAggregation => m.aggregation != build.version
    case OtherCorpus => Marked(build.sha(rebuilt)) != m.corpus
    case OtherFile => Marked(build.sha(rebuilt)) == m.corpus && build.sha(rebuilt) != build.sha(jsonl)
    case _ => false
  }

  method Differing(build: Build, named: map<string, string>, have: map<string, Entry>) returns (problems: seq<Problem>)
    ensures forall p :: p in problems <==> p.OtherDigest? && ContributionShows(build, named, have, p)
  {
    hide Marked;
    problems := [];
    var shared := Listed(TestimonyRecord.AtOrBefore, named.Keys * have.Keys);
    for n := 0 to |shared|
      invariant forall p :: p in problems <==> p.OtherDigest? && p.instance in shared[..n] && ContributionShows(build, named, have, p)
    {
      assert shared[n] in shared;
      if Marked(build.digest(have[shared[n]].patterns)) != named[shared[n]] {
        problems := problems + [OtherDigest(shared[n])];
      }
    }
    assert shared[..|shared|] == shared;
  }

  method CheckContributions(build: Build, named: map<string, string>, have: map<string, Entry>) returns (problems: seq<Problem>)
    ensures forall p :: p in problems <==> ContributionShows(build, named, have, p)
  {
    hide Marked;
    problems := [];
    var missing := Listed(TestimonyRecord.AtOrBefore, named.Keys - have.Keys);
    for n := 0 to |missing|
      invariant forall p :: p in problems <==> p.Missing? && p.instance in missing[..n]
    {
      problems := problems + [Missing(missing[n])];
    }
    assert missing[..|missing|] == missing;
    var extra := Listed(TestimonyRecord.AtOrBefore, have.Keys - named.Keys);
    for n := 0 to |extra|
      invariant forall p :: p in problems <==> (p.Missing? && p.instance in missing) || (p.Extra? && p.instance in extra[..n])
    {
      problems := problems + [Extra(extra[n])];
    }
    assert extra[..|extra|] == extra;
    var differing := Differing(build, named, have);
    problems := problems + differing;
  }

  /** `rows` is the corpus the reader rebuilds. */
  method VerifyRelease(build: Build, m: Manifest, cs: seq<Entry>, jsonl: string, own: seq<Row>)
    returns (ok: bool, problems: seq<Problem>, ghost rows: seq<Pooled>)
    ensures ok <==> problems == []
    ensures m.spec != RELEASE_SPEC ==> problems == [OtherSpec]
    ensures m.spec == RELEASE_SPEC ==>
              && Rebuilds(build, own, ByInstance(cs), rows)
              && forall p :: p in problems <==>
                   || ContributionShows(build, NamedIn(m.contributions), ByInstance(cs), p)
                   || CorpusShows(build, m, build.text(rows), jsonl, p)
  {
    rows := [];
    if m.spec != RELEASE_SPEC {
      return false, [OtherSpec], rows;
    }
    var named, have := NamedIn(m.contributions), ByInstance(cs);
    problems := CheckContributions(build, named, have);
    if m.aggregation != build.version {
      problems := problems + [OtherAggregation];
    }
    var merged := Rebuild(build, own, have);
    rows := merged;
    var rebuilt := build.text(merged);
    if Marked(build.sha(rebuilt)) != m.corpus {
      problems := problems + [OtherCorpus];
    } else if build.sha(rebuilt) != build.sha(jsonl) {
      problems := problems + [OtherFile];
    }
    ok := problems == [];
  }
}
