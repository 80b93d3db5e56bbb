/**
 The second half of `build_record`: entries sorted into reading order, then renumbered in it.

 Numbering runs in two passes. The first gives every entry but the beliefs the next number of its
 type and remembers the old name; the second rewrites the references of beliefs, decisions and
 approvals through what was remembered.

 Taken together the passes are one substitution on names, applied everywhere at once, although a new
 name may be some other entry's old one and although the second pass leaves the sides of conflicts
 alone: those are beliefs, whose names do not change.
 */
module Numbering {
  import opened Wrappers
  import opened Export
  import opened Json
  import opened ExporterInvariant
  import Ordering

  // ---------------------------------------------------------------- reading order

  /** The sort key, (_ts, RANK[type]). */
  predicate Earlier(a: Draft, b: Draft) {
    a.ts < b.ts || (a.ts == b.ts && Rank(a.body) < Rank(b.body))
  }

  predicate EarlierOrSame(a: Draft, b: Draft) {
    !Earlier(b, a)
  }

  /** Reading order: by time, then by rank, otherwise as gathered. */
  function Sort(ds: seq<Draft>): seq<Draft> {
    Ordering.SortBy(EarlierOrSame, ds)
  }

  ghost predicate InOrder(ds: seq<Draft>) {
    forall i, j :: 0 <= i < j < |ds| ==> !Earlier(ds[j], ds[i])
  }

  // ---------------------------------------------------------------- numbering

  /** How many entries of this type there are. */
  function CountOf(ds: seq<Draft>, kind: string): nat {
    if ds == [] then 0
    else CountOf(ds[..|ds| - 1], kind) + if TypeOf(ds[|ds| - 1].body) == kind then 1 else 0
  }

  function NewId(ds: seq<Draft>, i: nat): string
    requires i < |ds|
  {
    if ds[i].body.Belief? then ds[i].id
    else Numbered(TypeOf(ds[i].body), CountOf(ds[..i], TypeOf(ds[i].body)) + 1)
  }

  /** The ids that change, and what to. */
  function Renaming(ds: seq<Draft>): map<string, string> {
    if ds == [] then map[]
    else
      var n := |ds| - 1;
      if ds[n].body.Belief? then Renaming(ds[..n]) else Renaming(ds[..n])[ds[n].id := NewId(ds, n)]
  }

  function Subst(m: map<string, string>, x: string): string {
    if x in m then m[x] else x
  }

  function SubstAll(m: map<string, string>, xs: seq<string>): seq<string> {
    seq(|xs|, i requires 0 <= i < |xs| => Subst(m, xs[i]))
  }

  /** The references the second pass rewrites: a conflict's sides are not among them. */
  function Rewritten(m: map<string, string>, b: Body): Body {
    match b
    case Belief(evidence) => Belief(SubstAll(m, evidence))
    case Decision(risk, executed, proposer, approval) =>
      if approval.Some? then Decision(risk, executed, proposer, Some(Subst(m, approval.value))) else b
    case Approval(decision, approver) => Approval(Subst(m, decision), approver)
    case _ => b
  }

  function Renumbered(ds: seq<Draft>): seq<Draft> {
    var m := Renaming(ds);
    seq(|ds|, i requires 0 <= i < |ds| => Draft(NewId(ds, i), ds[i].ts, Rewritten(m, ds[i].body), ds[i].extra))
  }

  /** The counters after some entries, for the types that have one. */
  ghost predicate Counts(counters: map<string, nat>, ds: seq<Draft>) {
    counters.Keys == NUMBERED && forall kind :: kind in NUMBERED ==> counters[kind] == CountOf(ds, kind)
  }

  lemma CountsOneMore(counters: map<string, nat>, ds: seq<Draft>, i: nat)
    requires i < |ds| && Counts(counters, ds[..i])
    ensures var kind := TypeOf(ds[i].body);
            if ds[i].body.Belief? then kind !in counters && Counts(counters, ds[..i + 1])
            else kind in counters && NewId(ds, i) == Numbered(kind, counters[kind] + 1)
                 && Counts(counters[kind := counters[kind] + 1], ds[..i + 1])
  {
    assert ds[..i + 1][..i] == ds[..i];
    hide Numbered;
  }

  lemma RenamingOneMore(ds: seq<Draft>, i: nat)
    requires i < |ds|
    ensures Renaming(ds[..i + 1]) == if ds[i].body.Belief? then Renaming(ds[..i])
                                     else Renaming(ds[..i])[ds[i].id := NewId(ds, i)]
  {
    var more := ds[..i + 1];
    assert more[..i] == ds[..i] && more[i] == ds[i];
    assert NewId(more, i) == NewId(ds, i);
    hide NewId;
    assert Renaming(more) == if more[i].body.Belief? then Renaming(more[..i]) else Renaming(more[..i])[more[i].id := NewId(more, i)];
  }

  function NewIds(ds: seq<Draft>): seq<string> {
    seq(|ds|, i requires 0 <= i < |ds| => NewId(ds, i))
  }

  method NumberOne(ds: seq<Draft>, i: nat, counters: map<string, nat>, renamed: map<string, string>)
      returns (counters': map<string, nat>, renamed': map<string, string>, id: string)
    requires i < |ds| && Counts(counters, ds[..i]) && renamed == Renaming(ds[..i])
    ensures Counts(counters', ds[..i + 1]) && renamed' == Renaming(ds[..i + 1]) && id == NewId(ds, i)
  {
    var d := ds[i];
    var kind := TypeOf(d.body);
    CountsOneMore(counters, ds, i);
    RenamingOneMore(ds, i);
    hide Renaming, CountOf, Numbered, Counts;
    if kind !in counters {
      return counters, renamed, d.id;
    }
    counters' := counters[kind := counters[kind] + 1];
    id := Numbered(kind, counters'[kind]);
    renamed' := renamed[d.id := id];
  }

  /** The first pass, part of the way. */
  ghost predicate NumberedTo(ds: seq<Draft>, i: nat, counters: map<string, nat>, renamed: map<string, string>, ids: seq<string>)
    requires i <= |ds|
  {
    Counts(counters, ds[..i]) && renamed == Renaming(ds[..i]) && |ids| == i && forall k :: 0 <= k < i ==> ids[k] == NewId(ds, k)
  }

  lemma NumberedAll(ds: seq<Draft>, counters: map<string, nat>, renamed: map<string, string>, ids: seq<string>)
    requires NumberedTo(ds, |ds|, counters, renamed, ids)
    ensures renamed == Renaming(ds) && ids == NewIds(ds)
  {
    hide Counts, Renaming, NewId;
    NewIdsAre(ds);
    assert ds[..|ds|] == ds;
  }

  method NumberNext(ds: seq<Draft>, i: nat, counters: map<string, nat>, renamed: map<string, string>, ids: seq<string>)
      returns (counters': map<string, nat>, renamed': map<string, string>, ids': seq<string>)
    requires i < |ds| && NumberedTo(ds, i, counters, renamed, ids)
    ensures NumberedTo(ds, i + 1, counters', renamed', ids')
  {
    hide Counts, Renaming, NewId;
    var id;
    counters', renamed', id := NumberOne(ds, i, counters, renamed);
    ids' := ids + [id];
  }

  /** The first pass: each entry takes the next number of its type, and the old name is remembered. */
  method Number(ds: seq<Draft>) returns (ids: seq<string>, renamed: map<string, string>)
    ensures renamed == Renaming(ds) && ids == NewIds(ds)
  {
    var counters: map<string, nat> := map kind | kind in NUMBERED :: 0;
    renamed, ids := map[], [];
    StartCounts(counters, ds);
    assert NumberedTo(ds, 0, counters, renamed, ids);
    hide *;
    for i := 0 to |ds|
      invariant NumberedTo(ds, i, counters, renamed, ids)
    {
      counters, renamed, ids := NumberNext(ds, i, counters, renamed, ids);
    }
    NumberedAll(ds, counters, renamed, ids);
  }

  lemma NewIdsAre(ds: seq<Draft>)
    ensures |NewIds(ds)| == |ds| && forall i :: 0 <= i < |ds| ==> NewIds(ds)[i] == NewId(ds, i)
  {
    hide NewId;
  }

  lemma StartCounts(counters: map<string, nat>, ds: seq<Draft>)
    requires counters == map kind | kind in NUMBERED :: 0
    ensures Counts(counters, ds[..0]) && Renaming(ds[..0]) == map[]
  {
  }

  /** Both passes: names, then the references to them. */
  method Renumber(ds: seq<Draft>) returns (out: seq<Draft>)
    ensures out == Renumbered(ds)
  {
    var ids, renamed := Number(ds);
    hide Renaming, NewId;
    out := [];
    for i := 0 to |ds|
      invariant out == Renumbered(ds)[..i]
    {
      out := out + [Draft(ids[i], ds[i].ts, Rewritten(renamed, ds[i].body), ds[i].extra)];
    }
  }

  // ---------------------------------------------------------------- sorting loses and adds nothing

  lemma SortHolds(ds: seq<Draft>)
    ensures multiset(Sort(ds)) == multiset(ds) && InOrder(Sort(ds))
  {
    Ordering.SortKeeps(EarlierOrSame, ds);
    assert Ordering.TotalOrder(EarlierOrSame);
    Ordering.SortOrders(EarlierOrSame, ds);
    hide Earlier, Ordering.SortBy;
  }

  ghost function WhereOf(ds: seq<Draft>, kind: string): set<int> {
    set j | 0 <= j < |ds| && TypeOf(ds[j].body) == kind
  }

  lemma {:induction false} CountIsHowMany(ds: seq<Draft>, kind: string)
    ensures CountOf(ds, kind) == |WhereOf(ds, kind)|
  {
    hide TypeOf;
    if ds != [] {
      var n := |ds| - 1;
      CountIsHowMany(ds[..n], kind);
      assert WhereOf(ds, kind) == WhereOf(ds[..n], kind) + if TypeOf(ds[n].body) == kind then {n} else {};
    }
  }

  /** Beliefs keep their names; any other entry is named by its type and its place among those of its type. */
  lemma NamedByPlace(ds: seq<Draft>, i: nat)
    requires i < |ds|
    ensures Renumbered(ds)[i].id == if ds[i].body.Belief? then ds[i].id
                                    else TypeOf(ds[i].body) + "_" + NatText(1 + |WhereOf(ds[..i], TypeOf(ds[i].body))|)
  {
    CountIsHowMany(ds[..i], TypeOf(ds[i].body));
  }

  const KINDS := ["evidence", "approval", "belief", "conflict", "decision"]

  /** The entries of one time and type, in the order they stand. */
  function Of(ds: seq<Draft>, ts: int, kind: string): seq<Draft> {
    if ds == [] then []
    else (if ds[0].ts == ts && TypeOf(ds[0].body) == kind then [ds[0]] else []) + Of(ds[1..], ts, kind)
  }

  lemma RankIsKind(b: Body)
    ensures Rank(b) < 5 && TypeOf(b) == KINDS[Rank(b)]
  {
  }

  lemma KindsApart(i: nat, j: nat)
    requires i < j < 5
    ensures KINDS[i] != KINDS[j]
  {
  }

  lemma {:induction false} OfIsTied(ds: seq<Draft>, d: Draft)
    ensures Of(ds, d.ts, TypeOf(d.body)) == Ordering.Tied(EarlierOrSame, d, ds)
  {
    if ds != [] {
      OfIsTied(ds[1..], d);
      RankIsKind(ds[0].body);
      RankIsKind(d.body);
      var i, j := Rank(ds[0].body), Rank(d.body);
      if i < j {
        KindsApart(i, j);
      } else if j < i {
        KindsApart(j, i);
      }
    }
  }

  lemma {:induction false} NoneOfKind(ds: seq<Draft>, ts: int, kind: string)
    requires forall d :: d in ds ==> !(d.ts == ts && TypeOf(d.body) == kind)
    ensures Of(ds, ts, kind) == []
  {
    if ds != [] {
      assert ds[0] in ds;
      NoneOfKind(ds[1..], ts, kind);
    }
  }

  /** Reading order: by time, at one time by type in the order of `KINDS`, and within a type as gathered. */
  lemma ReadingOrder(ds: seq<Draft>)
    ensures var out := Sort(ds);
            && multiset(out) == multiset(ds)
            && (forall i, j :: 0 <= i < j < |out| ==>
                  || out[i].ts < out[j].ts
                  || (out[i].ts == out[j].ts && exists a, b :: 0 <= a <= b < 5 && TypeOf(out[i].body) == KINDS[a] && TypeOf(out[j].body) == KINDS[b]))
            && (forall ts, kind :: Of(out, ts, kind) == Of(ds, ts, kind))
  {
    var out := Sort(ds);
    SortHolds(ds);
    SortKeepsMembers(ds);
    forall i, j | 0 <= i < j < |out|
      ensures out[i].ts < out[j].ts
              || (out[i].ts == out[j].ts && exists a, b :: 0 <= a <= b < 5 && TypeOf(out[i].body) == KINDS[a] && TypeOf(out[j].body) == KINDS[b])
    {
      RankIsKind(out[i].body);
      RankIsKind(out[j].body);
      assert !Earlier(out[j], out[i]);
    }
    forall ts, kind
      ensures Of(out, ts, kind) == Of(ds, ts, kind)
    {
      SameOf(ds, ts, kind);
    }
  }

  lemma SameOf(ds: seq<Draft>, ts: int, kind: string)
    ensures Of(Sort(ds), ts, kind) == Of(ds, ts, kind)
  {
    SortKeepsMembers(ds);
    hide Ordering.SortBy;
    if d :| d in ds && d.ts == ts && TypeOf(d.body) == kind {
      OfIsTied(ds, d);
      OfIsTied(Sort(ds), d);
      assert Ordering.TotalOrder(EarlierOrSame);
      Ordering.SortIsStable(EarlierOrSame, ds, d);
    } else {
      NoneOfKind(ds, ts, kind);
      NoneOfKind(Sort(ds), ts, kind);
    }
  }

  // ---------------------------------------------------------------- references point upwards

  lemma SortKeepsMembers(ds: seq<Draft>)
    ensures |Sort(ds)| == |ds| && forall d :: d in Sort(ds) <==> d in ds
  {
    Ordering.SortKeeps(EarlierOrSame, ds);
  }

  lemma DistinctAfterSort(ds: seq<Draft>)
    requires DistinctIds(ds)
    ensures DistinctIds(Sort(ds))
  {
    var out := Sort(ds);
    SortKeepsMembers(ds);
    Ordering.SortDistinct(EarlierOrSame, ds);
    hide Sort;
    forall i, j | 0 <= i < j < |out|
      ensures out[i].id != out[j].id
    {
      assert out[i] in ds && out[j] in ds;
      var a :| 0 <= a < |ds| && ds[a] == out[i];
      var b :| 0 <= b < |ds| && ds[b] == out[j];
      if out[i].id == out[j].id {
        SameIdSamePlace(ds, a, b);
      }
    }
  }

  /** On an earlier line there is an entry of this type called `id`. */
  ghost predicate Above(ds: seq<Draft>, i: nat, id: string, kind: string) {
    exists j :: 0 <= j < i && j < |ds| && ds[j].id == id && TypeOf(ds[j].body) == kind
  }

  /** What an entry cites, opposes or was unlocked by stands above it. */
  ghost predicate CitesAbove(ds: seq<Draft>, i: nat)
    requires i < |ds|
  {
    match ds[i].body
    case Belief(evidence) => forall x :: x in evidence ==> Above(ds, i, x, "evidence")
    case Conflict(sides) => |sides| >= 2 && forall x :: x in sides ==> Above(ds, i, x, "belief")
    case Decision(_, _, _, approval) => approval.Some? ==> Above(ds, i, approval.value, "approval")
    case _ => true
  }

  lemma SortedAbove(ds: seq<Draft>, out: seq<Draft>, i: nat, id: string, kind: string)
    requires out == Sort(ds) && i < |out| && Has(ds, id, kind, out[i].ts)
    requires match out[i].body
             case Belief(_) => kind == "evidence"
             case Conflict(_) => kind == "belief"
             case Decision(_, _, _, _) => kind == "approval"
             case _ => false
    ensures Above(out, i, id, kind)
  {
    SortHolds(ds);
    SortKeepsMembers(ds);
    var j :| 0 <= j < |ds| && ds[j].id == id && TypeOf(ds[j].body) == kind && ds[j].ts <= out[i].ts;
    assert ds[j] in out;
    var k :| 0 <= k < |out| && out[k] == ds[j];
    KindsRank(out[k].body, out[i].body);
    assert Earlier(out[k], out[i]);
  }

  lemma KindsRank(a: Body, b: Body)
    ensures b.Belief? && TypeOf(a) == "evidence" ==> Rank(a) < Rank(b)
    ensures b.Conflict? && TypeOf(a) == "belief" ==> Rank(a) < Rank(b)
    ensures b.Decision? && TypeOf(a) == "approval" ==> Rank(a) < Rank(b)
  {
  }

  /** In reading order evidence precedes the belief that cites it, and an approval what it unlocked. */
  lemma SortedCitesAbove(ds: seq<Draft>, i: nat)
    requires AllGrounded(ds) && i < |Sort(ds)|
    ensures CitesAbove(Sort(ds), i)
  {
    var out := Sort(ds);
    SortKeepsMembers(ds);
    assert out[i] in ds;
    assert Grounded(ds, out[i]);
    hide Has, Above, Sort;
    match out[i].body
    case Belief(evidence) =>
      forall x | x in evidence { SortedAbove(ds, out, i, x, "evidence"); }
    case Conflict(sides) =>
      forall x | x in sides { SortedAbove(ds, out, i, x, "belief"); }
    case Decision(_, _, _, approval) =>
      if approval.Some? { SortedAbove(ds, out, i, approval.value, "approval"); }
    case _ =>
  }

  // ---------------------------------------------------------------- one simultaneous substitution

  /** Generated names on everything but the beliefs, which keep the memory's. */
  ghost predicate NamesSettled(ds: seq<Draft>) {
    DistinctIds(ds) && forall i :: 0 <= i < |ds| && ds[i].body.Belief? ==> !Generated(ds[i].id)
  }

  lemma SameIdSamePlace(ds: seq<Draft>, i: int, j: int)
    requires DistinctIds(ds) && 0 <= i < |ds| && 0 <= j < |ds| && ds[i].id == ds[j].id
    ensures i == j
  {
  }

  /** A name that changes, and who bears it. */
  ghost predicate Bears(ds: seq<Draft>, i: int, x: string) {
    0 <= i < |ds| && !ds[i].body.Belief? && ds[i].id == x
  }

  ghost predicate RenamesAll(m: map<string, string>, ds: seq<Draft>) {
    && (forall x :: x in m ==> exists i :: Bears(ds, i, x))
    && (forall i, x :: Bears(ds, i, x) ==> x in m && m[x] == NewId(ds, i))
  }

  lemma DistinctBelow(ds: seq<Draft>, n: nat)
    requires DistinctIds(ds) && n <= |ds|
    ensures DistinctIds(ds[..n])
  {
  }

  lemma {:induction false} RenamingHolds(ds: seq<Draft>)
    requires DistinctIds(ds)
    ensures RenamesAll(Renaming(ds), ds)
  {
    if ds != [] {
      var n := |ds| - 1;
      var before := ds[..n];
      DistinctBelow(ds, n);
      RenamingHolds(before);
      RenamingOneMore(ds, n);
      assert ds[..n + 1] == ds;
      forall i | 0 <= i < n
        ensures NewId(before, i) == NewId(ds, i)
      {
        assert before[..i] == ds[..i];
      }
      hide Renaming, NewId, DistinctIds, RenamesAll;
      OneRenamedMore(Renaming(before), ds);
    }
  }

  lemma OneRenamedMore(m: map<string, string>, ds: seq<Draft>)
    requires ds != [] && DistinctIds(ds) && RenamesAll(m, ds[..|ds| - 1])
    requires forall i :: 0 <= i < |ds| - 1 ==> NewId(ds[..|ds| - 1], i) == NewId(ds, i)
    ensures var n := |ds| - 1;
            RenamesAll(if ds[n].body.Belief? then m else m[ds[n].id := NewId(ds, n)], ds)
  {
    hide NewId, DistinctIds;
    var n := |ds| - 1;
    var before := ds[..n];
    forall i, x | Bears(ds, i, x) && i < n
      ensures Bears(before, i, x) && x != ds[n].id
    {
      if x == ds[n].id {
        SameIdSamePlace(ds, i, n);
      }
    }
    forall i, x | Bears(before, i, x)
      ensures Bears(ds, i, x)
    {
    }
    assert !ds[n].body.Belief? ==> Bears(ds, n, ds[n].id);
  }

  /** The new name of whatever an entry of `ds` is called. */
  lemma SubstName(ds: seq<Draft>, i: nat)
    requires DistinctIds(ds) && i < |ds|
    ensures Subst(Renaming(ds), ds[i].id) == NewId(ds, i)
  {
    RenamingHolds(ds);
    BeliefKeepsItsName(ds, i);
    hide Renaming, NewId, DistinctIds;
    var x := ds[i].id;
    if ds[i].body.Belief? {
      if x in Renaming(ds) {
        var k :| Bears(ds, k, x);
        SameIdSamePlace(ds, i, k);
      }
    } else {
      assert Bears(ds, i, x);
    }
  }

  lemma BeliefKeepsItsName(ds: seq<Draft>, i: nat)
    requires i < |ds|
    ensures ds[i].body.Belief? ==> NewId(ds, i) == ds[i].id
    ensures !ds[i].body.Belief? ==> NewId(ds, i) == Numbered(TypeOf(ds[i].body), CountOf(ds[..i], TypeOf(ds[i].body)) + 1)
  {
  }

  lemma {:induction false} CountGrows(ds: seq<Draft>, i: nat, j: nat)
    requires i < j <= |ds|
    ensures CountOf(ds[..i], TypeOf(ds[i].body)) < CountOf(ds[..j], TypeOf(ds[i].body))
    decreases j - i
  {
    assert ds[..j][..j - 1] == ds[..j - 1];
    if i < j - 1 {
      CountGrows(ds, i, j - 1);
    }
  }

  lemma NewIdsDistinct(ds: seq<Draft>, i: nat, j: nat)
    requires NamesSettled(ds) && i < j < |ds|
    ensures NewId(ds, i) != NewId(ds, j)
  {
    BeliefKeepsItsName(ds, i);
    BeliefKeepsItsName(ds, j);
    CountGrows(ds, i, j);
    NumberedTypes(ds[i].body);
    NumberedTypes(ds[j].body);
    var a, b := CountOf(ds[..i], TypeOf(ds[i].body)) + 1, CountOf(ds[..j], TypeOf(ds[j].body)) + 1;
    hide NewId, Numbered, CountOf, TypeOf;
    if NewId(ds, i) == NewId(ds, j) && !ds[i].body.Belief? && !ds[j].body.Belief? {
      NumberedIsInjective(TypeOf(ds[i].body), TypeOf(ds[j].body), a, b);
    }
  }

  lemma NumberedTypes(b: Body)
    ensures !b.Belief? ==> TypeOf(b) in NUMBERED
  {
  }

  /** A body with every reference in it renamed, a conflict's sides included. */
  function Mapped(m: map<string, string>, b: Body): Body {
    match b
    case Evidence => Evidence
    case Belief(evidence) => Belief(seq(|evidence|, k requires 0 <= k < |evidence| => Subst(m, evidence[k])))
    case Conflict(sides) => Conflict(SubstAll(m, sides))
    case Decision(risk, executed, proposer, approval) =>
      Decision(risk, executed, proposer, if approval.Some? then Some(Subst(m, approval.value)) else None)
    case Approval(decision, approver) => Approval(Subst(m, decision), approver)
  }

  /**
   Renumbering is one substitution, applied to every name and every reference at once, and it keeps
   different names different: the reference graph is the same graph.
   */
  lemma RenumberingIsSubstitution(ds: seq<Draft>, i: nat)
    requires NamesSettled(ds) && i < |ds| && CitesAbove(ds, i)
    ensures var m := Renaming(ds);
            Renumbered(ds)[i] == Draft(Subst(m, ds[i].id), ds[i].ts, Mapped(m, ds[i].body), ds[i].extra)
    ensures forall j :: 0 <= j < |ds| && j != i ==> Subst(Renaming(ds), ds[i].id) != Subst(Renaming(ds), ds[j].id)
  {
    hide NewId, Renaming, Generated;
    var m := Renaming(ds);
    SubstName(ds, i);
    forall j | 0 <= j < |ds| && j != i
      ensures Subst(m, ds[i].id) != Subst(m, ds[j].id)
    {
      SubstName(ds, j);
      NewIdsDistinct(ds, if i < j then i else j, if i < j then j else i);
    }
    if ds[i].body.Conflict? {
      var sides := ds[i].body.sides;
      hide Renaming, DistinctIds, Above;
      forall k | 0 <= k < |sides|
        ensures Subst(m, sides[k]) == sides[k]
      {
        assert sides[k] in sides;
        BeliefAboveKeepsItsName(ds, i, sides[k]);
      }
      assert SubstAll(m, sides) == sides;
    }
  }

  lemma BeliefAboveKeepsItsName(ds: seq<Draft>, i: nat, x: string)
    requires DistinctIds(ds) && Above(ds, i, x, "belief")
    ensures Subst(Renaming(ds), x) == x
  {
    var j :| 0 <= j < i && j < |ds| && ds[j].id == x && TypeOf(ds[j].body) == "belief";
    assert ds[j].body.Belief?;
    hide Renaming, NewId;
    SubstName(ds, j);
    BeliefKeepsItsName(ds, j);
  }

  lemma AboveRenumbered(ds: seq<Draft>, i: nat, id: string, kind: string)
    requires DistinctIds(ds) && i < |ds| && Above(ds, i, id, kind)
    ensures Above(Renumbered(ds), i, Subst(Renaming(ds), id), kind)
  {
    hide Renaming, NewId, DistinctIds;
    var j :| 0 <= j < i && ds[j].id == id && TypeOf(ds[j].body) == kind;
    SubstName(ds, j);
    assert Renumbered(ds)[j].id == Subst(Renaming(ds), id) && TypeOf(Renumbered(ds)[j].body) == kind;
  }

  /** References still point upwards, at the renamed entries. */
  lemma RenumberedCitesAbove(ds: seq<Draft>, i: nat)
    requires NamesSettled(ds) && i < |ds| && CitesAbove(ds, i)
    ensures CitesAbove(Renumbered(ds), i)
  {
    var m, out := Renaming(ds), Renumbered(ds);
    RenumberingIsSubstitution(ds, i);
    hide Above, Renaming, NewId, Renumbered, Generated;
    match ds[i].body
    case Belief(evidence) =>
      forall k | 0 <= k < |evidence|
        ensures Above(out, i, SubstAll(m, evidence)[k], "evidence")
      {
        assert evidence[k] in evidence;
        AboveRenumbered(ds, i, evidence[k], "evidence");
      }
    case Conflict(sides) =>
      forall k | 0 <= k < |sides|
        ensures Above(out, i, SubstAll(m, sides)[k], "belief")
      {
        assert sides[k] in sides;
        AboveRenumbered(ds, i, sides[k], "belief");
      }
    case Decision(_, _, _, approval) =>
      if approval.Some? {
        AboveRenumbered(ds, i, approval.value, "approval");
      }
    case _ =>
  }

  lemma RenumberedDistinct(ds: seq<Draft>)
    requires NamesSettled(ds)
    ensures DistinctIds(Renumbered(ds))
  {
    var out := Renumbered(ds);
    hide NewId, Renaming;
    forall i, j | 0 <= i < j < |out|
      ensures out[i].id != out[j].id
    {
      NewIdsDistinct(ds, i, j);
    }
  }
}
