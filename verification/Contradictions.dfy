/**
 The contradiction registry kept above the engine, as server/api.py keeps it through every op, log
 and restart. Whether the engine accepts an assertion is part of the op.
 */
module Contradictions {
  import opened Wrappers
  import opened Spelling
  import NarrowConflicts

  // ---------------------------------------------------------------- a token and its denial

  function Counterpart(t: string): Option<string> {
    if t == "" || t == RETRACTED then None
    else if Negated(t) then if t[4..] == "" then None else Some(t[4..])
    else Some(NEGATION_PREFIX + t)
  }

  lemma PrefixStripped(t: string)
    ensures Negated(NEGATION_PREFIX + t) && (NEGATION_PREFIX + t)[4..] == t
    ensures Negated(t) ==> NEGATION_PREFIX + t[4..] == t
  {
  }

  /** A token is its counterpart's counterpart, except a doubled negation and a denied retraction. */
  lemma CounterpartReturnsIff(t: string)
    requires Counterpart(t).Some?
    ensures Counterpart(Counterpart(t).value) == Some(t) <==> !("not:not:" <= t) && t != "not:RETRACTED"
  {
    var u := Counterpart(t).value;
    PrefixStripped(t);
    PrefixStripped(u);
    assert "not:not:" == NEGATION_PREFIX + NEGATION_PREFIX && "not:RETRACTED" == NEGATION_PREFIX + RETRACTED;
    hide RETRACTED;
    if Negated(t) {
      DoubleNegation(t);
    } else {
      NotDouble(t);
    }
  }

  lemma DoubleNegation(t: string)
    requires Negated(t)
    ensures NEGATION_PREFIX + NEGATION_PREFIX <= t <==> Negated(t[4..])
  {
    assert t == NEGATION_PREFIX + t[4..];
    if Negated(t[4..]) {
      assert t[..8] == NEGATION_PREFIX + t[4..][..4];
    }
    if NEGATION_PREFIX + NEGATION_PREFIX <= t {
      assert t[4..][..4] == t[..8][4..];
    }
  }

  lemma NotDouble(t: string)
    requires !Negated(t)
    ensures !(NEGATION_PREFIX + NEGATION_PREFIX <= t) && t != NEGATION_PREFIX + RETRACTED
  {
    if NEGATION_PREFIX + NEGATION_PREFIX <= t {
      PrefixOfPrefix(NEGATION_PREFIX, NEGATION_PREFIX, t);
    }
    PrefixStripped(RETRACTED);
  }

  lemma PrefixOfPrefix(a: string, b: string, t: string)
    requires a + b <= t
    ensures a <= t
  {
    assert t[..|a|] == (a + b)[..|a|];
  }

  lemma CounterpartDiffers(t: string)
    requires Counterpart(t).Some?
    ensures Counterpart(t).value != t
  {
    assert Negated(t) ==> |t[4..]| < |t|;
  }

  // ---------------------------------------------------------------- the three copies

  /** The list shown and audited, the index that keeps it short, and what the engine was told. */
  datatype Registry = Registry(list: seq<(string, string)>, index: set<set<string>>, engine: set<set<string>>)

  const NONE := Registry([], {}, {})

  function Pairs(list: seq<(string, string)>): set<set<string>> {
    set p | p in list :: {p.0, p.1}
  }

  ghost predicate Agree(r: Registry) {
    Pairs(r.list) == r.index == r.engine
  }

  function AutoDeclare(r: Registry, t: string): Registry {
    var other := Counterpart(t);
    if other.None? then r
    else
      var pair := {t, other.value};
      if pair in r.index then r.(engine := r.engine + {pair})
      else Registry(r.list + [(t, other.value)], r.index + {pair}, r.engine + {pair})
  }

  function Declare(r: Registry, a: string, b: string): Registry {
    Registry(r.list + [(a, b)], r.index + {{a, b}}, r.engine + {{a, b}})
  }

  datatype Op =
    | Claims(proposition: string, accepted: bool)
    | Declares(a: string, b: string)
    | Otherwise(accepted: bool)

  predicate Accepted(op: Op) {
    op.Declares? || op.accepted
  }

  /** An assertion, or a supersession by one; a refused op raises before anything is declared. */
  function Apply(r: Registry, op: Op): Registry {
    match op
    case Claims(p, accepted) => if accepted then AutoDeclare(r, CanonicalForm(p)) else r
    case Declares(a, b) => Declare(r, CanonicalForm(a), CanonicalForm(b))
    case Otherwise(_) => r
  }

  function ApplyAll(r: Registry, ops: seq<Op>): Registry {
    if ops == [] then r else Apply(ApplyAll(r, ops[..|ops| - 1]), ops[|ops| - 1])
  }

  class Project {
    var contradictions: seq<(string, string)>
    var declaredPairs: set<set<string>>
    var enginePairs: set<set<string>>
    var ops: seq<Op>

    function State(): Registry
      reads this
    {
      Registry(contradictions, declaredPairs, enginePairs)
    }

    constructor ()
      ensures State() == NONE && ops == []
    {
      contradictions, declaredPairs, enginePairs, ops := [], {}, {}, [];
    }

    method AutoDeclareNegation(t: string)
      modifies this`contradictions, this`declaredPairs, this`enginePairs
      ensures State() == AutoDeclare(old(State()), t)
    {
      var other := Counterpart(t);
      if other.None? {
        return;
      }
      enginePairs := enginePairs + {{t, other.value}};
      var pair := {t, other.value};
      if pair in declaredPairs {
        return;
      }
      declaredPairs := declaredPairs + {pair};
      contradictions := contradictions + [(t, other.value)];
    }

    method ApplyOp(op: Op) returns (raised: bool)
      modifies this`contradictions, this`declaredPairs, this`enginePairs
      ensures State() == Apply(old(State()), op) && raised == !Accepted(op)
    {
      match op {
        case Claims(p, accepted) =>
          if !accepted {
            return true;
          }
          AutoDeclareNegation(CanonicalForm(p));
        case Declares(a, b) =>
          var ta, tb := CanonicalForm(a), CanonicalForm(b);
          enginePairs := enginePairs + {{ta, tb}};
          declaredPairs := declaredPairs + {{ta, tb}};
          contradictions := contradictions + [(ta, tb)];
        case Otherwise(accepted) =>
          return !accepted;
      }
      return false;
    }

    /** Applied first, and kept only if it was accepted. */
    method Record(op: Op) returns (raised: bool)
      modifies this
      ensures State() == Apply(old(State()), op)
      ensures ops == if Accepted(op) then old(ops) + [op] else old(ops)
    {
      raised := ApplyOp(op);
      if !raised {
        ops := ops + [op];
      }
    }

    /** A fresh project, brought to where the log leads. */
    constructor Boot(log: seq<Op>)
      ensures State() == ApplyAll(NONE, log) && ops == log
    {
      contradictions, declaredPairs, enginePairs, ops := [], {}, {}, log;
      new;
      for i := 0 to |log|
        invariant State() == ApplyAll(NONE, log[..i]) && ops == log
      {
        assert log[..i + 1][..i] == log[..i];
        var _ := ApplyOp(log[i]);
      }
      assert log[..|log|] == log;
    }
  }

  // ---------------------------------------------------------------- what every run keeps

  lemma PairsMore(list: seq<(string, string)>, a: string, b: string)
    ensures Pairs(list + [(a, b)]) == Pairs(list) + {{a, b}}
  {
    var more := list + [(a, b)];
    assert more[|list|] == (a, b);
    forall pair
      ensures pair in Pairs(more) <==> pair in Pairs(list) + {{a, b}}
    {
      if pair in Pairs(list) {
        var p :| p in list && {p.0, p.1} == pair;
        assert p in more;
      }
      if pair == {a, b} {
        assert (a, b) in more;
      }
    }
  }

  lemma ApplyKeepsAgree(r: Registry, op: Op)
    requires Agree(r)
    ensures Agree(Apply(r, op)) && r.index <= Apply(r, op).index
  {
    hide Pairs, CanonicalForm, Counterpart;
    match op
    case Claims(p, accepted) =>
      if accepted {
        var t := CanonicalForm(p);
        if Counterpart(t).Some? {
          PairsMore(r.list, t, Counterpart(t).value);
        }
      }
    case Declares(a, b) => PairsMore(r.list, CanonicalForm(a), CanonicalForm(b));
    case Otherwise(_) =>
  }

  /** The unordered pairs an op adds. */
  function Adds(op: Op): set<set<string>> {
    match op
    case Claims(p, accepted) =>
      var t := CanonicalForm(p);
      if accepted && Counterpart(t).Some? then {{t, Counterpart(t).value}} else {}
    case Declares(a, b) => {{CanonicalForm(a), CanonicalForm(b)}}
    case Otherwise(_) => {}
  }

  lemma ApplyAdds(r: Registry, op: Op)
    ensures Apply(r, op).index == r.index + Adds(op)
  {
    hide CanonicalForm, Counterpart;
  }

  function AllAdded(ops: seq<Op>): set<set<string>> {
    if ops == [] then {} else AllAdded(ops[..|ops| - 1]) + Adds(ops[|ops| - 1])
  }

  /**
   The three copies hold the same unordered pairs after any run, and those are the pairs declared and
   the negation pairs of what was asserted: no more and no fewer.
   */
  lemma {:induction false} EveryRunAgrees(ops: seq<Op>)
    ensures Agree(ApplyAll(NONE, ops)) && ApplyAll(NONE, ops).index == AllAdded(ops)
  {
    hide Agree, Apply, Adds;
    if ops == [] {
      NoneAgrees();
    } else {
      var before := ops[..|ops| - 1];
      EveryRunAgrees(before);
      ApplyKeepsAgree(ApplyAll(NONE, before), ops[|ops| - 1]);
      ApplyAdds(ApplyAll(NONE, before), ops[|ops| - 1]);
    }
  }

  lemma NoneAgrees()
    ensures Agree(NONE)
  {
  }

  lemma {:induction false} AddedStays(ops: seq<Op>, i: nat)
    requires i < |ops|
    ensures Adds(ops[i]) <= AllAdded(ops)
  {
    hide Adds;
    if i < |ops| - 1 {
      AddedStays(ops[..|ops| - 1], i);
    }
  }

  /** Whatever was asserted, the engine holds its denial against it from then on. */
  lemma AssertedIsOpposed(ops: seq<Op>, i: nat)
    requires i < |ops| && ops[i].Claims? && ops[i].accepted && Counterpart(CanonicalForm(ops[i].proposition)).Some?
    ensures var t := CanonicalForm(ops[i].proposition);
            Contradicts(ApplyAll(NONE, ops), t, Counterpart(t).value)
  {
    hide CanonicalForm, Counterpart, ApplyAll, AllAdded;
    EveryRunAgrees(ops);
    AddedStays(ops, i);
    CounterpartDiffers(CanonicalForm(ops[i].proposition));
  }

  predicate Contradicts(r: Registry, a: string, b: string) {
    a != b && {a, b} in r.engine
  }

  lemma {:induction false} AddedBySome(ops: seq<Op>, pair: set<string>)
    requires pair in AllAdded(ops)
    ensures exists i :: 0 <= i < |ops| && pair in Adds(ops[i])
  {
    hide Adds;
    var n := |ops| - 1;
    if pair in Adds(ops[n]) {
    } else {
      AddedBySome(ops[..n], pair);
      var i :| 0 <= i < n && pair in Adds(ops[..n][i]);
      assert pair in Adds(ops[i]);
    }
  }

  /** The op sets the two tokens against each other: it declares them so, or asserts one with the other for its denial. */
  predicate Opposes(op: Op, a: string, b: string) {
    match op
    case Claims(p, accepted) =>
      var t := CanonicalForm(p);
      accepted && Counterpart(t).Some? && ((t == a && Counterpart(t).value == b) || (t == b && Counterpart(t).value == a))
    case Declares(p, q) => (CanonicalForm(p) == a && CanonicalForm(q) == b) || (CanonicalForm(p) == b && CanonicalForm(q) == a)
    case Otherwise(_) => false
  }

  lemma PairsMeet(a: string, b: string, c: string, d: string)
    ensures {a, b} == {c, d} <==> (a == c && b == d) || (a == d && b == c)
  {
    if {a, b} == {c, d} {
      assert a in {c, d} && b in {c, d} && c in {a, b} && d in {a, b};
    }
  }

  lemma OpposesIsAdded(op: Op, a: string, b: string)
    ensures {a, b} in Adds(op) <==> Opposes(op, a, b)
  {
    hide CanonicalForm, Counterpart;
    match op
    case Claims(p, accepted) =>
      var t := CanonicalForm(p);
      if Counterpart(t).Some? {
        PairsMeet(t, Counterpart(t).value, a, b);
      }
    case Declares(p, q) => PairsMeet(CanonicalForm(p), CanonicalForm(q), a, b);
    case Otherwise(_) =>
  }

  /** After any run two different tokens contradict exactly when some op of it set them against each other. */
  lemma ContradictsIff(ops: seq<Op>, a: string, b: string)
    ensures Contradicts(ApplyAll(NONE, ops), a, b) <==> a != b && exists i :: 0 <= i < |ops| && Opposes(ops[i], a, b)
  {
    hide ApplyAll, AllAdded, Adds, Opposes;
    EveryRunAgrees(ops);
    if {a, b} in AllAdded(ops) {
      AddedBySome(ops, {a, b});
    }
    forall i | 0 <= i < |ops|
      ensures {a, b} in Adds(ops[i]) <==> Opposes(ops[i], a, b)
    {
      OpposesIsAdded(ops[i], a, b);
    }
    forall i | 0 <= i < |ops| && {a, b} in Adds(ops[i])
      ensures {a, b} in AllAdded(ops)
    {
      AddedStays(ops, i);
    }
  }

  function EngineOf(r: Registry, retracted: string -> bool, reduce: seq<string> -> set<string>): NarrowConflicts.Engine {
    NarrowConflicts.Engine((a, b) => Contradicts(r, a, b), retracted, reduce)
  }

  /** A declared contradiction has no direction, as the conflict query relies on. */
  lemma ContradictionHasNoDirection(r: Registry, retracted: string -> bool, reduce: seq<string> -> set<string>)
    ensures NarrowConflicts.Symmetric(EngineOf(r, retracted, reduce))
  {
    var e := EngineOf(r, retracted, reduce);
    forall a, b
      ensures e.contradicts(a, b) <==> e.contradicts(b, a)
    {
      assert {a, b} == {b, a};
    }
  }

  /**
   So what was asserted and its denial, both open and under a subject in common, are a conflict the
   narrow query finds, whichever of the two it is asked about.
   */
  lemma DenialIsFound(ops: seq<Op>, i: nat, retracted: string -> bool, reduce: seq<string> -> set<string>,
                      open: seq<NarrowConflicts.Claim>, candidates: seq<string>, a: NarrowConflicts.Claim, b: NarrowConflicts.Claim)
    requires i < |ops| && ops[i].Claims? && ops[i].accepted && Counterpart(CanonicalForm(ops[i].proposition)).Some?
    requires a.proposition == CanonicalForm(ops[i].proposition) && b.proposition == Counterpart(a.proposition).value
    requires !retracted(a.proposition) && !retracted(b.proposition) && reduce(a.subjects) == reduce(b.subjects)
    requires a in open && b in open && a.id != b.id && (a.id in candidates || b.id in candidates)
    requires NarrowConflicts.Subjects(a) * NarrowConflicts.Subjects(b) != {}
    ensures var e := EngineOf(ApplyAll(NONE, ops), retracted, reduce);
            NarrowConflicts.Symmetric(e) && NarrowConflicts.Near(e, open, candidates, {a.id, b.id})
  {
    hide CanonicalForm, Counterpart, ApplyAll, NarrowConflicts.Subjects, NarrowConflicts.Relevant, NarrowConflicts.Symmetric;
    var e := EngineOf(ApplyAll(NONE, ops), retracted, reduce);
    AssertedIsOpposed(ops, i);
    ContradictionHasNoDirection(ApplyAll(NONE, ops), retracted, reduce);
    NarrowConflicts.SharersAreNeighbours(open, candidates, a, b);
    assert NarrowConflicts.Conflict(e, a, b);
  }

  // ---------------------------------------------------------------- a restart

  function Logged(ops: seq<Op>): seq<Op> {
    if ops == [] then []
    else Logged(ops[..|ops| - 1]) + if Accepted(ops[|ops| - 1]) then [ops[|ops| - 1]] else []
  }

  /** Replaying the accepted ops rebuilds the registry, in the same order, list and all. */
  lemma {:induction false} RestartRebuilds(ops: seq<Op>)
    ensures ApplyAll(NONE, Logged(ops)) == ApplyAll(NONE, ops)
  {
    hide AutoDeclare, Declare, CanonicalForm;
    if ops != [] {
      var before, op := ops[..|ops| - 1], ops[|ops| - 1];
      RestartRebuilds(before);
      if Accepted(op) {
        assert Logged(ops)[..|Logged(ops)| - 1] == Logged(before);
      } else {
        assert Logged(ops) == Logged(before);
      }
    }
  }
}
