/**
 What an export is made of: `build_record` of scripts/export_testimony.py, on the answers its
 client gets. Times are whole seconds. A draft keeps the members the record's references and order
 depend on; its remaining members are `extra`.
 */
module Export {
  import opened Wrappers
  import opened Json

  datatype Body =
    | Evidence
    | Belief(evidence: seq<string>)
    | Conflict(sides: seq<string>)
    | Decision(risk: string, executed: bool, proposer: string, approval: Option<string>)
    | Approval(decision: string, approver: string)

  datatype Draft = Draft(id: string, ts: int, body: Body, extra: seq<Member>)

  // ---------------------------------------------------------------- what the client answers

  datatype Source = Source(id: string, received: Option<int>, extra: seq<Member>)

  datatype NodeKind = EventNode | AssertionNode | OtherNode

  datatype Node = Node(id: string, kind: NodeKind, extra: seq<Member>)

  datatype Memory = Memory(assertion: string, recordedAt: int, source: Option<Source>, nodes: seq<Node>, extra: seq<Member>)

  /** A verdict of the gate on a proposed action: it did not run. */
  datatype Verdict = Verdict(ts: int, risk: string, extra: seq<Member>)

  datatype Ran = Ran(risk: string, extra: seq<Member>)

  /** A repair that ran; `approver` is the principal when somebody approved it. */
  datatype Recovery = Recovery(ts: int, planSource: string, ran: seq<Ran>, approver: Option<string>, extra: seq<Member>)

  // ---------------------------------------------------------------- names

  function Numbered(kind: string, n: nat): string {
    kind + "_" + NatText(n)
  }

  const NUMBERED := {"evidence", "approval", "conflict", "decision"}

  /** A name the exporter may give an entry of its own. */
  ghost predicate Generated(id: string) {
    id == "integrity_1" || exists kind, n: nat :: kind in NUMBERED && id == Numbered(kind, n)
  }

  function TypeOf(body: Body): string {
    match body
    case Evidence => "evidence"
    case Belief(_) => "belief"
    case Conflict(_) => "conflict"
    case Decision(_, _, _, _) => "decision"
    case Approval(_, _) => "approval"
  }

  function Rank(body: Body): nat {
    match body
    case Evidence => 0
    case Approval(_, _) => 1
    case Belief(_) => 2
    case Conflict(_) => 3
    case Decision(_, _, _, _) => 4
  }

  // ---------------------------------------------------------------- what holds of the entries gathered

  ghost predicate DistinctIds(ds: seq<Draft>) {
    forall i, j :: 0 <= i < j < |ds| ==> ds[i].id != ds[j].id
  }

  /** Some entry of `ds` is called `id`, is of the given type, and is dated no later than `ts`. */
  ghost predicate Has(ds: seq<Draft>, id: string, kind: string, ts: int) {
    exists j :: 0 <= j < |ds| && ds[j].id == id && TypeOf(ds[j].body) == kind && ds[j].ts <= ts
  }

  /** Everything a draft refers to is there, dated no later than the draft. */
  ghost predicate Grounded(ds: seq<Draft>, d: Draft) {
    match d.body
    case Evidence => true
    case Belief(evidence) => forall x :: x in evidence ==> Has(ds, x, "evidence", d.ts)
    case Conflict(sides) => |sides| >= 2 && forall x :: x in sides ==> Has(ds, x, "belief", d.ts)
    case Decision(_, _, _, approval) => approval.Some? ==> Has(ds, approval.value, "approval", d.ts)
    case Approval(decision, _) => Has(ds, decision, "decision", d.ts)
  }

  ghost predicate AllGrounded(ds: seq<Draft>) {
    forall i :: 0 <= i < |ds| ==> Grounded(ds, ds[i])
  }

  /** Generated names carry a number already given out; a belief keeps the memory's id. */
  ghost predicate NamedWithin(d: Draft, evidence: nat, conflicts: nat, actions: nat) {
    match d.body
    case Evidence => exists n: nat :: n <= evidence && d.id == Numbered("evidence", n)
    case Belief(_) => !Generated(d.id)
    case Conflict(_) => exists n: nat :: n <= conflicts && d.id == Numbered("conflict", n)
    case Decision(_, _, _, _) => exists n: nat :: n <= actions && d.id == Numbered("decision", n)
    case Approval(_, _) => exists n: nat :: n <= actions && d.id == Numbered("approval", n)
  }

  ghost predicate AllNamed(ds: seq<Draft>, evidence: nat, conflicts: nat, actions: nat) {
    forall i :: 0 <= i < |ds| ==> NamedWithin(ds[i], evidence, conflicts, actions)
  }
}
