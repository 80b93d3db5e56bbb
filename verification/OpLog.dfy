/**
 The append-only op log of server/api.py: what an op is, what it refers to, and when a log replays.

 The engine that replays a log is not part of this model beyond one demand it makes of every op:
 that whatever the op names was recorded before it.
 */
module OpLog {

  type Id = string

  datatype Op =
    | Entity(id: Id)
    | Agent(id: Id)
    | Event(id: Id, text: string)
    | Assert(id: Id, agent: Id, subjects: seq<Id>, proposition: string)
    | Derive(id: Id, consequent: Id, antecedents: seq<Id>)
    | Supersede(id: Id, agent: Id, subjects: seq<Id>, proposition: string, olds: seq<Id>)
    | Retract(id: Id, agent: Id, subjects: seq<Id>, target: Id)
    | Corefer(id: Id, entityA: Id, entityB: Id, agent: Id)
    | Split(id: Id, cor: Id, agent: Id)
    | Declare(tokenA: string, tokenB: string)

  /** One row of the ops table. */
  datatype Row = Row(seqNo: nat, op: Op)

  type Log = seq<Row>

  /** `seqNo` is the table's key. */
  ghost predicate Keyed(log: Log) {
    forall i, j :: 0 <= i < |log| && 0 <= j < |log| && log[i].seqNo == log[j].seqNo ==> i == j
  }

  /** The ops whose id names an assertion of somebody's. */
  predicate IsClaim(op: Op) {
    op.Assert? || op.Supersede? || op.Retract?
  }

  /** Coreferences and splits are recorded under assertion ids too. */
  predicate IsIdentityOp(op: Op) {
    op.Corefer? || op.Split?
  }

  /** What an op may be named as. */
  datatype Ref =
    | ToEntity(id: Id)
    | ToAgent(id: Id)
    | ToClaim(id: Id)
    | ToNode(id: Id)      // an antecedent: a claim or an event
    | ToCoreference(id: Id)

  predicate Provides(op: Op, ref: Ref) {
    match ref
    case ToEntity(id) => op.Entity? && op.id == id
    case ToAgent(id) => op.Agent? && op.id == id
    case ToClaim(id) => (IsClaim(op) || IsIdentityOp(op)) && op.id == id
    case ToNode(id) => (IsClaim(op) || IsIdentityOp(op) || op.Event?) && op.id == id
    case ToCoreference(id) => op.Corefer? && op.id == id
  }

  /** Everything an op names. */
  function References(op: Op): set<Ref> {
    match op
    case Entity(_) => {}
    case Agent(_) => {}
    case Event(_, _) => {}
    case Declare(_, _) => {}
    case Assert(_, agent, subjects, _) =>
      {ToAgent(agent)} + set s | s in subjects :: ToEntity(s)
    case Derive(_, consequent, antecedents) =>
      {ToClaim(consequent)} + set a | a in antecedents :: ToNode(a)
    case Supersede(_, agent, subjects, _, olds) =>
      {ToAgent(agent)} + (set s | s in subjects :: ToEntity(s)) + set o | o in olds :: ToClaim(o)
    case Retract(_, agent, subjects, target) =>
      {ToAgent(agent), ToClaim(target)} + set s | s in subjects :: ToEntity(s)
    case Corefer(_, a, b, agent) =>
      {ToAgent(agent), ToEntity(a), ToEntity(b)}
    case Split(_, cor, agent) =>
      {ToAgent(agent), ToCoreference(cor)}
  }

  /** The same from the side of what is named: who may name it, and where. */
  lemma NamedBy(op: Op, ref: Ref)
    ensures ref in References(op) <==>
              match ref
              case ToEntity(x) => ((op.Assert? || op.Supersede? || op.Retract?) && x in op.subjects) || (op.Corefer? && (x == op.entityA || x == op.entityB))
              case ToAgent(x) => (op.Assert? || op.Supersede? || op.Retract? || op.Corefer? || op.Split?) && x == op.agent
              case ToClaim(x) => (op.Derive? && x == op.consequent) || (op.Supersede? && x in op.olds) || (op.Retract? && x == op.target)
              case ToNode(x) => op.Derive? && x in op.antecedents
              case ToCoreference(x) => op.Split? && x == op.cor
  {
  }

  predicate Provided(log: Log, ref: Ref) {
    exists r :: r in log && Provides(r.op, ref)
  }

  /** Every reference of `op` points into `log`: the engine that replayed `log` accepts `op`. */
  predicate Resolves(log: Log, op: Op) {
    forall ref :: ref in References(op) ==> Provided(log, ref)
  }

  /** `rows` are accepted one after another by an engine that has replayed `before`. */
  predicate ReplaysAfter(before: Log, rows: Log)
    decreases |rows|
  {
    rows == [] || (Resolves(before, rows[0].op) && ReplaysAfter(before + [rows[0]], rows[1..]))
  }

  predicate Replays(log: Log) {
    ReplaysAfter([], log)
  }
}
