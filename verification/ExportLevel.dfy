/**
 The level the validator reports for an export: TR-1 and TR-2 hold of it, TR-3 exactly when it holds
 a decision and every repair in it passes, and TR-4 then too.
 */
module ExportLevel {
  import opened Wrappers
  import opened Hashing
  import opened Json
  import opened TestimonyRecord
  import opened Assurance
  import opened Export
  import opened Gathering
  import opened Numbering
  import opened ExporterInvariant
  import opened ExportedRecord
  import opened ExportApproval
  import opened UtcTime

  // ---------------------------------------------------------------- as the validator reads them

  lemma FoundAt(ds: seq<Draft>, clock: Clock, g: Entry, j: nat)
    requires Settled(ds) && Field(g, "id") == Some(Str("integrity_1")) && j < |ds|
    ensures var byId := ById(Annotated(Entries(ds, clock) + [g]));
            Key(Str(ds[j].id)) in byId && byId[Key(Str(ds[j].id))] == Annotate(ToJson(ds[j], clock), j + 1)
  {
    hide *;
    var raw := Entries(ds, clock) + [g];
    WrittenIdsAreUnique(ds, clock, g);
    RawAt(ds, clock, g);
    AnnotatedAt(raw);
    IdAt(ds, clock, g, j);
    NamedBy(Annotated(raw)[j], ds[j].id);
    ByIdFinds(Annotated(raw), j);
  }

  lemma NamedBy(e: Entry, id: string)
    requires Field(e, "id") == Some(Str(id))
    ensures HasId(e) && IdKey(e) == Key(Str(id)) && Key(Str(id)) == Str(id)
  {
    hide Field;
  }

  lemma TypeAt(ds: seq<Draft>, clock: Clock, j: nat, kind: string)
    requires j < |ds|
    ensures Is(Annotate(ToJson(ds[j], clock), j + 1), "type", kind) <==> TypeOf(ds[j].body) == kind
  {
    HeadFields(ds[j], clock);
    FieldAnnotated(ToJson(ds[j], clock), j + 1, "type");
    hide Field, Annotate, ToJson, TypeOf;
  }

  /** A name resolves to an entry of a type exactly when a draft of that type bears it. */
  lemma ResolvesIff(ds: seq<Draft>, clock: Clock, g: Entry, x: string, kind: string)
    requires Settled(ds) && Field(g, "id") == Some(Str("integrity_1")) && Is(g, "type", "integrity") && kind != "integrity"
    ensures Resolves(ById(Annotated(Entries(ds, clock) + [g])), Str(x), kind) <==>
              exists j :: 0 <= j < |ds| && ds[j].id == x && TypeOf(ds[j].body) == kind
  {
    hide *;
    var raw := Entries(ds, clock) + [g];
    var entries := Annotated(raw);
    var byId := ById(entries);
    RawAt(ds, clock, g);
    AnnotatedAt(raw);
    ResolvesUnfolds(byId, x, kind);
    ByIdHolds(entries, Str(x));
    if Resolves(byId, Str(x), kind) {
      var i :| 0 <= i < |entries| && HasId(entries[i]) && IdKey(entries[i]) == Str(x) && byId[Str(x)] == entries[i];
      IdAt(ds, clock, g, i);
      NamedBy(entries[i], if i < |ds| then ds[i].id else "integrity_1");
      if i < |ds| {
        TypeAt(ds, clock, i, kind);
      } else {
        IntegrityType(g, i + 1, kind);
      }
    }
    if exists j :: 0 <= j < |ds| && ds[j].id == x && TypeOf(ds[j].body) == kind {
      var j :| 0 <= j < |ds| && ds[j].id == x && TypeOf(ds[j].body) == kind;
      FoundAt(ds, clock, g, j);
      TypeAt(ds, clock, j, kind);
    }
  }

  lemma ResolvesUnfolds(byId: map<Value, Entry>, x: string, kind: string)
    ensures Key(Str(x)) == Str(x)
    ensures Resolves(byId, Str(x), kind) <==> Str(x) in byId && Is(byId[Str(x)], "type", kind)
  {
    hide Is;
  }

  lemma IntegrityType(g: Entry, line: nat, kind: string)
    requires Is(g, "type", "integrity")
    ensures Is(Annotate(g, line), "type", kind) <==> kind == "integrity"
  {
    FieldAnnotated(g, line, "type");
    hide Field, Annotate;
  }

  // ---------------------------------------------------------------- members of a decision and of an approval

  lemma DecisionFields(d: Draft, clock: Clock)
    requires d.body.Decision?
    ensures var e := ToJson(d, clock);
            && Field(e, "risk_class") == Some(Str(d.body.risk)) && Field(e, "executed") == Some(Bool(d.body.executed))
            && Field(e, "proposed_by") == Some(Actor(d.body.proposer, "agent"))
  {
    hide TypeOf, Actor;
    var ms := ToJson(d, clock).members;
    SkipHead(ms, "risk_class", 4);
    SkipHead(ms, "executed", 5);
    SkipHead(ms, "proposed_by", 6);
    LookupHere(ms[4..], "risk_class", ms[4].value);
    LookupHere(ms[5..], "executed", ms[5].value);
    LookupHere(ms[6..], "proposed_by", ms[6].value);
  }

  lemma ApprovalFields(d: Draft, clock: Clock)
    requires d.body.Approval?
    ensures Field(ToJson(d, clock), "approver") == Some(Actor(d.body.approver, "human"))
  {
    hide TypeOf, Actor;
    var ms := ToJson(d, clock).members;
    SkipHead(ms, "approver", 4);
    LookupHere(ms[4..], "approver", ms[4].value);
  }

  lemma {:induction false} SkipHead(ms: seq<Member>, name: string, n: nat)
    requires n <= |ms| && forall i :: 0 <= i < n ==> ms[i].name != name
    ensures Lookup(ms, name) == Lookup(ms[n..], name)
  {
    if n > 0 {
      LookupFurther(ms, name);
      assert ms[1..][n - 1..] == ms[n..];
      SkipHead(ms[1..], name, n - 1);
    }
  }

  lemma ActorFields(id: string, kind: string)
    ensures var a := Actor(id, kind);
            a.Obj? && Truthy(Some(a)) && Field(a, "id") == Some(Str(id)) && Field(a, "kind") == Some(Str(kind)) && Is(a, "kind", kind)
  {
    var ms := Actor(id, kind).members;
    LookupHere(ms, "id", ms[0].value);
    LookupFurther(ms, "kind");
    LookupHere(ms[1..], "kind", ms[1].value);
  }

  // ---------------------------------------------------------------- TR-3, entry by entry

  /** What the approval check reads of an entry. */
  lemma ApprovedReads(byId: map<Value, Entry>, e: Entry, d: Draft)
    requires Is(e, "type", "decision") <==> d.body.Decision?
    requires d.body.Decision? ==>
               && Field(e, "risk_class") == Some(Str(d.body.risk)) && Field(e, "executed") == Some(Bool(d.body.executed))
               && Field(e, "id") == Some(Str(d.id))
               && Field(e, "approval") == Some(if d.body.approval.Some? then Str(d.body.approval.value) else Null)
    ensures var x := if d.body.Decision? && d.body.approval.Some? then d.body.approval.value else "";
            Approved(byId, e) <==>
              (HighRan(d) ==>
               Resolves(byId, Str(x), "approval") && SameKey(Field(byId[Key(Str(x))], "decision"), Some(Str(d.id))))
  {
    hide Field;
  }

  lemma ApprovedIff(ds: seq<Draft>, clock: Clock, g: Entry, i: nat)
    requires Settled(ds) && Field(g, "id") == Some(Str("integrity_1")) && Is(g, "type", "integrity")
    requires i < |ds| && forall j :: 0 <= j < |ds| && ds[j].body.Approval? ==> ds[j].id != ""
    ensures Approved(ById(Annotated(Entries(ds, clock) + [g])), Annotate(ToJson(ds[i], clock), i + 1)) <==> UnlockedAt(ds, i)
  {
    hide *;
    var byId, d, e := ById(Annotated(Entries(ds, clock) + [g])), ds[i], Annotate(ToJson(ds[i], clock), i + 1);
    DecisionReads(d, clock, i + 1);
    ApprovedReads(byId, e, d);
    LinksAre(d, d);
    var x := if d.body.Decision? && d.body.approval.Some? then d.body.approval.value else "";
    ResolvesIff(ds, clock, g, x, "approval");
    forall j | 0 <= j < |ds| && ds[j].id == x && TypeOf(ds[j].body) == "approval"
      ensures ds[j].body.Approval? && Key(Str(x)) in byId && Field(byId[Key(Str(x))], "decision") == Some(Str(ds[j].body.decision))
    {
      BeliefType(ds[j].body);
      FoundAt(ds, clock, g, j);
      ApprovalReads(ds[j], clock, j + 1);
    }
    SettledIsDistinct(ds);
    UnlockedWhen(ds, byId, i, x);
  }

  lemma SettledIsDistinct(ds: seq<Draft>)
    requires Settled(ds)
    ensures DistinctIds(ds)
  {
    hide CitesAbove, DistinctIds;
  }

  lemma DecisionReads(d: Draft, clock: Clock, line: nat)
    ensures var e := Annotate(ToJson(d, clock), line);
            && (Is(e, "type", "decision") <==> d.body.Decision?)
            && (d.body.Decision? ==>
                 && Field(e, "risk_class") == Some(Str(d.body.risk)) && Field(e, "executed") == Some(Bool(d.body.executed))
                 && Field(e, "id") == Some(Str(d.id)) && Field(e, "proposed_by") == Some(Actor(d.body.proposer, "agent"))
                 && Field(e, "approval") == Some(if d.body.approval.Some? then Str(d.body.approval.value) else Null))
  {
    var e := ToJson(d, clock);
    HeadFields(d, clock);
    FieldAnnotated(e, line, "type");
    BeliefType(d.body);
    if d.body.Decision? {
      FourthField(d, clock);
      DecisionFields(d, clock);
      FieldAnnotated(e, line, "id");
      FieldAnnotated(e, line, "risk_class");
      FieldAnnotated(e, line, "executed");
      FieldAnnotated(e, line, "approval");
      FieldAnnotated(e, line, "proposed_by");
    }
    hide Field, Annotate, ToJson, Actor;
  }

  lemma ApprovalReads(d: Draft, clock: Clock, line: nat)
    ensures var e := Annotate(ToJson(d, clock), line);
            && (Is(e, "type", "approval") <==> d.body.Approval?)
            && (d.body.Approval? ==>
                 && Field(e, "decision") == Some(Str(d.body.decision)) && Field(e, "approver") == Some(Actor(d.body.approver, "human")))
  {
    var e := ToJson(d, clock);
    HeadFields(d, clock);
    FieldAnnotated(e, line, "type");
    BeliefType(d.body);
    if d.body.Approval? {
      FourthField(d, clock);
      ApprovalFields(d, clock);
      FieldAnnotated(e, line, "decision");
      FieldAnnotated(e, line, "approver");
    }
    hide Field, Annotate, ToJson, Actor;
  }

  lemma UnlockedWhen(ds: seq<Draft>, byId: map<Value, Entry>, i: nat, x: string)
    requires i < |ds| && x == if ds[i].body.Decision? && ds[i].body.approval.Some? then ds[i].body.approval.value else ""
    requires forall j :: 0 <= j < |ds| && ds[j].body.Approval? ==> ds[j].id != ""
    requires DistinctIds(ds)
    requires Resolves(byId, Str(x), "approval") <==> exists j :: 0 <= j < |ds| && ds[j].id == x && TypeOf(ds[j].body) == "approval"
    requires forall j :: 0 <= j < |ds| && ds[j].id == x && TypeOf(ds[j].body) == "approval" ==>
               ds[j].body.Approval? && Key(Str(x)) in byId && Field(byId[Key(Str(x))], "decision") == Some(Str(ds[j].body.decision))
    ensures (HighRan(ds[i]) ==> Resolves(byId, Str(x), "approval") && SameKey(Field(byId[Key(Str(x))], "decision"), Some(Str(ds[i].id)))) <==>
              UnlockedAt(ds, i)
  {
    hide Resolves, Field;
    if HighRan(ds[i]) && UnlockedAt(ds, i) {
      var j :| 0 <= j < |ds| && Approves(ds[j], ds[i]) && Unlocks(ds[i], ds[j]);
      BeliefType(ds[j].body);
    }
    if HighRan(ds[i]) && Resolves(byId, Str(x), "approval") && SameKey(Field(byId[Key(Str(x))], "decision"), Some(Str(ds[i].id))) {
      var j :| 0 <= j < |ds| && ds[j].id == x && TypeOf(ds[j].body) == "approval";
      assert Approves(ds[j], ds[i]) && Unlocks(ds[i], ds[j]);
    }
  }

  /** The proposer of the entry can be asked for, and is not the given approver. */
  predicate AskedAndAnother(e: Entry, approver: string) {
    var p := ActorId(e, "proposed_by");
    Askable(e, "proposed_by") && !(Truthy(p) && SameKey(p, Some(Str(approver))))
  }

  /** What the check on approvers reads of an entry. */
  lemma PersonReads(byId: map<Value, Entry>, e: Entry, d: Draft)
    requires Is(e, "type", "approval") <==> d.body.Approval?
    requires d.body.Approval? ==>
               Field(e, "decision") == Some(Str(d.body.decision)) && Field(e, "approver") == Some(Actor(d.body.approver, "human"))
    ensures NamesAPerson(byId, e) <==>
              (d.body.Approval? ==>
               && NotBlank(Some(Str(d.body.approver)))
               && Resolves(byId, Str(d.body.decision), "decision")
               && AskedAndAnother(byId[Key(Str(d.body.decision))], d.body.approver))
  {
    if d.body.Approval? {
      ActorFields(d.body.approver, "human");
    }
    hide Field, Actor, NotBlank, ActorId, Askable;
  }

  lemma ProposerReads(e: Entry, d: Draft, approver: string)
    requires d.body.Decision? && Field(e, "proposed_by") == Some(Actor(d.body.proposer, "agent"))
    requires NotBlank(Some(Str(approver)))
    ensures AskedAndAnother(e, approver) <==> d.body.proposer != approver
  {
    ActorFields(d.body.proposer, "agent");
    hide Field, Actor;
  }

  lemma NamesAPersonIff(ds: seq<Draft>, clock: Clock, g: Entry, i: nat)
    requires Settled(ds) && Field(g, "id") == Some(Str("integrity_1")) && Is(g, "type", "integrity") && i < |ds|
    ensures NamesAPerson(ById(Annotated(Entries(ds, clock) + [g])), Annotate(ToJson(ds[i], clock), i + 1)) <==> SignedAt(ds, i)
  {
    hide *;
    var byId, d, e := ById(Annotated(Entries(ds, clock) + [g])), ds[i], Annotate(ToJson(ds[i], clock), i + 1);
    ApprovalReads(d, clock, i + 1);
    PersonReads(byId, e, d);
    SettledIsDistinct(ds);
    if d.body.Approval? && NotBlank(Some(Str(d.body.approver))) {
      var x := d.body.decision;
      ResolvesIff(ds, clock, g, x, "decision");
      forall j | 0 <= j < |ds| && ds[j].id == x && TypeOf(ds[j].body) == "decision"
        ensures && ds[j].body.Decision? && Key(Str(x)) in byId
                && (AskedAndAnother(byId[Key(Str(x))], d.body.approver) <==> ds[j].body.proposer != d.body.approver)
      {
        BeliefType(ds[j].body);
        FoundAt(ds, clock, g, j);
        DecisionReads(ds[j], clock, j + 1);
        ProposerReads(byId[Key(Str(x))], ds[j], d.body.approver);
      }
      SignedWhen(ds, byId, i);
    } else {
      UnsignedWhen(ds, i);
    }
  }

  lemma UnsignedWhen(ds: seq<Draft>, i: nat)
    requires i < |ds| && !(ds[i].body.Approval? && NotBlank(Some(Str(ds[i].body.approver))))
    ensures SignedAt(ds, i) <==> !ds[i].body.Approval?
  {
    hide NotBlank;
  }

  lemma SignedWhen(ds: seq<Draft>, byId: map<Value, Entry>, i: nat)
    requires i < |ds| && DistinctIds(ds) && ds[i].body.Approval? && NotBlank(Some(Str(ds[i].body.approver)))
    requires var x := ds[i].body.decision;
             Resolves(byId, Str(x), "decision") <==> exists j :: 0 <= j < |ds| && ds[j].id == x && TypeOf(ds[j].body) == "decision"
    requires var x := ds[i].body.decision;
             forall j :: 0 <= j < |ds| && ds[j].id == x && TypeOf(ds[j].body) == "decision" ==>
               && ds[j].body.Decision? && Key(Str(x)) in byId
               && (AskedAndAnother(byId[Key(Str(x))], ds[i].body.approver) <==> ds[j].body.proposer != ds[i].body.approver)
    ensures var x := ds[i].body.decision;
            Resolves(byId, Str(x), "decision") && AskedAndAnother(byId[Key(Str(x))], ds[i].body.approver) <==> SignedAt(ds, i)
  {
    hide Resolves, AskedAndAnother, NotBlank;
    var x := ds[i].body.decision;
    if SignedAt(ds, i) {
      var j :| 0 <= j < |ds| && Unlocks(ds[j], ds[i]) && ds[j].body.proposer != ds[i].body.approver;
      BeliefType(ds[j].body);
    }
    if Resolves(byId, Str(x), "decision") {
      var j :| 0 <= j < |ds| && ds[j].id == x && TypeOf(ds[j].body) == "decision";
      assert Unlocks(ds[j], ds[i]);
    }
  }

  // ---------------------------------------------------------------- main results

  lemma IntegrityIsNoAct(byId: map<Value, Entry>, g: Entry, line: nat)
    requires Is(g, "type", "integrity")
    ensures Approved(byId, Annotate(g, line)) && NamesAPerson(byId, Annotate(g, line))
  {
    FieldAnnotated(g, line, "type");
    assert |"integrity"| == 9;
    hide Field, Annotate;
  }

  // ---------------------------------------------------------------- TR-3, the record as a whole

  lemma {:induction false} OfTypeHolds(entries: seq<Entry>, kind: string)
    ensures OfType(entries, kind) != [] <==> exists i :: 0 <= i < |entries| && Is(entries[i], "type", kind)
  {
    hide Is;
    if entries != [] {
      OfTypeHolds(entries[1..], kind);
      assert forall i :: 0 < i < |entries| ==> entries[i] == entries[1..][i - 1];
      if Is(entries[0], "type", kind) {
      } else if OfType(entries[1..], kind) != [] {
        var i :| 0 <= i < |entries[1..]| && Is(entries[1..][i], "type", kind);
        assert entries[i + 1] == entries[1..][i];
      }
    }
  }

  lemma GateUnfolds(entries: seq<Entry>)
    requires OfType(entries, "scope") == []
    ensures ShowsAGate(entries) <==> OfType(entries, "decision") != []
  {
  }

  lemma NoDraftIsAScope(d: Draft)
    ensures TypeOf(d.body) != "scope"
    ensures TypeOf(d.body) == "decision" <==> d.body.Decision?
  {
  }

  /** An export says nothing of what its system does, so it shows a gate exactly when it holds a decision. */
  lemma ShowsAGateIff(ds: seq<Draft>, clock: Clock, g: Entry)
    requires Is(g, "type", "integrity")
    ensures ShowsAGate(Annotated(Entries(ds, clock) + [g])) <==> Decides(ds)
  {
    hide *;
    var raw := Entries(ds, clock) + [g];
    var entries := Annotated(raw);
    RawAt(ds, clock, g);
    AnnotatedAt(raw);
    forall i | 0 <= i < |entries|
      ensures !Is(entries[i], "type", "scope")
      ensures Is(entries[i], "type", "decision") <==> i < |ds| && ds[i].body.Decision?
    {
      if i < |ds| {
        TypeAt(ds, clock, i, "scope");
        TypeAt(ds, clock, i, "decision");
        NoDraftIsAScope(ds[i]);
      } else {
        IntegrityType(g, i + 1, "scope");
        IntegrityType(g, i + 1, "decision");
      }
    }
    OfTypeHolds(entries, "scope");
    OfTypeHolds(entries, "decision");
    GateUnfolds(entries);
    DecidesAt(ds);
    if Decides(ds) {
      var i :| 0 <= i < |ds| && ds[i].body.Decision?;
      assert Is(entries[i], "type", "decision");
    }
  }

  lemma DecidesAt(ds: seq<Draft>)
    ensures Decides(ds) <==> exists i :: 0 <= i < |ds| && ds[i].body.Decision?
  {
  }

  lemma DecidesRenumbered(gathered: seq<Draft>)
    ensures Decides(Renumbered(Sort(gathered))) <==> Decides(gathered)
  {
    var sorted := Sort(gathered);
    SortKeepsMembers(gathered);
    SameLength(sorted);
    hide Sort, Renumbered;
    forall i | 0 <= i < |sorted|
      ensures Renumbered(sorted)[i].body.Decision? <==> sorted[i].body.Decision?
    {
      RenumberedBody(sorted, i);
    }
    DecidesAt(sorted);
    DecidesAt(Renumbered(sorted));
  }

  lemma WrittenActionsPassIff(ds: seq<Draft>, clock: Clock, g: Entry)
    requires Settled(ds) && Field(g, "id") == Some(Str("integrity_1")) && Is(g, "type", "integrity")
    requires forall j :: 0 <= j < |ds| && ds[j].body.Approval? ==> ds[j].id != ""
    ensures (forall c :: c in ActionChecks(Annotated(Entries(ds, clock) + [g])) ==> c.ok) <==> Decides(ds) && AllPass(ds)
  {
    hide *;
    var raw := Entries(ds, clock) + [g];
    var entries := Annotated(raw);
    var byId := ById(entries);
    RawAt(ds, clock, g);
    AnnotatedAt(raw);
    forall i | 0 <= i < |entries|
      ensures Approved(byId, entries[i]) <==> (i < |ds| ==> UnlockedAt(ds, i))
      ensures NamesAPerson(byId, entries[i]) <==> (i < |ds| ==> SignedAt(ds, i))
    {
      if i < |ds| {
        ApprovedIff(ds, clock, g, i);
        NamesAPersonIff(ds, clock, g, i);
      } else {
        IntegrityIsNoAct(byId, g, i + 1);
      }
    }
    ShowsAGateIff(ds, clock, g);
    ActionChecksIff(ds, entries);
  }

  lemma ActionChecksIff(ds: seq<Draft>, entries: seq<Entry>)
    requires |entries| == |ds| + 1
    requires forall i :: 0 <= i < |entries| ==> (Approved(ById(entries), entries[i]) <==> (i < |ds| ==> UnlockedAt(ds, i)))
    requires forall i :: 0 <= i < |entries| ==> (NamesAPerson(ById(entries), entries[i]) <==> (i < |ds| ==> SignedAt(ds, i)))
    ensures (forall c :: c in ActionChecks(entries) ==> c.ok) <==> ShowsAGate(entries) && AllPass(ds)
  {
    hide ById, ShowsAGate, Approved, NamesAPerson, UnlockedAt, SignedAt;
    var checks := ActionChecks(entries);
    assert checks[0] in checks && checks[1] in checks && checks[2] in checks;
    if AllPass(ds) {
      assert forall i :: 0 <= i < |entries| ==> Approved(ById(entries), entries[i]) && NamesAPerson(ById(entries), entries[i]);
    } else {
      var i :| 0 <= i < |ds| && !(UnlockedAt(ds, i) && SignedAt(ds, i));
      assert !(Approved(ById(entries), entries[i]) && NamesAPerson(ById(entries), entries[i]));
    }
  }

  lemma GoodActsBorne(s: State)
    requires Good(s)
    ensures ActsBorne(Sort(s.entries))
  {
    assert AllGrounded(s.entries);
    SortKeepsMembers(s.entries);
    hide Good, Sort;
    forall d | d in Sort(s.entries)
      ensures d.body.Decision? && d.body.approval.Some? ==> Borne(Sort(s.entries), d.body.approval.value)
      ensures d.body.Approval? ==> Borne(Sort(s.entries), d.body.decision)
    {
      var i :| 0 <= i < |s.entries| && s.entries[i] == d;
      assert Grounded(s.entries, d);
      if d.body.Decision? && d.body.approval.Some? {
        var a := Bearer(s.entries, d.body.approval.value, "approval", d.ts);
        assert a in Sort(s.entries);
      } else if d.body.Approval? {
        var e := Bearer(s.entries, d.body.decision, "decision", d.ts);
        assert e in Sort(s.entries);
      }
    }
  }

  lemma ApprovalsAreNamed(ds: seq<Draft>)
    ensures forall j :: 0 <= j < |Renumbered(ds)| && Renumbered(ds)[j].body.Approval? ==> Renumbered(ds)[j].id != ""
  {
    hide Renumbered;
    SameLength(ds);
    forall j | 0 <= j < |Renumbered(ds)| && Renumbered(ds)[j].body.Approval?
      ensures Renumbered(ds)[j].id != ""
    {
      RenumberedBody(ds, j);
      BeliefKeepsItsName(ds, j);
      hide NewId, CountOf, NatText;
    }
  }

  /** Something was decided, and every repair passes. */
  ghost predicate ActionsPass(answers: seq<Answer>) {
    && (exists a :: a in answers && AnswerDecides(a))
    && (forall a :: a in answers ==> AnswerPasses(a))
  }

  /**
   The record written passes the validator's checks on actions exactly when something was decided
   and, in every repair, no action but the first was of high risk, that one was approved, and the
   approver is named and is not who proposed the repair.
   */
  lemma ExportActionsPassIff(sha: Hash, clock: Clock, answers: seq<Answer>, engine: seq<Member>)
    requires NamesApart(answers)
    requires Written(sha, clock, TakeAll(EMPTY, answers).entries, engine).Ok?
    ensures var entries := Annotated(Written(sha, clock, TakeAll(EMPTY, answers).entries, engine).value);
            (forall c :: c in ActionChecks(entries) ==> c.ok) <==> ActionsPass(answers)
  {
    hide *;
    var s := TakeAll(EMPTY, answers);
    EveryRunIsGood(answers);
    GoodSettles(s);
    SettledNames(s);
    GoodActsBorne(s);
    var sorted := Sort(s.entries);
    var ds := Renumbered(sorted);
    ApprovalsAreNamed(sorted);
    var g := WrittenAs(sha, clock, s.entries, engine);
    WrittenActionsPassIff(ds, clock, g);
    RenumberingKeepsPassing(sorted);
    PassByPosition(sorted);
    SortKeepsActs(s.entries);
    RunPassesIff(answers);
    DecidesRenumbered(s.entries);
    RunDecidesIff(answers);
    ActionsPassUnfolds(answers);
  }

  lemma ActionsPassUnfolds(answers: seq<Answer>)
    ensures ActionsPass(answers) <==>
              (exists a :: a in answers && AnswerDecides(a)) && (forall a :: a in answers ==> AnswerPasses(a))
  {
    hide AnswerDecides, AnswerPasses;
  }

  lemma WrittenAs(sha: Hash, clock: Clock, gathered: seq<Draft>, engine: seq<Member>) returns (g: Entry)
    requires Written(sha, clock, gathered, engine).Ok?
    ensures Written(sha, clock, gathered, engine).value == Entries(Renumbered(Sort(gathered)), clock) + [g]
    ensures Field(g, "id") == Some(Str("integrity_1")) && Is(g, "type", "integrity")
  {
    hide Sort, Renumbered, DigestOf, Entries, Field, Integrity;
    var ds := Renumbered(Sort(gathered));
    var digest := DigestOf(sha, Entries(ds, clock)).value;
    g := Integrity(digest, Ids(ds), Last(ds, clock), engine);
    IntegrityFields(digest, Ids(ds), Last(ds, clock), engine);
  }

  // ---------------------------------------------------------------- the level an export reaches

  lemma LevelFrom(sha: Hash, raw: seq<Entry>, others: seq<Check>)
    requires forall c :: c in others ==> c.ok
    requires forall c :: c in RecordChecks(Annotated(raw)) ==> c.ok
    ensures LevelOf(sha, raw, others) ==
            if !(forall c :: c in ActionChecks(Annotated(raw)) ==> c.ok) then 2
            else if !(forall c :: c in IntegrityChecks(sha, Annotated(raw)) ==> c.ok) then 3
            else 4
  {
    hide Annotated, UniqueIds, InTimeOrder, Cited, SidesRetained, ShowsAGate, Approved, NamesAPerson, Covers, DigestMatches, ById, All;
    var entries := Annotated(raw);
    var a, b, c := RecordChecks(entries), ActionChecks(entries), IntegrityChecks(sha, entries);
    var checks := Checks(sha, raw, others);
    assert forall x :: x in checks <==> x in others || x in a || x in b || x in c;
    assert forall x :: x in a ==> x.level == TR1 || x.level == TR2;
    assert forall x :: x in b ==> x.level == TR3;
    assert forall x :: x in c ==> x.level == TR4;
  }

  /** Failing those checks keeps a record below TR-3, whatever the checks not modelled come to. */
  lemma ShortOfTR3(sha: Hash, raw: seq<Entry>, others: seq<Check>)
    requires !(forall c :: c in ActionChecks(Annotated(raw)) ==> c.ok)
    ensures LevelOf(sha, raw, others) < 3
  {
    hide Annotated, ShowsAGate, Approved, NamesAPerson, ById, All, RecordChecks, IntegrityChecks;
    var b, checks := ActionChecks(Annotated(raw)), Checks(sha, raw, others);
    var c :| c in b && !c.ok;
    assert c.level == TR3 && c in checks;
  }

  lemma UnpassedFallsShort(sha: Hash, clock: Clock, answers: seq<Answer>, engine: seq<Member>, others: seq<Check>)
    requires NamesApart(answers) && !ActionsPass(answers)
    requires Written(sha, clock, TakeAll(EMPTY, answers).entries, engine).Ok?
    ensures LevelOf(sha, Written(sha, clock, TakeAll(EMPTY, answers).entries, engine).value, others) < 3
  {
    hide *;
    ExportActionsPassIff(sha, clock, answers, engine);
    ShortOfTR3(sha, Written(sha, clock, TakeAll(EMPTY, answers).entries, engine).value, others);
  }

  lemma DecidedIsSomething(answers: seq<Answer>)
    requires NamesApart(answers) && ActionsPass(answers)
    ensures TakeAll(EMPTY, answers).entries != []
  {
    hide TakeAll, AnswerDecides, AnswerPasses, NamesApart;
    RunDecidesIff(answers);
  }

  /** The level of an export, when the checks not modelled here pass: it is never TR-3 alone. */
  lemma ExportLevel(sha: Hash, clock: Clock, answers: seq<Answer>, engine: seq<Member>, others: seq<Check>)
    requires NamesApart(answers) && Prints(clock, Moments(TakeAll(EMPTY, answers).entries))
    requires Written(sha, clock, TakeAll(EMPTY, answers).entries, engine).Ok?
    requires forall c :: c in others ==> c.ok
    ensures LevelOf(sha, Written(sha, clock, TakeAll(EMPTY, answers).entries, engine).value, others) ==
            if ActionsPass(answers) then 4 else 2
  {
    hide *;
    ExportConforms(sha, clock, answers, engine);
    ExportActionsPassIff(sha, clock, answers, engine);
    LevelFrom(sha, Written(sha, clock, TakeAll(EMPTY, answers).entries, engine).value, others);
    if ActionsPass(answers) {
      DecidedIsSomething(answers);
    }
  }

  /** An approved repair of two high-risk actions is enough to fall short of TR-3, whatever else the checks come to. */
  lemma TwoHighRiskActions(sha: Hash, clock: Clock, ts: int, approver: string, extra: seq<Member>, engine: seq<Member>,
                           others: seq<Check>)
    requires var r := Recovery(ts, "playbook", [Ran("high", []), Ran("high", [])], Some(approver), extra);
             Written(sha, clock, TakeAll(EMPTY, [Repaired(r)]).entries, engine).Ok?
    ensures var r := Recovery(ts, "playbook", [Ran("high", []), Ran("high", [])], Some(approver), extra);
            && !AnswerPasses(Repaired(r))
            && LevelOf(sha, Written(sha, clock, TakeAll(EMPTY, [Repaired(r)]).entries, engine).value, others) < 3
  {
    var r := Recovery(ts, "playbook", [Ran("high", []), Ran("high", [])], Some(approver), extra);
    TwoHighRiskFail(r);
    hide *;
    OneRepair(r);
    UnpassedFallsShort(sha, clock, [Repaired(r)], engine, others);
  }

  lemma TwoHighRiskFail(r: Recovery)
    requires |r.ran| == 2 && r.ran[1].risk == "high"
    ensures !AnswerPasses(Repaired(r))
  {
    hide NotBlank;
  }

  lemma OneRepair(r: Recovery)
    requires !AnswerPasses(Repaired(r))
    ensures NamesApart([Repaired(r)]) && !ActionsPass([Repaired(r)])
  {
    hide AnswerPasses, AnswerDecides;
    assert Repaired(r) in [Repaired(r)];
  }
}
