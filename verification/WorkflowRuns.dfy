/** Safety of whole runs of the workflow engine. */
module WorkflowRuns {
  import opened Basics
  import opened Workflow
  import opened WorkflowInvariant

  // ---- Every step keeps the invariant ----

  lemma CreateKeepsInv(s: Store, id: string, proofId: string, templateId: string)
    requires Inv(s)
    ensures Inv(CreateInstance(s, id, proofId, templateId).0)
  {
    if CreateInstance(s, id, proofId, templateId).1.None? {
      var e := InstanceEvent(id, Created);
      var i := Instance(proofId, templateId, 0, Active, []);
      var p := s.proofs[proofId].(status := InReview);
      FreshTrail(s.audit, id);
      TrailAppend(s.audit, e, id);
      RowCreated(s.users, s.templates[templateId], s.now, i, p);
      WriteKeepsInv(s, id, i, p, [e]);
    }
  }

  lemma TrailOfDecision(audit: seq<AuditEvent>, id: string, d: Decision, action: Option<Action>)
    ensures Trail(audit + Events(id, d, action), id) == Extended(Trail(audit, id), action)
  {
    TrailAppend(audit, DecisionEvent(id, d), id);
    if action.Some? {
      TrailAppend(audit + [DecisionEvent(id, d)], InstanceEvent(id, action.value), id);
      assert audit + Events(id, d, action) == (audit + [DecisionEvent(id, d)]) + [InstanceEvent(id, action.value)];
    } else {
      assert Events(id, d, action) == [DecisionEvent(id, d)];
    }
  }

  lemma AllowedMeansDecidable(s: Store, userId: string, id: string)
    requires Linked(s) && UploadsDated(s) && CanUserDecide(s, userId, id).MayDecide?
    ensures id in s.instances
    ensures var i := s.instances[id];
            Decidable(s.users, s.templates[i.templateId], s.now, i, s.proofs[i.proofId], userId)
  {
  }

  lemma DecisionKeepsRow(s: Store, userId: string, id: string, kind: DecisionType)
    requires Linked(s) && id in s.instances && RowAt(s, id)
    requires var i := s.instances[id];
             Decidable(s.users, s.templates[i.templateId], s.now, i, s.proofs[i.proofId], userId)
    ensures var i := s.instances[id];
            var c := Decided(s.users, s.templates[i.templateId], s.now, i, s.proofs[i.proofId], userId, kind);
            var es := Events(id, Decision(i.stepIndex, kind, userId, s.now), c.action);
            RowOk(s.users, s.templates[i.templateId], s.now, c.instance, c.proof, Trail(s.audit + es, id))
  {
    var i := s.instances[id];
    var p := s.proofs[i.proofId];
    var steps := s.templates[i.templateId];
    var c := Decided(s.users, steps, s.now, i, p, userId, kind);
    DecidedRow(s.users, steps, s.now, i, p, Trail(s.audit, id), kind, userId);
    TrailOfDecision(s.audit, id, Decision(i.stepIndex, kind, userId, s.now), c.action);
  }

  lemma RewriteIsAllowed(s: Store, id: string, i: Instance, p: Proof, es: seq<AuditEvent>)
    requires Linked(s) && OneWorkflowPerProof(s) && id in s.instances
    requires i.templateId == s.instances[id].templateId && i.proofId == s.instances[id].proofId
    requires p.versions == s.proofs[i.proofId].versions
    requires forall e <- es :: e.instanceId == id
    ensures MayWrite(s, id, i, p, es)
  {
  }

  lemma MakeDecisionWrites(s: Store, userId: string, id: string, kind: DecisionType)
    requires Linked(s) && CanUserDecide(s, userId, id).MayDecide?
    ensures id in s.instances && s.instances[id].stepIndex < |s.templates[s.instances[id].templateId]|
    ensures s.instances[id].status == Active
    ensures
      var i := s.instances[id];
      var c := Decided(s.users, s.templates[i.templateId], s.now, i, s.proofs[i.proofId], userId, kind);
      var es := Events(id, Decision(i.stepIndex, kind, userId, s.now), c.action);
      && MakeDecision(s, userId, id, kind).0 == WriteRow(s, id, c.instance, c.proof, es)
      && forall e <- es :: e.instanceId == id
  {
    hide Decided;
    hide MayDecideAgain;
    hide Authorised;
    hide Select;
  }

  /** An accepted decision is one write to its row. */
  lemma DecideWrites(s: Store, userId: string, id: string, kind: DecisionType)
    returns (i: Instance, p: Proof, es: seq<AuditEvent>)
    requires Linked(s) && CanUserDecide(s, userId, id).MayDecide? && UploadsDated(s)
    requires id in s.instances && RowAt(s, id)
    ensures MakeDecision(s, userId, id, kind).0 == WriteRow(s, id, i, p, es)
    ensures i.templateId == s.instances[id].templateId && i.proofId == s.instances[id].proofId
    ensures i.templateId in s.templates && i.proofId in s.proofs
    ensures p.versions == s.proofs[i.proofId].versions && forall e <- es :: e.instanceId == id
    ensures RowOk(s.users, s.templates[i.templateId], s.now, i, p, Trail(s.audit + es, id))
  {
    assert s.instances[id].templateId in s.templates && s.instances[id].proofId in s.proofs;
    hide *;
    MakeDecisionWrites(s, userId, id, kind);
    AllowedMeansDecidable(s, userId, id);
    DecisionKeepsRow(s, userId, id, kind);
    var j := s.instances[id];
    DecidedIsRewrite(s.users, s.templates[j.templateId], s.now, j, s.proofs[j.proofId], userId, kind);
    var c := Decided(s.users, s.templates[j.templateId], s.now, j, s.proofs[j.proofId], userId, kind);
    i, p, es := c.instance, c.proof, Events(id, Decision(j.stepIndex, kind, userId, s.now), c.action);
  }

  lemma DecideKeepsInv(s: Store, userId: string, id: string, kind: DecisionType)
    requires Inv(s)
    ensures Inv(MakeDecision(s, userId, id, kind).0)
  {
    hide RowOk;
    hide CanUserDecide;
    if CanUserDecide(s, userId, id).MayDecide? {
      assert id in s.instances by { AllowedMeansDecidable(s, userId, id); }
      assert RowAt(s, id);
      hide MakeDecision;
      hide RowAt;
      hide WriteRow;
      var i, p, es := DecideWrites(s, userId, id, kind);
      RewriteIsAllowed(s, id, i, p, es);
      WriteKeepsInv(s, id, i, p, es);
    }
  }

  lemma DecidedIsRewrite(users: map<string, User>, steps: seq<WorkflowStep>, now: nat, i: Instance, p: Proof,
                         userId: string, kind: DecisionType)
    requires i.stepIndex < |steps|
    ensures
      var c := Decided(users, steps, now, i, p, userId, kind);
      c.instance.templateId == i.templateId && c.instance.proofId == i.proofId && c.proof.versions == p.versions
  {
    hide RuleMet;
  }

  lemma CancelKeepsInv(s: Store, id: string, actor: string)
    requires Inv(s)
    ensures Inv(CancelWorkflow(s, id, actor).0)
  {
    if CancelWorkflow(s, id, actor).1.None? {
      var i := s.instances[id];
      var p := s.proofs[i.proofId];
      var e := InstanceEvent(id, CancelledBy(actor));
      assert RowAt(s, id);
      CancelledRow(s.users, s.templates[i.templateId], s.now, i, p, Trail(s.audit, id), actor);
      TrailAppend(s.audit, e, id);
      WriteKeepsInv(s, id, i.(status := Cancelled), p.(status := Draft), [e]);
    }
  }

  lemma AgeingKeepsInv(s: Store, t: Store)
    requires Inv(s) && Linked(t) && UploadsDated(t)
    requires t.users == s.users && t.templates == s.templates && t.instances == s.instances && t.audit == s.audit
    requires s.now <= t.now
    requires forall p <- s.proofs :: p in t.proofs && t.proofs[p].status == s.proofs[p].status
                                     && s.proofs[p].versions <= t.proofs[p].versions
    ensures Inv(t)
  {
    forall a | a in t.instances
      ensures RowAt(t, a)
    {
      var i := s.instances[a];
      assert RowAt(s, a);
      RowAges(s.users, s.templates[i.templateId], s.now, t.now, i, s.proofs[i.proofId], t.proofs[i.proofId],
              Trail(s.audit, a));
    }
  }

  lemma UploadKeepsInv(s: Store, proofId: string)
    requires Inv(s)
    ensures Inv(UploadVersion(s, proofId))
  {
    AgeingKeepsInv(s, UploadVersion(s, proofId));
  }

  lemma TickKeepsInv(s: Store, elapsed: nat)
    requires Inv(s)
    ensures Inv(s.(now := s.now + elapsed))
  {
    AgeingKeepsInv(s, s.(now := s.now + elapsed));
  }

  lemma StepKeepsInv(s: Store, op: Op)
    requires Inv(s)
    ensures Inv(Step(s, op))
  {
    match op
    case OpCreate(id, proofId, templateId) => CreateKeepsInv(s, id, proofId, templateId);
    case OpDecide(userId, id, kind) => DecideKeepsInv(s, userId, id, kind);
    case OpCancel(id, actor) => CancelKeepsInv(s, id, actor);
    case OpUpload(proofId) => UploadKeepsInv(s, proofId);
    case OpTick(elapsed) => TickKeepsInv(s, elapsed);
  }

  lemma {:induction false} RunKeepsInv(s: Store, ops: seq<Op>)
    requires Initial(s)
    ensures Inv(Run(s, ops))
  {
    if ops != [] {
      RunKeepsInv(s, ops[..|ops| - 1]);
      StepKeepsInv(Run(s, ops[..|ops| - 1]), ops[|ops| - 1]);
    }
  }
}
