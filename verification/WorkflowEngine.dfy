/** The engine itself: an object over the database tables, updating rows in place one call at a time. */
module WorkflowEngine {
  import opened Basics
  import opened Workflow

  class Engine {
    const users: map<string, User>
    const templates: map<string, seq<WorkflowStep>>
    var proofs: map<string, Proof>
    var instances: map<string, Instance>
    var audit: seq<AuditEvent>
    var now: nat

    function Contents(): Store
      reads this
    {
      Store(users, templates, proofs, instances, audit, now)
    }

    constructor (users: map<string, User>, templates: map<string, seq<WorkflowStep>>, proofs: map<string, Proof>,
                 now: nat)
      ensures Contents() == Store(users, templates, proofs, map[], [], now)
      ensures Linked(Contents())
    {
      this.users, this.templates, this.proofs := users, templates, proofs;
      instances, audit := map[], [];
      this.now := now;
    }

    method LogAuditEvent(e: AuditEvent)
      modifies `audit
      ensures audit == old(audit) + [e]
    {
      audit := audit + [e];
    }

    method CreateInstance(id: string, proofId: string, templateId: string) returns (error: Option<EngineError>)
      requires Linked(Contents())
      modifies `instances, `proofs, `audit
      ensures (Contents(), error) == Workflow.CreateInstance(old(Contents()), id, proofId, templateId)
    {
      if proofId !in proofs {
        return Some(ProofNotFound);
      }
      if HasWorkflow(Contents(), proofId) {
        return Some(WorkflowExists);
      }
      if templateId !in templates {
        return Some(TemplateNotFound);
      }
      if id in instances {
        return Some(DuplicateId);
      }
      instances := instances[id := Instance(proofId, templateId, 0, Active, [])];
      proofs := proofs[proofId := proofs[proofId].(status := InReview)];
      LogAuditEvent(InstanceEvent(id, Created));
      return None;
    }

    method AdvanceStep(id: string)
      requires id in instances
      modifies `instances, `audit
      ensures var i := old(instances)[id];
              && instances == old(instances)[id := i.(stepIndex := i.stepIndex + 1)]
              && audit == old(audit) + [InstanceEvent(id, StepAdvanced(i.stepIndex, i.stepIndex + 1))]
    {
      var i := instances[id];
      instances := instances[id := i.(stepIndex := i.stepIndex + 1)];
      LogAuditEvent(InstanceEvent(id, StepAdvanced(i.stepIndex, i.stepIndex + 1)));
    }

    /** The shared shape of completing, rejecting and cancelling: both rows in one transaction, then the log. */
    method CloseWorkflow(id: string, status: WorkflowStatus, proofStatus: ProofStatus, action: Action)
      requires id in instances && instances[id].proofId in proofs
      modifies `instances, `proofs, `audit
      ensures var i := old(instances)[id];
              && instances == old(instances)[id := i.(status := status)]
              && proofs == old(proofs)[i.proofId := old(proofs)[i.proofId].(status := proofStatus)]
              && audit == old(audit) + [InstanceEvent(id, action)]
    {
      var i := instances[id];
      instances := instances[id := i.(status := status)];
      proofs := proofs[i.proofId := proofs[i.proofId].(status := proofStatus)];
      LogAuditEvent(InstanceEvent(id, action));
    }

    method ReturnForChanges(id: string)
      requires id in instances
      modifies `instances, `audit
      ensures var i := old(instances)[id];
              && instances == old(instances)[id := i.(stepIndex := 0)]
              && audit == old(audit) + [InstanceEvent(id, ReturnedForChanges(i.stepIndex))]
    {
      var i := instances[id];
      instances := instances[id := i.(stepIndex := 0)];
      LogAuditEvent(InstanceEvent(id, ReturnedForChanges(i.stepIndex)));
    }

    method MakeDecision(userId: string, id: string, kind: DecisionType) returns (result: DecisionResult)
      requires Linked(Contents())
      modifies `instances, `proofs, `audit
      ensures (Contents(), result) == Workflow.MakeDecision(old(Contents()), userId, id, kind)
    {
      hide RuleMet;
      hide Select;
      hide MayDecideAgain;
      hide Authorised;
      var verdict := CanUserDecide(Contents(), userId, id);
      if verdict.Refused? {
        return NotAllowed(verdict.reason);
      }
      var i := instances[id];
      var d := Decision(i.stepIndex, kind, userId, now);
      instances := instances[id := i.(decisions := i.decisions + [d])];
      LogAuditEvent(DecisionEvent(id, d));
      if kind == Reject {
        CloseWorkflow(id, Cancelled, Rejected, RejectedBy(userId));
        result := WorkflowRejected;
      } else if kind == NeedsChanges {
        ReturnForChanges(id);
        result := SentBack;
      } else if !RuleMet(users, verdict.step, i.stepIndex, instances[id].decisions) {
        result := Recorded;
      } else if i.stepIndex >= |templates[i.templateId]| - 1 {
        CloseWorkflow(id, Completed, Approved, CompletedBy(userId));
        result := WorkflowCompleted;
      } else {
        AdvanceStep(id);
        result := StepAdvancedResult;
      }
      ghost var c := Decided(users, templates[i.templateId], now, i, old(proofs)[i.proofId], userId, kind);
      assert instances == old(instances)[id := c.instance];
      assert proofs == old(proofs)[i.proofId := c.proof];
      assert audit == old(audit) + Events(id, d, c.action);
    }

    method CancelWorkflow(id: string, actor: string) returns (error: Option<EngineError>)
      requires Linked(Contents())
      modifies `instances, `proofs, `audit
      ensures (Contents(), error) == Workflow.CancelWorkflow(old(Contents()), id, actor)
    {
      if id !in instances {
        return Some(UnknownInstance);
      }
      if instances[id].status != Active {
        return Some(WorkflowNotActive);
      }
      CloseWorkflow(id, Cancelled, Draft, CancelledBy(actor));
      return None;
    }
  }
}
