/** Whom a step admits and what a decision does, in terms of the rows alone, and what the audit log tells a
    reader who never sees the rows. */
module WorkflowAudit {
  import opened Basics
  import opened Workflow
  import opened WorkflowInvariant
  import opened WorkflowRuns

  // ---- Who decides ----

  /** In every run, every decision sits on a step of the template and was made by an organisation admin, by a
      user with a role the step allows, or by a user the step names. */
  lemma DecidersWereAdmitted(s0: Store, ops: seq<Op>, id: string, n: nat)
    requires Initial(s0) && id in Run(s0, ops).instances && n < |Run(s0, ops).instances[id].decisions|
    ensures
      var s := Run(s0, ops);
      var i := s.instances[id];
      var steps, d := s.templates[i.templateId], i.decisions[n];
      && d.stepIndex < |steps| && d.decider in s.users
      && (|| s.users[d.decider].role == OrgAdmin
          || s.users[d.decider].role in steps[d.stepIndex].allowedRoles
          || d.decider in steps[d.stepIndex].allowedUsers)
  {
    RunKeepsInv(s0, ops);
    hide Run;
    assert RowAt(Run(s0, ops), id);
  }

  /** The user has decided the step the instance waits at. */
  ghost predicate IsOwn(i: Instance, user: string, d: Decision) {
    d.stepIndex == i.stepIndex && d.decider == user
  }

  /** Some version is newer than every change request, of which there is one, and every own decision. */
  ghost predicate Reopened(i: Instance, versions: seq<nat>, user: string) {
    && (exists c :: c in i.decisions && c.kind == NeedsChanges)
    && exists v :: v in versions &&
         forall d <- i.decisions :: d.kind == NeedsChanges || IsOwn(i, user, d) ==> d.at < v
  }

  lemma {:induction false} NewestIsMember(ds: seq<Decision>)
    requires ds != []
    ensures exists d :: d in ds && d.at == Newest(ds)
  {
    if |ds| > 1 {
      NewestIsMember(ds[..|ds| - 1]);
      var d :| d in ds[..|ds| - 1] && d.at == Newest(ds[..|ds| - 1]);
      assert d in ds && ds[|ds| - 1] in ds;
    } else {
      assert ds[0] in ds;
    }
  }

  /** The newest of the selected decisions is older than v exactly when all of them are. */
  lemma NewestBefore(ds: seq<Decision>, q: Query, v: nat)
    requires Select(ds, q) != []
    ensures Newest(Select(ds, q)) < v <==> forall d <- ds :: Matches(q, d) ==> d.at < v
  {
    var found := Select(ds, q);
    NewestIsMember(found);
    var d :| d in found && d.at == Newest(found);
    SelectMember(ds, q, d);
    forall e | e in ds && Matches(q, e)
      ensures e.at <= Newest(found)
    {
      SelectMember(ds, q, e);
      NewestBounds(found, e);
    }
  }

  lemma SelectsNone(ds: seq<Decision>, q: Query)
    ensures Select(ds, q) == [] <==> forall d <- ds :: !Matches(q, d)
  {
    forall d | d in ds
      ensures Matches(q, d) <==> d in Select(ds, q)
    {
      SelectMember(ds, q, d);
    }
    if Select(ds, q) != [] {
      SelectMember(ds, q, Select(ds, q)[0]);
    }
  }

  lemma ReopenedIff(i: Instance, versions: seq<nat>, user: string)
    requires Select(i.decisions, By(user, i.stepIndex)) != []
    ensures MayDecideAgain(Select(i.decisions, By(user, i.stepIndex)), i.decisions, versions) <==>
            Reopened(i, versions, user)
  {
    var ds, mine := i.decisions, By(user, i.stepIndex);
    SelectsNone(ds, ChangeRequests);
    if Select(ds, ChangeRequests) != [] && versions != [] {
      NewestUploadIsMaximal(versions);
      var top := NewestUpload(versions);
      NewestBefore(ds, ChangeRequests, top);
      NewestBefore(ds, mine, top);
      assert forall d <- ds :: Matches(mine, d) == IsOwn(i, user, d);
      hide Select;
      if v :| v in versions && forall d <- ds :: d.kind == NeedsChanges || IsOwn(i, user, d) ==> d.at < v {
        assert v <= top;
      }
    }
  }

  /** A user may decide if and only if the instance is active at a step of its template, the user is known and
      admitted by that step, and the user has not decided it yet or a new version reopened it. */
  lemma MayDecideIff(s: Store, user: string, id: string)
    requires Linked(s)
    ensures
      CanUserDecide(s, user, id).MayDecide? <==>
        && id in s.instances && s.instances[id].status == Active && user in s.users
        && var i := s.instances[id];
           var steps := s.templates[i.templateId];
           && i.stepIndex < |steps|
           && (|| s.users[user].role == OrgAdmin
               || s.users[user].role in steps[i.stepIndex].allowedRoles
               || user in steps[i.stepIndex].allowedUsers)
           && (|| (forall d <- i.decisions :: !IsOwn(i, user, d))
               || Reopened(i, s.proofs[i.proofId].versions, user))
  {
    if id in s.instances {
      var i := s.instances[id];
      SelectsNone(i.decisions, By(user, i.stepIndex));
      assert forall d <- i.decisions :: Matches(By(user, i.stepIndex), d) == IsOwn(i, user, d);
      if Select(i.decisions, By(user, i.stepIndex)) != [] {
        ReopenedIff(i, s.proofs[i.proofId].versions, user);
      }
    }
  }

  /** A refusal names the first test that failed. */
  lemma RefusalsSayWhy(s: Store, user: string, id: string)
    requires Linked(s)
    ensures
      var v := CanUserDecide(s, user, id);
      && (v == Refused(InstanceNotFound) <==> id !in s.instances)
      && (v == Refused(NotActive) <==> id in s.instances && s.instances[id].status != Active)
      && (v == Refused(UserNotFound) <==>
            id in s.instances && s.instances[id].status == Active && user !in s.users)
      && (v == Refused(AlreadyDecided) ==>
            && id in s.instances
            && exists d :: d in s.instances[id].decisions && IsOwn(s.instances[id], user, d))
      && (v == Refused(NotAuthorised) ==>
            && id in s.instances && user in s.users
            && var i := s.instances[id];
               var step := s.templates[i.templateId][i.stepIndex];
               && s.users[user].role != OrgAdmin && s.users[user].role !in step.allowedRoles
               && user !in step.allowedUsers)
  {
    if id in s.instances {
      var i := s.instances[id];
      SelectsNone(i.decisions, By(user, i.stepIndex));
    }
  }

  // ---- What a decision does ----

  /** The approvals of step k, by their positions. */
  function ApprovalPositions(ds: seq<Decision>, k: nat): set<nat> {
    set n: nat | n < |ds| && ds[n].stepIndex == k && ds[n].kind == Approve
  }

  lemma {:induction false} ApprovalsAreCounted(ds: seq<Decision>, k: nat)
    ensures |Select(ds, ApprovalsOn(k))| == |ApprovalPositions(ds, k)|
  {
    if ds != [] {
      var ini, last := ds[..|ds| - 1], |ds| - 1;
      ApprovalsAreCounted(ini, k);
      if Matches(ApprovalsOn(k), ds[last]) {
        assert ApprovalPositions(ds, k) == ApprovalPositions(ini, k) + {last};
      } else {
        assert ApprovalPositions(ds, k) == ApprovalPositions(ini, k);
      }
    }
  }

  /** How many approvals the step asks for: one, or under the all-approvers rule one per named user, and if it
      names none, one per internal user with a role it allows, but at least one. */
  ghost predicate Suffices(users: map<string, User>, step: WorkflowStep, approvals: nat) {
    var staff := set u | u in users && users[u].isInternal && users[u].role in step.allowedRoles;
    match step.approvalRule
    case AnyApprover => approvals >= 1
    case SingleApprover => approvals >= 1
    case AllApprovers => approvals >= 1 && approvals >= if step.allowedUsers != [] then |step.allowedUsers| else |staff|
    case Unrecognised => false
  }

  /** What the caller of an accepted decision is told, against what happened to the row. */
  ghost predicate Tells(i: Instance, j: Instance, kind: DecisionType, result: DecisionResult) {
    match result
    case WorkflowRejected => kind == Reject && j.status == Cancelled && j.stepIndex == i.stepIndex
    case SentBack => kind == NeedsChanges && j.status == Active && j.stepIndex == 0
    case Recorded => kind == Approve && j.status == Active && j.stepIndex == i.stepIndex
    case StepAdvancedResult => kind == Approve && j.status == Active && j.stepIndex == i.stepIndex + 1
    case WorkflowCompleted => kind == Approve && j.status == Completed && j.stepIndex == i.stepIndex
    case NotAllowed(_) => false
  }

  /** An accepted decision is recorded with its step, author and time; the result tells what became of the row;
      an approval moves the row on exactly when the step then has enough of them, and completes it exactly at
      the last step; and no other row of the store changes. */
  lemma DecisionOutcome(s: Store, user: string, id: string, kind: DecisionType)
    requires Linked(s) && CanUserDecide(s, user, id).MayDecide?
    ensures
      var (t, result) := MakeDecision(s, user, id, kind);
      var i, j := s.instances[id], t.instances[id];
      var steps := s.templates[i.templateId];
      && t.instances.Keys == s.instances.Keys
      && (forall x <- s.instances :: x != id ==> t.instances[x] == s.instances[x])
      && (forall p <- s.proofs :: p in t.proofs && (p != i.proofId ==> t.proofs[p] == s.proofs[p]))
      && j.decisions == i.decisions + [Decision(i.stepIndex, kind, user, s.now)]
      && j.proofId == i.proofId && j.templateId == i.templateId
      && Tells(i, j, kind, result)
      && (kind == Approve ==>
            var enough := Suffices(s.users, steps[i.stepIndex], |ApprovalPositions(j.decisions, i.stepIndex)|);
            && (result == Recorded <==> !enough)
            && (result == WorkflowCompleted <==> enough && i.stepIndex == |steps| - 1))
  {
    var i := s.instances[id];
    ApprovalsAreCounted(WithDecision(i, kind, user, s.now).decisions, i.stepIndex);
    hide Select;
    hide MayDecideAgain;
    hide ApprovalPositions;
  }

  /** A refused decision changes nothing, and the caller is told the reason. */
  lemma RefusedDecision(s: Store, user: string, id: string, kind: DecisionType)
    requires Linked(s) && CanUserDecide(s, user, id).Refused?
    ensures MakeDecision(s, user, id, kind) == (s, NotAllowed(CanUserDecide(s, user, id).reason))
  {
  }

  /** A workflow starts exactly for a known proof without one, under a known template and an unused key. */
  lemma CreateSucceedsIff(s: Store, id: string, proofId: string, templateId: string)
    requires Linked(s)
    ensures
      var (t, error) := CreateInstance(s, id, proofId, templateId);
      && (error == None <==>
            && proofId in s.proofs && templateId in s.templates && id !in s.instances
            && forall x <- s.instances :: s.instances[x].proofId != proofId)
      && (error == Some(ProofNotFound) <==> proofId !in s.proofs)
      && (error == Some(TemplateNotFound) ==> templateId !in s.templates)
      && (error == Some(WorkflowExists) ==> exists x :: x in s.instances && s.instances[x].proofId == proofId)
      && (error != None ==> t == s)
      && (error == None ==> t.instances == s.instances[id := Instance(proofId, templateId, 0, Active, [])])
  {
  }

  /** A workflow is cancelled exactly while it is active; its decisions and its step stay. */
  lemma CancelSucceedsIff(s: Store, id: string, actor: string)
    requires Linked(s)
    ensures
      var (t, error) := CancelWorkflow(s, id, actor);
      && (error == Some(UnknownInstance) <==> id !in s.instances)
      && (error == Some(WorkflowNotActive) <==> id in s.instances && s.instances[id].status != Active)
      && (error != None ==> t == s)
      && (error == None ==>
            && id in s.instances && s.instances[id].status == Active
            && t.instances == s.instances[id := s.instances[id].(status := Cancelled)])
  {
  }

  /** An upload adds one version, dated now, to a known proof, and touches nothing else. */
  lemma UploadAddsVersion(s: Store, proofId: string)
    requires Linked(s)
    ensures
      var t := UploadVersion(s, proofId);
      && t == s.(proofs := t.proofs) && t.proofs.Keys == s.proofs.Keys
      && forall p <- s.proofs ::
           t.proofs[p] == if p == proofId then s.proofs[p].(versions := s.proofs[p].versions + [s.now]) else s.proofs[p]
  {
  }

  // ---- What the log tells ----

  /** The decisions logged for one workflow, oldest first. */
  function Logged(audit: seq<AuditEvent>, id: string): seq<Decision> {
    if audit == [] then []
    else
      var e := audit[|audit| - 1];
      Logged(audit[..|audit| - 1], id) + if e.DecisionEvent? && e.instanceId == id then [e.decision] else []
  }

  lemma LoggedAppend(audit: seq<AuditEvent>, e: AuditEvent, id: string)
    ensures Logged(audit + [e], id) ==
            Logged(audit, id) + if e.DecisionEvent? && e.instanceId == id then [e.decision] else []
  {
    assert (audit + [e])[..|audit|] == audit;
  }

  /** Each event of the trail names the step the events before it lead to, and advances by one. */
  ghost predicate Chained(trail: seq<Action>) {
    forall n :: 0 <= n < |trail| ==> Follows(Replay(trail[..n]), trail[n])
  }

  ghost predicate Follows(before: Progress, a: Action) {
    match a
    case Created => before == NotStarted
    case StepAdvanced(k, next) => before == At(Active, k) && next == k + 1
    case ReturnedForChanges(k) => before == At(Active, k)
    case CompletedBy(_) => before.At? && before.status == Active
    case RejectedBy(_) => before.At? && before.status == Active
    case CancelledBy(_) => before.At? && before.status == Active
  }

  lemma ChainedAppend(trail: seq<Action>, a: Action)
    requires Chained(trail) && Follows(Replay(trail), a)
    ensures Chained(trail + [a])
  {
    var more := trail + [a];
    assert more[..|trail|] == trail;
    forall n | 0 <= n < |trail|
      ensures Follows(Replay(more[..n]), more[n])
    {
      assert more[..n] == trail[..n];
      assert Follows(Replay(trail[..n]), trail[n]);
    }
  }

  /** Who closed the workflow: the author of the last decision, which approved or rejected it. */
  ghost predicate ClosedByLast(ds: seq<Decision>, trail: seq<Action>) {
    trail != [] ==>
      match trail[|trail| - 1]
      case CompletedBy(actor) => ds != [] && ds[|ds| - 1].decider == actor && ds[|ds| - 1].kind == Approve
      case RejectedBy(actor) => ds != [] && ds[|ds| - 1].decider == actor && ds[|ds| - 1].kind == Reject
      case _ => true
  }

  ghost predicate LogOk(s: Store, id: string)
    requires Linked(s) && id in s.instances
  {
    && Logged(s.audit, id) == s.instances[id].decisions
    && Chained(Trail(s.audit, id))
    && ClosedByLast(s.instances[id].decisions, Trail(s.audit, id))
  }

  lemma {:induction false} FreshLog(audit: seq<AuditEvent>, id: string)
    requires forall e <- audit :: e.instanceId != id
    ensures Logged(audit, id) == []
  {
    if audit != [] {
      FreshLog(audit[..|audit| - 1], id);
    }
  }

  lemma {:induction false} LogOfOthers(audit: seq<AuditEvent>, es: seq<AuditEvent>, id: string, other: string)
    requires (forall e <- es :: e.instanceId == id) && other != id
    ensures Logged(audit + es, other) == Logged(audit, other)
  {
    if es == [] {
      assert audit + es == audit;
    } else {
      var rest := es[..|es| - 1];
      assert audit + es == (audit + rest) + [es[|es| - 1]];
      LoggedAppend(audit + rest, es[|es| - 1], other);
      LogOfOthers(audit, rest, id, other);
    }
  }

  lemma WriteKeepsOtherLog(s: Store, id: string, i: Instance, p: Proof, es: seq<AuditEvent>, other: string)
    requires Linked(s) && other in s.instances && other != id && LogOk(s, other)
    requires (forall e <- es :: e.instanceId == id) && Linked(WriteRow(s, id, i, p, es))
    ensures LogOk(WriteRow(s, id, i, p, es), other)
  {
    LogOfOthers(s.audit, es, id, other);
    TrailOfOthers(s.audit, es, id, other);
    hide Chained;
    hide ClosedByLast;
  }

  lemma LogOfDecision(audit: seq<AuditEvent>, id: string, d: Decision, action: Option<Action>)
    ensures Logged(audit + Events(id, d, action), id) == Logged(audit, id) + [d]
  {
    LoggedAppend(audit, DecisionEvent(id, d), id);
    if action.Some? {
      LoggedAppend(audit + [DecisionEvent(id, d)], InstanceEvent(id, action.value), id);
      assert audit + Events(id, d, action) == (audit + [DecisionEvent(id, d)]) + [InstanceEvent(id, action.value)];
    } else {
      assert Events(id, d, action) == [DecisionEvent(id, d)];
    }
  }

  lemma DecidedFollows(users: map<string, User>, steps: seq<WorkflowStep>, now: nat, i: Instance, p: Proof,
                       trail: seq<Action>, user: string, kind: DecisionType)
    requires i.stepIndex < |steps| && i.status == Active && Replay(trail) == At(Active, i.stepIndex) && Chained(trail)
    ensures
      var c := Decided(users, steps, now, i, p, user, kind);
      Chained(Extended(trail, c.action)) && ClosedByLast(c.instance.decisions, Extended(trail, c.action))
  {
    hide RuleMet;
    var c := Decided(users, steps, now, i, p, user, kind);
    if c.action.Some? {
      ChainedAppend(trail, c.action.value);
    }
  }

  lemma DecideKeepsLog(s: Store, user: string, id: string, kind: DecisionType, x: string)
    requires Inv(s) && (forall y <- s.instances :: LogOk(s, y)) && x in s.instances
    ensures x in MakeDecision(s, user, id, kind).0.instances && LogOk(MakeDecision(s, user, id, kind).0, x)
  {
    hide LogOk;
    hide MakeDecision;
    hide CanUserDecide;
    hide Decided;
    hide Events;
    if CanUserDecide(s, user, id).MayDecide? {
      MakeDecisionWrites(s, user, id, kind);
      assert RowAt(s, id);
      var i := s.instances[id];
      if x != id {
        var c := Decided(s.users, s.templates[i.templateId], s.now, i, s.proofs[i.proofId], user, kind);
        var es := Events(id, Decision(i.stepIndex, kind, user, s.now), c.action);
        WriteKeepsOtherLog(s, id, c.instance, c.proof, es, x);
      } else {
        DecideKeepsOwnLog(s, user, id, kind);
      }
    } else {
      RefusedDecision(s, user, id, kind);
    }
  }

  lemma DecideKeepsOwnLog(s: Store, user: string, id: string, kind: DecisionType)
    requires Linked(s) && CanUserDecide(s, user, id).MayDecide? && LogOk(s, id)
    requires Replay(Trail(s.audit, id)) == At(Active, s.instances[id].stepIndex)
    ensures LogOk(MakeDecision(s, user, id, kind).0, id)
  {
    hide MayDecideAgain;
    hide Select;
    hide Logged;
    hide Trail;
    hide Authorised;
    hide Chained;
    hide ClosedByLast;
    hide RuleMet;
    var i := s.instances[id];
    var steps, p := s.templates[i.templateId], s.proofs[i.proofId];
    var c, d := Decided(s.users, steps, s.now, i, p, user, kind), Decision(i.stepIndex, kind, user, s.now);
    LogOfDecision(s.audit, id, d, c.action);
    TrailOfDecision(s.audit, id, d, c.action);
    DecidedFollows(s.users, steps, s.now, i, p, Trail(s.audit, id), user, kind);
    hide Replay;
    assert c.instance.decisions == i.decisions + [d];
    hide Decided;
    hide Events;
  }

  lemma CreateKeepsLog(s: Store, id: string, proofId: string, templateId: string, x: string)
    requires Inv(s) && forall y <- s.instances :: LogOk(s, y)
    requires x in CreateInstance(s, id, proofId, templateId).0.instances
    ensures LogOk(CreateInstance(s, id, proofId, templateId).0, x)
  {
    hide LogOk;
    if CreateInstance(s, id, proofId, templateId).1.None? {
      var i, p := Instance(proofId, templateId, 0, Active, []), s.proofs[proofId].(status := InReview);
      var e := InstanceEvent(id, Created);
      if x != id {
        WriteKeepsOtherLog(s, id, i, p, [e], x);
      } else {
        FirstEvent(s, id, i, p);
      }
    }
  }

  lemma FirstEvent(s: Store, id: string, i: Instance, p: Proof)
    requires (forall e <- s.audit :: e.instanceId != id) && i.decisions == []
    requires Linked(WriteRow(s, id, i, p, [InstanceEvent(id, Created)]))
    ensures LogOk(WriteRow(s, id, i, p, [InstanceEvent(id, Created)]), id)
  {
    var e := InstanceEvent(id, Created);
    FreshLog(s.audit, id);
    FreshTrail(s.audit, id);
    LoggedAppend(s.audit, e, id);
    TrailAppend(s.audit, e, id);
    ChainedAppend([], Created);
    assert [] + [Created] == [Created];
    hide Chained;
  }

  lemma CancelKeepsLog(s: Store, id: string, actor: string, x: string)
    requires Inv(s) && (forall y <- s.instances :: LogOk(s, y)) && x in s.instances
    ensures x in CancelWorkflow(s, id, actor).0.instances && LogOk(CancelWorkflow(s, id, actor).0, x)
  {
    if CancelWorkflow(s, id, actor).1.None? {
      var i := s.instances[id];
      var e := InstanceEvent(id, CancelledBy(actor));
      if x != id {
        WriteKeepsOtherLog(s, id, i.(status := Cancelled), s.proofs[i.proofId].(status := Draft), [e], x);
      } else {
        assert RowAt(s, id);
        LoggedAppend(s.audit, e, id);
        TrailAppend(s.audit, e, id);
        ChainedAppend(Trail(s.audit, id), CancelledBy(actor));
      }
    }
  }

  lemma StepKeepsLog(s: Store, op: Op, x: string)
    requires Inv(s) && (forall y <- s.instances :: LogOk(s, y)) && x in Step(s, op).instances
    ensures LogOk(Step(s, op), x)
  {
    hide Inv;
    match op
    case OpCreate(id, proofId, templateId) => CreateKeepsLog(s, id, proofId, templateId, x);
    case OpDecide(user, id, kind) =>
      hide LogOk;
      hide CanUserDecide;
      DecideKeepsLog(s, user, id, kind, x);
    case OpCancel(id, actor) => CancelKeepsLog(s, id, actor, x);
    case OpUpload(_) =>
    case OpTick(_) =>
  }

  /** In every run the log alone tells the decisions of a workflow, in order; its events name the steps they
      lead from; and whoever completed or rejected it made the last decision. */
  lemma {:induction false} LogTellsTheStory(s0: Store, ops: seq<Op>, id: string)
    requires Initial(s0) && id in Run(s0, ops).instances
    ensures
      var s := Run(s0, ops);
      var trail, ds := Trail(s.audit, id), s.instances[id].decisions;
      Logged(s.audit, id) == ds && Chained(trail) && ClosedByLast(ds, trail)
  {
    RunKeepsLog(s0, ops);
    assert LogOk(Run(s0, ops), id);
  }

  lemma {:induction false} RunKeepsLog(s0: Store, ops: seq<Op>)
    requires Initial(s0)
    ensures forall x <- Run(s0, ops).instances :: LogOk(Run(s0, ops), x)
  {
    if ops != [] {
      var before, op := ops[..|ops| - 1], ops[|ops| - 1];
      var s := Run(s0, before);
      RunKeepsLog(s0, before);
      RunKeepsInv(s0, before);
      hide LogOk;
      hide Inv;
      hide Step;
      forall x | x in Run(s0, ops).instances
        ensures LogOk(Run(s0, ops), x)
      {
        StepKeepsLog(s, op, x);
      }
    }
  }

  // ---- Who cancelled ----

  /** The run holds a cancellation of this workflow by this actor. */
  ghost predicate Cancels(ops: seq<Op>, id: string, actor: string) {
    exists n :: 0 <= n < |ops| && ops[n] == OpCancel(id, actor)
  }

  lemma StepNamesCanceller(s: Store, op: Op, id: string, actor: string)
    requires Linked(s) && CancelledBy(actor) in Trail(Step(s, op).audit, id)
    ensures CancelledBy(actor) in Trail(s.audit, id) || op == OpCancel(id, actor)
  {
    hide Trail;
    hide CanUserDecide;
    hide Decided;
    match op
    case OpCreate(x, _, _) => TrailAppend(s.audit, InstanceEvent(x, Created), id);
    case OpCancel(x, a) => TrailAppend(s.audit, InstanceEvent(x, CancelledBy(a)), id);
    case OpDecide(user, x, kind) =>
      hide MakeDecision;
      if CanUserDecide(s, user, x).MayDecide? {
        DecisionNamesNoCanceller(s, user, x, kind, id, actor);
      } else {
        RefusedDecision(s, user, x, kind);
      }
    case OpUpload(_) =>
    case OpTick(_) =>
  }

  lemma DecisionNamesNoCanceller(s: Store, user: string, x: string, kind: DecisionType, id: string, actor: string)
    requires Linked(s) && CanUserDecide(s, user, x).MayDecide?
    requires CancelledBy(actor) in Trail(MakeDecision(s, user, x, kind).0.audit, id)
    ensures CancelledBy(actor) in Trail(s.audit, id)
  {
    var i := s.instances[x];
    var c := Decided(s.users, s.templates[i.templateId], s.now, i, s.proofs[i.proofId], user, kind);
    var d := Decision(i.stepIndex, kind, user, s.now);
    hide CanUserDecide;
    if x == id {
      TrailOfDecision(s.audit, id, d, c.action);
    } else {
      TrailOfOthers(s.audit, Events(x, d, c.action), x, id);
    }
  }

  /** In every run, a cancellation in the trail names an actor who called for it. */
  lemma {:induction false} CancellersAreNamed(s0: Store, ops: seq<Op>, id: string, actor: string)
    requires Initial(s0) && CancelledBy(actor) in Trail(Run(s0, ops).audit, id)
    ensures Cancels(ops, id, actor)
  {
    if ops != [] {
      var before, op := ops[..|ops| - 1], ops[|ops| - 1];
      hide Step;
      StepNamesCanceller(Run(s0, before), op, id, actor);
      if op != OpCancel(id, actor) {
        CancellersAreNamed(s0, before, id, actor);
        var n :| 0 <= n < |before| && before[n] == OpCancel(id, actor);
        assert ops[n] == before[n];
      } else {
        assert ops[|ops| - 1] == OpCancel(id, actor);
      }
    }
  }
}
