/** The approval workflow engine as a state machine over its database rows.
    One step of the machine is one engine call, one version upload, or the passing of time. */
module Workflow {
  import opened Basics

  datatype Role = OrgAdmin | DepartmentHead | Employee | PublicSubmitter
  datatype User = User(role: Role, isInternal: bool)

  /** `Unrecognised` stands for any rule string other than the three the engine knows. */
  datatype ApprovalRule = AnyApprover | SingleApprover | AllApprovers | Unrecognised
  datatype WorkflowStep = WorkflowStep(name: string, allowedRoles: seq<Role>, allowedUsers: seq<string>,
                                       approvalRule: ApprovalRule)

  datatype DecisionType = Approve | NeedsChanges | Reject
  datatype Decision = Decision(stepIndex: nat, kind: DecisionType, decider: string, at: nat)

  datatype ProofStatus = Draft | InReview | Approved | Rejected | Published
  datatype Proof = Proof(status: ProofStatus, versions: seq<nat>)  // upload times, oldest first

  datatype WorkflowStatus = Active | Completed | Cancelled
  datatype Instance = Instance(proofId: string, templateId: string, stepIndex: nat,
                               status: WorkflowStatus, decisions: seq<Decision>)

  datatype Action =
    | Created
    | StepAdvanced(previousStep: nat, newStep: nat)
    | CompletedBy(actor: string)
    | RejectedBy(actor: string)
    | ReturnedForChanges(previousStep: nat)
    | CancelledBy(actor: string)

  datatype AuditEvent =
    | InstanceEvent(instanceId: string, action: Action)
    | DecisionEvent(instanceId: string, decision: Decision)

  datatype Store = Store(users: map<string, User>, templates: map<string, seq<WorkflowStep>>,
                         proofs: map<string, Proof>, instances: map<string, Instance>,
                         audit: seq<AuditEvent>, now: nat)

  /** Foreign keys of the instance table. */
  ghost predicate Linked(s: Store) {
    forall id <- s.instances ::
      s.instances[id].templateId in s.templates && s.instances[id].proofId in s.proofs
  }

  // ---- Queries over the decisions of one instance ----

  datatype Query = By(user: string, stepIndex: nat) | ChangeRequests | ApprovalsOn(stepIndex: nat)

  predicate Matches(q: Query, d: Decision) {
    match q
    case By(user, k) => d.stepIndex == k && d.decider == user
    case ChangeRequests => d.kind == NeedsChanges
    case ApprovalsOn(k) => d.stepIndex == k && d.kind == Approve
  }

  function Select(ds: seq<Decision>, q: Query): seq<Decision> {
    if ds == [] then []
    else
      var last := ds[|ds| - 1];
      Select(ds[..|ds| - 1], q) + if Matches(q, last) then [last] else []
  }

  /** The creation time of the row that sorts first when the rows are ordered newest first. */
  function Newest(ds: seq<Decision>): nat
    requires ds != []
  {
    if |ds| == 1 then ds[0].at else Later(Newest(ds[..|ds| - 1]), ds[|ds| - 1].at)
  }

  function NewestUpload(vs: seq<nat>): nat
    requires vs != []
  {
    if |vs| == 1 then vs[0] else Later(NewestUpload(vs[..|vs| - 1]), vs[|vs| - 1])
  }

  function Later(a: nat, b: nat): nat {
    if a <= b then b else a
  }

  // ---- Who may decide ----

  datatype Refusal =
    InstanceNotFound | NotActive | UserNotFound | InvalidStepIndex | NotAuthorised | AlreadyDecided

  datatype Verdict = MayDecide(step: WorkflowStep) | Refused(reason: Refusal)

  predicate Authorised(step: WorkflowStep, userId: string, user: User) {
    user.role == OrgAdmin || user.role in step.allowedRoles || userId in step.allowedUsers
  }

  /** A user who already decided a step may decide it again only once a version newer than both the
      newest change request and the user's own newest decision on the step has been uploaded. */
  predicate MayDecideAgain(mine: seq<Decision>, ds: seq<Decision>, versions: seq<nat>)
    requires mine != []
  {
    var changes := Select(ds, ChangeRequests);
    && changes != [] && versions != []
    && NewestUpload(versions) > Newest(changes)
    && NewestUpload(versions) > Newest(mine)
  }

  function CanUserDecide(s: Store, userId: string, id: string): Verdict
    requires Linked(s)
  {
    if id !in s.instances then Refused(InstanceNotFound) else
    var i := s.instances[id];
    if i.status != Active then Refused(NotActive) else
    if userId !in s.users then Refused(UserNotFound) else
    var steps := s.templates[i.templateId];
    if i.stepIndex >= |steps| then Refused(InvalidStepIndex) else
    var step := steps[i.stepIndex];
    if !Authorised(step, userId, s.users[userId]) then Refused(NotAuthorised) else
    var mine := Select(i.decisions, By(userId, i.stepIndex));
    if mine == [] || MayDecideAgain(mine, i.decisions, s.proofs[i.proofId].versions) then MayDecide(step)
    else Refused(AlreadyDecided)
  }

  // ---- When a step is passed ----

  function UsersWithRoles(users: map<string, User>, roles: seq<Role>): set<string> {
    set u | u in users && users[u].isInternal && users[u].role in roles
  }

  /** How many approvals an all-approvers step asks for. */
  function Quota(users: map<string, User>, step: WorkflowStep): nat {
    if |step.allowedUsers| > 0 then |step.allowedUsers|
    else
      var count := |UsersWithRoles(users, step.allowedRoles)|;
      if count >= 1 then count else 1
  }

  predicate RuleMet(users: map<string, User>, step: WorkflowStep, k: nat, ds: seq<Decision>) {
    var approvals := |Select(ds, ApprovalsOn(k))|;
    match step.approvalRule
    case AnyApprover => approvals >= 1
    case SingleApprover => approvals >= 1
    case AllApprovers => approvals >= Quota(users, step)
    case Unrecognised => false
  }

  // ---- Row updates ----

  /** The store after an engine call wrote one instance row, the row of its proof, and audit events. */
  function WriteRow(s: Store, id: string, i: Instance, p: Proof, es: seq<AuditEvent>): Store {
    s.(instances := s.instances[id := i], proofs := s.proofs[i.proofId := p], audit := s.audit + es)
  }

  // ---- Engine operations ----

  datatype EngineError =
    ProofNotFound | WorkflowExists | TemplateNotFound | UnknownInstance | WorkflowNotActive | DuplicateId

  predicate HasWorkflow(s: Store, proofId: string) {
    exists id :: id in s.instances && s.instances[id].proofId == proofId
  }

  /** `id` is the key the database generates for the new row; a key already in use is refused by it. */
  function CreateInstance(s: Store, id: string, proofId: string, templateId: string): (r: (Store, Option<EngineError>))
    requires Linked(s)
    ensures Linked(r.0)
  {
    if proofId !in s.proofs then (s, Some(ProofNotFound))
    else if HasWorkflow(s, proofId) then (s, Some(WorkflowExists))
    else if templateId !in s.templates then (s, Some(TemplateNotFound))
    else if id in s.instances then (s, Some(DuplicateId))
    else
      var p := s.proofs[proofId].(status := InReview);
      (WriteRow(s, id, Instance(proofId, templateId, 0, Active, []), p, [InstanceEvent(id, Created)]), None)
  }

  datatype DecisionResult =
    Recorded | StepAdvancedResult | WorkflowCompleted | SentBack | WorkflowRejected | NotAllowed(reason: Refusal)

  datatype RowChange = RowChange(instance: Instance, proof: Proof, action: Option<Action>, result: DecisionResult)

  function WithDecision(i: Instance, kind: DecisionType, userId: string, now: nat): Instance {
    i.(decisions := i.decisions + [Decision(i.stepIndex, kind, userId, now)])
  }

  /** What one accepted decision does to its instance and proof. */
  function Decided(users: map<string, User>, steps: seq<WorkflowStep>, now: nat, i: Instance, p: Proof,
                   userId: string, kind: DecisionType): RowChange
    requires i.stepIndex < |steps|
  {
    var j := WithDecision(i, kind, userId, now);
    match kind
    case Reject =>
      RowChange(j.(status := Cancelled), p.(status := Rejected), Some(RejectedBy(userId)), WorkflowRejected)
    case NeedsChanges =>
      RowChange(j.(stepIndex := 0), p, Some(ReturnedForChanges(i.stepIndex)), SentBack)
    case Approve =>
      if !RuleMet(users, steps[i.stepIndex], i.stepIndex, j.decisions) then RowChange(j, p, None, Recorded)
      else if i.stepIndex >= |steps| - 1 then
        RowChange(j.(status := Completed), p.(status := Approved), Some(CompletedBy(userId)), WorkflowCompleted)
      else
        var next := i.stepIndex + 1;
        RowChange(j.(stepIndex := next), p, Some(StepAdvanced(i.stepIndex, next)), StepAdvancedResult)
  }

  function Events(id: string, d: Decision, action: Option<Action>): seq<AuditEvent> {
    [DecisionEvent(id, d)] + if action.Some? then [InstanceEvent(id, action.value)] else []
  }

  function MakeDecision(s: Store, userId: string, id: string, kind: DecisionType): (r: (Store, DecisionResult))
    requires Linked(s)
    ensures Linked(r.0)
  {
    match CanUserDecide(s, userId, id)
    case Refused(reason) => (s, NotAllowed(reason))
    case MayDecide(_) =>
      var i := s.instances[id];
      var c := Decided(s.users, s.templates[i.templateId], s.now, i, s.proofs[i.proofId], userId, kind);
      var es := Events(id, Decision(i.stepIndex, kind, userId, s.now), c.action);
      (WriteRow(s, id, c.instance, c.proof, es), c.result)
  }

  function CancelWorkflow(s: Store, id: string, actor: string): (r: (Store, Option<EngineError>))
    requires Linked(s)
    ensures Linked(r.0)
  {
    if id !in s.instances then (s, Some(UnknownInstance))
    else if s.instances[id].status != Active then (s, Some(WorkflowNotActive))
    else
      var i := s.instances[id];
      var p := s.proofs[i.proofId].(status := Draft);
      (WriteRow(s, id, i.(status := Cancelled), p, [InstanceEvent(id, CancelledBy(actor))]), None)
  }

  function UploadVersion(s: Store, proofId: string): (r: Store)
    requires Linked(s)
    ensures Linked(r)
  {
    if proofId !in s.proofs then s
    else
      var p := s.proofs[proofId];
      s.(proofs := s.proofs[proofId := p.(versions := p.versions + [s.now])])
  }

  // ---- Runs ----

  datatype Op =
    | OpCreate(id: string, proofId: string, templateId: string)
    | OpDecide(userId: string, id: string, kind: DecisionType)
    | OpCancel(id: string, actor: string)
    | OpUpload(proofId: string)
    | OpTick(elapsed: nat)

  function Step(s: Store, op: Op): (r: Store)
    requires Linked(s)
    ensures Linked(r)
  {
    match op
    case OpCreate(id, proofId, templateId) => CreateInstance(s, id, proofId, templateId).0
    case OpDecide(userId, id, kind) => MakeDecision(s, userId, id, kind).0
    case OpCancel(id, actor) => CancelWorkflow(s, id, actor).0
    case OpUpload(proofId) => UploadVersion(s, proofId)
    case OpTick(elapsed) => s.(now := s.now + elapsed)
  }

  function Run(s: Store, ops: seq<Op>): (r: Store)
    requires Linked(s)
    ensures Linked(r)
  {
    if ops == [] then s else Step(Run(s, ops[..|ops| - 1]), ops[|ops| - 1])
  }

  /** No workflow started yet; every template has a step; no version is dated in the future. */
  ghost predicate Initial(s: Store) {
    && s.instances == map[] && s.audit == []
    && (forall t <- s.templates :: s.templates[t] != [])
    && UploadsDated(s)
  }

  ghost predicate UploadsDated(s: Store) {
    forall p <- s.proofs :: forall v <- s.proofs[p].versions :: v <= s.now
  }

  // ---- The audit trail ----

  /** The instance events of one workflow, oldest first. */
  function Trail(audit: seq<AuditEvent>, id: string): seq<Action> {
    if audit == [] then []
    else
      var e := audit[|audit| - 1];
      Trail(audit[..|audit| - 1], id) + if e.InstanceEvent? && e.instanceId == id then [e.action] else []
  }

  datatype Progress = NotStarted | At(status: WorkflowStatus, stepIndex: nat)

  /** What a reader of the trail, who never sees the instance row, takes its progress to be. */
  function Replay(trail: seq<Action>): Progress {
    if trail == [] then NotStarted
    else
      var before := Replay(trail[..|trail| - 1]);
      match trail[|trail| - 1]
      case Created => At(Active, 0)
      case StepAdvanced(_, k) => At(Active, k)
      case ReturnedForChanges(_) => At(Active, 0)
      case CompletedBy(_) => At(Completed, if before.At? then before.stepIndex else 0)
      case RejectedBy(_) => At(Cancelled, if before.At? then before.stepIndex else 0)
      case CancelledBy(_) => At(Cancelled, if before.At? then before.stepIndex else 0)
  }
}
