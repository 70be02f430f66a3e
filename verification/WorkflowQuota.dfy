/** Exactly when the quota of an all-approvers step counts distinct people: approvals given in earlier
    rounds still count after a change request, so a quota above one can be filled by one reviewer. */
module WorkflowQuota {
  import opened Workflow
  import opened WorkflowInvariant
  import opened WorkflowRuns
  import opened WorkflowTheorems

  /** If the workflow has passed step k and that is an all-approvers step, its quota of distinct users approved it. */
  ghost predicate CountsPeople(s: Store, id: string, k: nat)
    requires Linked(s) && id in s.instances && k < |s.templates[s.instances[id].templateId]|
  {
    var i := s.instances[id];
    var steps := s.templates[i.templateId];
    steps[k].approvalRule == AllApprovers && k < Passed(i, steps) ==>
      Quota(s.users, steps[k]) <= |Approvers(i.decisions, k)|
  }

  /** The step knows its rule, and somebody in the store may decide it. */
  ghost predicate Passable(users: map<string, User>, step: WorkflowStep) {
    && step.approvalRule != Unrecognised
    && exists u :: u in users &&
         (users[u].role == OrgAdmin || users[u].role in step.allowedRoles || u in step.allowedUsers)
  }

  /** How many approvals pass a step whose rule the engine knows. */
  function Needed(users: map<string, User>, step: WorkflowStep): (r: nat)
    ensures r >= 1
  {
    if step.approvalRule == AllApprovers then Quota(users, step) else 1
  }

  // ---- One reviewer per step ----

  /** `reviewers` names one admitted user for each of the first steps. */
  ghost predicate Able(users: map<string, User>, steps: seq<WorkflowStep>, reviewers: seq<string>) {
    && 0 < |reviewers| <= |steps|
    && forall j :: 0 <= j < |reviewers| ==>
         && steps[j].approvalRule != Unrecognised
         && reviewers[j] in users && Authorised(steps[j], reviewers[j], users[reviewers[j]])
  }

  ghost predicate DecidedBy(ds: seq<Decision>, reviewers: seq<string>, j: nat) {
    forall d <- ds :: d.stepIndex <= j < |reviewers| && d.decider == reviewers[d.stepIndex]
  }

  /** The row waits at step j with n approvals; each step was decided by its one reviewer alone. */
  ghost predicate SoloRow(i: Instance, now: nat, reviewers: seq<string>, j: nat, n: nat) {
    && i.status == Active && i.stepIndex == j < |reviewers|
    && DecidedBy(i.decisions, reviewers, j)
    && (forall d <- i.decisions :: d.at <= now)
    && (exists d :: d in i.decisions && d.kind == NeedsChanges)
    && |Select(i.decisions, ApprovalsOn(j))| == n
  }

  ghost predicate Solo(s: Store, id: string, reviewers: seq<string>, j: nat, n: nat)
    requires Linked(s)
  {
    && UploadsDated(s) && id in s.instances
    && SoloRow(s.instances[id], s.now, reviewers, j, n)
    && Able(s.users, s.templates[s.instances[id].templateId], reviewers)
  }

  /** The row once its reviewer approved step j with n approvals already there. */
  ghost predicate SoloOutcome(users: map<string, User>, steps: seq<WorkflowStep>, now: nat, r: Instance,
                              reviewers: seq<string>, j: nat, n: nat)
    requires j < |steps|
  {
    if n + 1 < Needed(users, steps[j]) then SoloRow(r, now, reviewers, j, n + 1)
    else
      && j < Passed(r, steps) && DecidedBy(r.decisions, reviewers, j)
      && (j + 1 < |reviewers| ==> SoloRow(r, now, reviewers, j + 1, 0))
  }

  lemma {:induction false} NoneSelected(ds: seq<Decision>, j: nat)
    requires forall d <- ds :: d.stepIndex < j
    ensures Select(ds, ApprovalsOn(j)) == []
  {
    if ds != [] {
      NoneSelected(ds[..|ds| - 1], j);
    }
  }

  /** One second later, after an upload, the reviewer of the current step may decide. */
  lemma SoloMayDecide(s: Store, id: string, reviewers: seq<string>, j: nat, n: nat)
    requires Linked(s) && Solo(s, id, reviewers, j, n)
    ensures
      var t := UploadVersion(s.(now := s.now + 1), s.instances[id].proofId);
      && t.instances == s.instances && t.users == s.users && t.templates == s.templates
      && CanUserDecide(t, reviewers[j], id).MayDecide?
      && Solo(t, id, reviewers, j, n)
  {
    var i := s.instances[id];
    var d :| d in i.decisions && d.kind == NeedsChanges;
    SelectMember(i.decisions, ChangeRequests, d);
    UploadReopens(s, id, reviewers[j]);
  }

  /** What the reviewer's approval adds to the decisions of a row that waits at step j. */
  lemma SoloAppends(ds: seq<Decision>, reviewers: seq<string>, j: nat, now: nat)
    requires j < |reviewers| && DecidedBy(ds, reviewers, j)
    requires exists d :: d in ds && d.kind == NeedsChanges
    ensures
      var es := ds + [Decision(j, Approve, reviewers[j], now)];
      && DecidedBy(es, reviewers, j)
      && (exists d :: d in es && d.kind == NeedsChanges)
      && |Select(es, ApprovalsOn(j))| == |Select(ds, ApprovalsOn(j))| + 1
      && |Select(es, ApprovalsOn(j + 1))| == 0
  {
    var d := Decision(j, Approve, reviewers[j], now);
    SelectAppend(ds, d, ApprovalsOn(j));
    NoneSelected(ds + [d], j + 1);
    hide Select;
    var c :| c in ds && c.kind == NeedsChanges;
    assert c in ds + [d];
  }

  lemma SoloDecided(users: map<string, User>, steps: seq<WorkflowStep>, now: nat, i: Instance, p: Proof,
                    reviewers: seq<string>, j: nat, n: nat)
    requires SoloRow(i, now, reviewers, j, n) && Able(users, steps, reviewers) && n < Needed(users, steps[j])
    ensures
      var r := Decided(users, steps, now, i, p, reviewers[j], Approve).instance;
      SoloOutcome(users, steps, now, r, reviewers, j, n) && r.templateId == i.templateId
  {
    hide Quota;
    hide Select;
    SoloAppends(i.decisions, reviewers, j, now);
    hide Authorised;
    assert steps[j].approvalRule != Unrecognised;
  }

  /** The next approval of the reviewer waits with one approval more, or passes the step. */
  lemma SoloApproves(t: Store, id: string, reviewers: seq<string>, j: nat, n: nat)
    requires Linked(t) && Solo(t, id, reviewers, j, n) && CanUserDecide(t, reviewers[j], id).MayDecide?
    requires n < Needed(t.users, t.templates[t.instances[id].templateId][j])
    ensures
      var r := MakeDecision(t, reviewers[j], id, Approve).0;
      && r.users == t.users && r.templates == t.templates && r.now == t.now && UploadsDated(r)
      && id in r.instances && r.instances[id].templateId == t.instances[id].templateId
      && SoloOutcome(t.users, t.templates[t.instances[id].templateId], t.now, r.instances[id], reviewers, j, n)
  {
    hide Able;
    hide SoloRow;
    hide SoloOutcome;
    var i := t.instances[id];
    SoloDecided(t.users, t.templates[i.templateId], t.now, i, t.proofs[i.proofId], reviewers, j, n);
  }

  lemma RunAppend(s: Store, ops: seq<Op>, op: Op)
    requires Linked(s)
    ensures Run(s, ops + [op]) == Step(Run(s, ops), op)
  {
    assert (ops + [op])[..|ops|] == ops;
  }

  lemma CycleRun(s0: Store, ops: seq<Op>, proofId: string, id: string, user: string) returns (more: seq<Op>)
    requires Linked(s0)
    ensures
      var s := Run(s0, ops);
      var t := UploadVersion(s.(now := s.now + 1), proofId);
      Run(s0, more) == MakeDecision(t, user, id, Approve).0
  {
    var ticked := ops + [OpTick(1)];
    var uploaded := ticked + [OpUpload(proofId)];
    more := uploaded + [OpDecide(user, id, Approve)];
    RunAppend(s0, ops, OpTick(1));
    RunAppend(s0, ticked, OpUpload(proofId));
    RunAppend(s0, uploaded, OpDecide(user, id, Approve));
  }

  /** How a store r, reached from s by one upload and one approval, relates to s. */
  ghost predicate Cycled(s: Store, r: Store, id: string, reviewers: seq<string>, j: nat, n: nat)
    requires Linked(s) && Linked(r) && Solo(s, id, reviewers, j, n)
  {
    var steps := s.templates[s.instances[id].templateId];
    && r.users == s.users && r.templates == s.templates && UploadsDated(r)
    && id in r.instances && r.instances[id].templateId == s.instances[id].templateId
    && SoloOutcome(s.users, steps, r.now, r.instances[id], reviewers, j, n)
  }

  lemma SoloCycle(s0: Store, ops: seq<Op>, s: Store, id: string, reviewers: seq<string>, j: nat, n: nat)
    returns (more: seq<Op>, r: Store)
    requires Linked(s0) && s == Run(s0, ops) && Solo(s, id, reviewers, j, n)
    requires n < Needed(s.users, s.templates[s.instances[id].templateId][j])
    ensures r == Run(s0, more) && Cycled(s, r, id, reviewers, j, n)
  {
    hide CanUserDecide;
    more := CycleRun(s0, ops, s.instances[id].proofId, id, reviewers[j]);
    r := Run(s0, more);
    SoloMayDecide(s, id, reviewers, j, n);
    SoloApproves(UploadVersion(s.(now := s.now + 1), s.instances[id].proofId), id, reviewers, j, n);
  }

  /** Repeating the cycle passes every step that has a reviewer. */
  lemma {:induction false} SoloPasses(s0: Store, ops: seq<Op>, s: Store, id: string, templateId: string,
                                      reviewers: seq<string>, j: nat, n: nat)
    returns (more: seq<Op>)
    requires Linked(s0) && s == Run(s0, ops) && Solo(s, id, reviewers, j, n)
    requires s.instances[id].templateId == templateId
    requires n < Needed(s.users, s.templates[templateId][j])
    ensures
      var r := Run(s0, more);
      && r.users == s.users && r.templates == s.templates
      && id in r.instances && r.instances[id].templateId == templateId
      && |reviewers| - 1 < Passed(r.instances[id], s.templates[templateId])
      && DecidedBy(r.instances[id].decisions, reviewers, |reviewers| - 1)
    decreases |reviewers| - j, Needed(s.users, s.templates[templateId][j]) - n
  {
    hide Needed;
    hide Run;
    var r;
    more, r := SoloCycle(s0, ops, s, id, reviewers, j, n);
    if n + 1 < Needed(s.users, s.templates[templateId][j]) {
      more := SoloPasses(s0, more, r, id, templateId, reviewers, j, n + 1);
    } else if j + 1 < |reviewers| {
      more := SoloPasses(s0, more, r, id, templateId, reviewers, j + 1, 0);
    }
  }

  /** The first reviewer opens by asking for changes. */
  lemma SoloOpens(s0: Store, id: string, proofId: string, templateId: string, reviewers: seq<string>)
    returns (ops: seq<Op>)
    requires Initial(s0) && proofId in s0.proofs && templateId in s0.templates
    requires Able(s0.users, s0.templates[templateId], reviewers)
    ensures
      var s := Run(s0, ops);
      && s.users == s0.users && s.templates == s0.templates
      && Solo(s, id, reviewers, 0, 0) && s.instances[id].templateId == templateId
  {
    var create, ask := OpCreate(id, proofId, templateId), OpDecide(reviewers[0], id, NeedsChanges);
    ops := [] + [create] + [ask];
    RunAppend(s0, [], create);
    RunAppend(s0, [] + [create], ask);
    var d := Decision(0, NeedsChanges, reviewers[0], s0.now);
    SelectAppend([], d, ApprovalsOn(0));
    var s := Run(s0, ops);
    assert s.instances[id].decisions == [] + [d];
    assert d in s.instances[id].decisions;
  }

  lemma OnlyOneApprover(ds: seq<Decision>, k: nat, user: string)
    requires forall d <- ds :: d.stepIndex == k ==> d.decider == user
    ensures |Approvers(ds, k)| <= 1
  {
    forall d | d in Select(ds, ApprovalsOn(k))
      ensures d.decider == user
    {
      SelectMember(ds, ApprovalsOn(k), d);
    }
    assert Approvers(ds, k) <= {user};
    if Approvers(ds, k) != {} {
      assert Approvers(ds, k) == {user};
    }
  }

  lemma {:induction false} ChooseReviewers(users: map<string, User>, steps: seq<WorkflowStep>, n: nat)
    returns (reviewers: seq<string>)
    requires 0 < n <= |steps| && forall j :: 0 <= j < n ==> Passable(users, steps[j])
    ensures |reviewers| == n && Able(users, steps, reviewers)
  {
    if n == 1 {
      reviewers := [];
    } else {
      reviewers := ChooseReviewers(users, steps, n - 1);
    }
    assert Passable(users, steps[n - 1]);
    var u :| u in users && Authorised(steps[n - 1], u, users[u]);
    reviewers := reviewers + [u];
  }

  /** If every step up to k can be passed, some run passes them with one approver at step k. */
  lemma LoneReviewerPasses(s0: Store, id: string, proofId: string, templateId: string, k: nat)
    returns (ops: seq<Op>)
    requires Initial(s0) && proofId in s0.proofs && templateId in s0.templates && k < |s0.templates[templateId]|
    requires forall j :: 0 <= j <= k ==> Passable(s0.users, s0.templates[templateId][j])
    ensures
      var r := Run(s0, ops);
      && r.users == s0.users && r.templates == s0.templates
      && id in r.instances && r.instances[id].templateId == templateId
      && k < Passed(r.instances[id], s0.templates[templateId])
      && |Approvers(r.instances[id].decisions, k)| <= 1
  {
    hide Passable;
    hide Run;
    var reviewers := ChooseReviewers(s0.users, s0.templates[templateId], k + 1);
    var opening := SoloOpens(s0, id, proofId, templateId, reviewers);
    ops := SoloPasses(s0, opening, Run(s0, opening), id, templateId, reviewers, 0, 0);
    OnlyOneApprover(Run(s0, ops).instances[id].decisions, k, reviewers[k]);
  }

  // ---- The other direction ----

  lemma SomeApprover(ds: seq<Decision>, k: nat)
    requires ApprovedThisRound(ds, k)
    ensures |Approvers(ds, k)| >= 1
  {
    var n :| RoundStart(ds) <= n < |ds| && ds[n].stepIndex == k && ds[n].kind == Approve;
    SelectMember(ds, ApprovalsOn(k), ds[n]);
    assert ds[n].decider in Approvers(ds, k);
  }

  lemma PassedIsPassable(s: Store, id: string, j: nat)
    requires Linked(s) && id in s.instances && RowAt(s, id)
    requires j < Passed(s.instances[id], s.templates[s.instances[id].templateId])
    ensures Passable(s.users, s.templates[s.instances[id].templateId][j])
    ensures |Approvers(s.instances[id].decisions, j)| >= 1
  {
    var i := s.instances[id];
    SomeApprover(i.decisions, j);
    var n :| RoundStart(i.decisions) <= n < |i.decisions| && i.decisions[n].stepIndex == j;
  }

  lemma {:induction false} RunKeepsConfiguration(s0: Store, ops: seq<Op>)
    requires Linked(s0)
    ensures Run(s0, ops).users == s0.users && Run(s0, ops).templates == s0.templates
  {
    hide CanUserDecide;
    hide Decided;
    if ops != [] {
      RunKeepsConfiguration(s0, ops[..|ops| - 1]);
    }
  }

  lemma RunCountsPeople(s0: Store, ops: seq<Op>, id: string, k: nat)
    requires Initial(s0) && id in Run(s0, ops).instances
    requires
      var s := Run(s0, ops);
      var steps := s.templates[s.instances[id].templateId];
      k < |steps| && (Quota(s.users, steps[k]) <= 1 || exists j :: 0 <= j <= k && !Passable(s.users, steps[j]))
    ensures CountsPeople(Run(s0, ops), id, k)
  {
    RunKeepsInv(s0, ops);
    hide Run;
    hide Quota;
    hide Passable;
    hide Approvers;
    var s := Run(s0, ops);
    assert RowAt(s, id);
    var i := s.instances[id];
    hide RowAt;
    if k < Passed(i, s.templates[i.templateId]) {
      forall j | 0 <= j <= k
        ensures Passable(s.users, s.templates[i.templateId][j])
      {
        PassedIsPassable(s, id, j);
      }
      PassedIsPassable(s, id, k);
    }
  }

  ghost predicate Runs(s0: Store, ops: seq<Op>, id: string, templateId: string)
    requires Linked(s0)
  {
    id in Run(s0, ops).instances && Run(s0, ops).instances[id].templateId == templateId
  }

  ghost predicate AlwaysCountsPeople(s0: Store, id: string, templateId: string, k: nat)
    requires Linked(s0) && templateId in s0.templates && k < |s0.templates[templateId]|
  {
    forall ops: seq<Op> :: Runs(s0, ops, id, templateId) ==>
      (RunKeepsConfiguration(s0, ops); CountsPeople(Run(s0, ops), id, k))
  }

  /** In every run a workflow passes step k with its quota of distinct approvers, if that is an all-approvers
      step, if and only if the quota is one or some step up to k can never be passed. */
  lemma {:induction false} QuotaCountsPeopleIff(s0: Store, id: string, proofId: string, templateId: string, k: nat)
    requires Initial(s0) && proofId in s0.proofs && templateId in s0.templates
    requires k < |s0.templates[templateId]| && s0.templates[templateId][k].approvalRule == AllApprovers
    ensures
      var steps := s0.templates[templateId];
      AlwaysCountsPeople(s0, id, templateId, k) <==>
        Quota(s0.users, steps[k]) <= 1 || exists j :: 0 <= j <= k && !Passable(s0.users, steps[j])
  {
    hide Quota;
    hide Passable;
    hide Run;
    hide Approvers;
    var steps := s0.templates[templateId];
    if Quota(s0.users, steps[k]) <= 1 || exists j :: 0 <= j <= k && !Passable(s0.users, steps[j]) {
      forall ops: seq<Op> | Runs(s0, ops, id, templateId)
        ensures k < |Run(s0, ops).templates[templateId]| && CountsPeople(Run(s0, ops), id, k)
      {
        RunKeepsConfiguration(s0, ops);
        RunCountsPeople(s0, ops, id, k);
      }
    } else {
      var ops := LoneReviewerPasses(s0, id, proofId, templateId, k);
      assert Runs(s0, ops, id, templateId);
      assert !CountsPeople(Run(s0, ops), id, k);
    }
  }
}
