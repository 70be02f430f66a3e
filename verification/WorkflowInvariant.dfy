/** What every reachable store of the workflow engine satisfies, row by row. */
module WorkflowInvariant {
  import opened Basics
  import opened Workflow

  // ---- Facts about one decision list ----

  /** The position just after the most recent change request, where the current round begins. */
  function RoundStart(ds: seq<Decision>): (r: nat)
    ensures r <= |ds|
  {
    if ds == [] then 0
    else if ds[|ds| - 1].kind == NeedsChanges then |ds|
    else RoundStart(ds[..|ds| - 1])
  }

  ghost predicate ApprovedThisRound(ds: seq<Decision>, k: nat) {
    exists n :: RoundStart(ds) <= n < |ds| && ds[n].stepIndex == k && ds[n].kind == Approve
  }

  ghost predicate Dated(ds: seq<Decision>, now: nat) {
    && (forall n :: 0 <= n < |ds| ==> ds[n].at <= now)
    && (forall m, n :: 0 <= m < n < |ds| ==> ds[m].at <= ds[n].at)
  }

  /** Every decision sits on a step of the template and was made by a user that step admits. */
  ghost predicate Signed(users: map<string, User>, steps: seq<WorkflowStep>, ds: seq<Decision>) {
    forall n :: 0 <= n < |ds| ==>
      && ds[n].stepIndex < |steps| && ds[n].decider in users
      && Authorised(steps[ds[n].stepIndex], ds[n].decider, users[ds[n].decider])
  }

  /** Upload v is later than decision m, not later than n, and later than the change request c made before n. */
  ghost predicate Bridges(ds: seq<Decision>, m: nat, n: nat, v: nat, c: nat)
    requires m < n < |ds|
  {
    c < n && ds[c].kind == NeedsChanges && ds[c].at < v && ds[m].at < v <= ds[n].at
  }

  ghost predicate Separated(ds: seq<Decision>, versions: seq<nat>, m: nat, n: nat)
    requires m < n < |ds|
  {
    exists v, c :: v in versions && Bridges(ds, m, n, v, c)
  }

  ghost predicate Spaced(ds: seq<Decision>, versions: seq<nat>) {
    forall m, n :: 0 <= m < n < |ds| && ds[m].decider == ds[n].decider && ds[m].stepIndex == ds[n].stepIndex ==>
      Separated(ds, versions, m, n)
  }

  ghost predicate HistoryOk(users: map<string, User>, steps: seq<WorkflowStep>, versions: seq<nat>, now: nat,
                            ds: seq<Decision>)
  {
    Dated(ds, now) && Signed(users, steps, ds) && Spaced(ds, versions)
  }

  /** The number of leading steps the instance has passed. */
  function Passed(i: Instance, steps: seq<WorkflowStep>): nat {
    if i.status == Completed then |steps| else i.stepIndex
  }

  ghost predicate Reviewed(users: map<string, User>, steps: seq<WorkflowStep>, i: Instance) {
    && Passed(i, steps) <= |steps|
    && forall k :: 0 <= k < Passed(i, steps) ==>
         ApprovedThisRound(i.decisions, k) && RuleMet(users, steps[k], k, i.decisions)
  }

  lemma {:induction false} SelectMember(ds: seq<Decision>, q: Query, d: Decision)
    ensures d in Select(ds, q) <==> d in ds && Matches(q, d)
  {
    if ds != [] {
      SelectMember(ds[..|ds| - 1], q, d);
      assert ds == ds[..|ds| - 1] + [ds[|ds| - 1]];
    }
  }

  lemma {:induction false} NewestBounds(ds: seq<Decision>, d: Decision)
    requires d in ds
    ensures d.at <= Newest(ds)
  {
    if |ds| > 1 && d != ds[|ds| - 1] {
      NewestBounds(ds[..|ds| - 1], d);
    }
  }

  lemma {:induction false} NewestUploadIsMaximal(vs: seq<nat>)
    requires vs != []
    ensures NewestUpload(vs) in vs
    ensures forall v <- vs :: v <= NewestUpload(vs)
  {
    if |vs| > 1 {
      NewestUploadIsMaximal(vs[..|vs| - 1]);
      assert vs == vs[..|vs| - 1] + [vs[|vs| - 1]];
    }
  }

  lemma {:induction false} RoundStartIsLast(ds: seq<Decision>, n: nat)
    requires RoundStart(ds) <= n < |ds|
    ensures ds[n].kind != NeedsChanges
  {
    if n < |ds| - 1 {
      RoundStartIsLast(ds[..|ds| - 1], n);
    }
  }

  lemma SelectAppend(ds: seq<Decision>, d: Decision, q: Query)
    ensures Select(ds + [d], q) == Select(ds, q) + if Matches(q, d) then [d] else []
  {
    assert (ds + [d])[..|ds|] == ds;
  }

  lemma RoundStartAppend(ds: seq<Decision>, d: Decision)
    ensures RoundStart(ds + [d]) == if d.kind == NeedsChanges then |ds| + 1 else RoundStart(ds)
  {
    assert (ds + [d])[..|ds|] == ds;
  }

  /** A repeated decision that the engine allows is separated from every earlier one by its user on the step. */
  lemma RepeatIsSeparated(versions: seq<nat>, ds: seq<Decision>, d: Decision, m: nat)
    requires m < |ds| && ds[m].decider == d.decider && ds[m].stepIndex == d.stepIndex
    requires
      var mine := Select(ds, By(d.decider, d.stepIndex));
      mine == [] || MayDecideAgain(mine, ds, versions)
    requires forall v <- versions :: v <= d.at
    ensures Separated(ds + [d], versions, m, |ds|)
  {
    var mine := Select(ds, By(d.decider, d.stepIndex));
    SelectMember(ds, By(d.decider, d.stepIndex), ds[m]);
    NewestBounds(mine, ds[m]);
    var changes := Select(ds, ChangeRequests);
    SelectMember(ds, ChangeRequests, changes[0]);
    NewestBounds(changes, changes[0]);
    NewestUploadIsMaximal(versions);
    var c :| 0 <= c < |ds| && ds[c] == changes[0];
    assert Bridges(ds + [d], m, |ds|, NewestUpload(versions), c);
  }

  lemma RecordKeepsSpacing(versions: seq<nat>, ds: seq<Decision>, d: Decision)
    requires Spaced(ds, versions)
    requires
      var mine := Select(ds, By(d.decider, d.stepIndex));
      mine == [] || MayDecideAgain(mine, ds, versions)
    requires forall v <- versions :: v <= d.at
    ensures Spaced(ds + [d], versions)
  {
    var es := ds + [d];
    forall m, n | 0 <= m < n < |es| && es[m].decider == es[n].decider && es[m].stepIndex == es[n].stepIndex
      ensures Separated(es, versions, m, n)
    {
      if n == |ds| {
        RepeatIsSeparated(versions, ds, d, m);
      } else {
        assert Separated(ds, versions, m, n);
        var v, c :| v in versions && Bridges(ds, m, n, v, c);
        assert Bridges(es, m, n, v, c);
      }
    }
  }

  lemma UploadKeepsSpacing(ds: seq<Decision>, vs: seq<nat>, ws: seq<nat>)
    requires Spaced(ds, vs) && vs <= ws
    ensures Spaced(ds, ws)
  {
    forall m, n | 0 <= m < n < |ds| && ds[m].decider == ds[n].decider && ds[m].stepIndex == ds[n].stepIndex
      ensures Separated(ds, ws, m, n)
    {
      assert Separated(ds, vs, m, n);
      var v, c :| v in vs && Bridges(ds, m, n, v, c);
      assert v in ws;
    }
  }

  /** Approvals already given are never lost by a decision other than a change request. */
  lemma RecordKeepsReview(users: map<string, User>, steps: seq<WorkflowStep>, ds: seq<Decision>, d: Decision, k: nat)
    requires k < |steps| && d.kind != NeedsChanges
    requires ApprovedThisRound(ds, k) && RuleMet(users, steps[k], k, ds)
    ensures ApprovedThisRound(ds + [d], k) && RuleMet(users, steps[k], k, ds + [d])
  {
    RoundStartAppend(ds, d);
    SelectAppend(ds, d, ApprovalsOn(k));
    var n :| RoundStart(ds) <= n < |ds| && ds[n].stepIndex == k && ds[n].kind == Approve;
    assert (ds + [d])[n] == ds[n];
  }

  // ---- Facts about one instance row ----

  ghost predicate StatusesAgree(status: WorkflowStatus, proof: ProofStatus, trail: seq<Action>) {
    match status
    case Active => proof == InReview
    case Completed => proof == Approved
    case Cancelled =>
      && trail != []
      && (var last := trail[|trail| - 1];
          || (last.RejectedBy? && proof == Rejected)
          || (last.CancelledBy? && proof == Draft))
  }

  /** The invariant of one row: the instance, its proof and its trail, under its template's steps. */
  ghost predicate RowOk(users: map<string, User>, steps: seq<WorkflowStep>, now: nat,
                        i: Instance, p: Proof, trail: seq<Action>)
  {
    && i.stepIndex < |steps|
    && HistoryOk(users, steps, p.versions, now, i.decisions)
    && Reviewed(users, steps, i)
    && Replay(trail) == At(i.status, i.stepIndex)
    && StatusesAgree(i.status, p.status, trail)
  }

  ghost predicate RowAt(s: Store, id: string)
    requires Linked(s) && id in s.instances
  {
    var i := s.instances[id];
    RowOk(s.users, s.templates[i.templateId], s.now, i, s.proofs[i.proofId], Trail(s.audit, id))
  }

  lemma RowAges(users: map<string, User>, steps: seq<WorkflowStep>, now: nat, later: nat,
                i: Instance, p: Proof, q: Proof, trail: seq<Action>)
    requires RowOk(users, steps, now, i, p, trail)
    requires now <= later && q.status == p.status && p.versions <= q.versions
    ensures RowOk(users, steps, later, i, q, trail)
  {
    UploadKeepsSpacing(i.decisions, p.versions, q.versions);
  }

  lemma RowCreated(users: map<string, User>, steps: seq<WorkflowStep>, now: nat, i: Instance, p: Proof)
    requires steps != [] && i.stepIndex == 0 && i.status == Active && i.decisions == [] && p.status == InReview
    ensures RowOk(users, steps, now, i, p, [Created])
  {
  }

  /** The rows a decision may be recorded on. */
  ghost predicate Decidable(users: map<string, User>, steps: seq<WorkflowStep>, now: nat, i: Instance, p: Proof,
                            userId: string)
  {
    && i.status == Active && i.stepIndex < |steps|
    && userId in users && Authorised(steps[i.stepIndex], userId, users[userId])
    && (forall v <- p.versions :: v <= now)
    && var mine := Select(i.decisions, By(userId, i.stepIndex));
       mine == [] || MayDecideAgain(mine, i.decisions, p.versions)
  }

  lemma RecordedHistory(users: map<string, User>, steps: seq<WorkflowStep>, now: nat, i: Instance, p: Proof,
                        kind: DecisionType, userId: string)
    requires HistoryOk(users, steps, p.versions, now, i.decisions)
    requires Decidable(users, steps, now, i, p, userId)
    ensures HistoryOk(users, steps, p.versions, now, WithDecision(i, kind, userId, now).decisions)
  {
    RecordKeepsSpacing(p.versions, i.decisions, Decision(i.stepIndex, kind, userId, now));
  }

  lemma RecordedReview(users: map<string, User>, steps: seq<WorkflowStep>, now: nat, i: Instance,
                       kind: DecisionType, userId: string)
    requires i.status == Active && Reviewed(users, steps, i) && kind != NeedsChanges
    ensures Reviewed(users, steps, WithDecision(i, kind, userId, now))
  {
    var j := WithDecision(i, kind, userId, now);
    forall k | 0 <= k < i.stepIndex
      ensures ApprovedThisRound(j.decisions, k) && RuleMet(users, steps[k], k, j.decisions)
    {
      RecordKeepsReview(users, steps, i.decisions, Decision(i.stepIndex, kind, userId, now), k);
    }
  }

  /** An approval that meets the rule extends the review record to the step it was made on. */
  lemma PassedReview(users: map<string, User>, steps: seq<WorkflowStep>, now: nat, i: Instance, userId: string)
    requires i.status == Active && i.stepIndex < |steps| && Reviewed(users, steps, i)
    requires RuleMet(users, steps[i.stepIndex], i.stepIndex, WithDecision(i, Approve, userId, now).decisions)
    ensures forall k :: 0 <= k <= i.stepIndex ==>
              && ApprovedThisRound(WithDecision(i, Approve, userId, now).decisions, k)
              && RuleMet(users, steps[k], k, WithDecision(i, Approve, userId, now).decisions)
  {
    RecordedReview(users, steps, now, i, Approve, userId);
    var d := Decision(i.stepIndex, Approve, userId, now);
    RoundStartAppend(i.decisions, d);
    assert (i.decisions + [d])[|i.decisions|] == d;
  }

  lemma ReplayLast(trail: seq<Action>, a: Action)
    ensures (trail + [a])[..|trail|] == trail && (trail + [a])[|trail|] == a
  {
  }

  function Extended(trail: seq<Action>, action: Option<Action>): seq<Action> {
    if action.Some? then trail + [action.value] else trail
  }

  /** What a decided row owes to its trail, whatever the decision was. */
  lemma DecidedTrail(users: map<string, User>, steps: seq<WorkflowStep>, now: nat, i: Instance, p: Proof,
                     trail: seq<Action>, kind: DecisionType, userId: string)
    requires i.stepIndex < |steps| && i.status == Active && p.status == InReview
    requires Replay(trail) == At(i.status, i.stepIndex)
    ensures var c := Decided(users, steps, now, i, p, userId, kind);
            && c.instance.stepIndex < |steps|
            && Replay(Extended(trail, c.action)) == At(c.instance.status, c.instance.stepIndex)
            && StatusesAgree(c.instance.status, c.proof.status, Extended(trail, c.action))
  {
    var c := Decided(users, steps, now, i, p, userId, kind);
    if c.action.Some? {
      ReplayLast(trail, c.action.value);
    }
  }

  lemma DecidedReview(users: map<string, User>, steps: seq<WorkflowStep>, now: nat, i: Instance, p: Proof,
                      kind: DecisionType, userId: string)
    requires i.stepIndex < |steps| && i.status == Active && Reviewed(users, steps, i)
    ensures Reviewed(users, steps, Decided(users, steps, now, i, p, userId, kind).instance)
  {
    if kind != NeedsChanges {
      RecordedReview(users, steps, now, i, kind, userId);
    }
    if kind == Approve && Decided(users, steps, now, i, p, userId, kind).action.Some? {
      PassedReview(users, steps, now, i, userId);
    }
  }

  /** Every way a decision can change a row keeps the row's invariant. */
  lemma DecidedRow(users: map<string, User>, steps: seq<WorkflowStep>, now: nat, i: Instance, p: Proof,
                   trail: seq<Action>, kind: DecisionType, userId: string)
    requires RowOk(users, steps, now, i, p, trail) && Decidable(users, steps, now, i, p, userId)
    ensures var c := Decided(users, steps, now, i, p, userId, kind);
            RowOk(users, steps, now, c.instance, c.proof, Extended(trail, c.action))
  {
    RecordedHistory(users, steps, now, i, p, kind, userId);
    DecidedTrail(users, steps, now, i, p, trail, kind, userId);
    DecidedReview(users, steps, now, i, p, kind, userId);
    assert Decided(users, steps, now, i, p, userId, kind).instance.decisions ==
           WithDecision(i, kind, userId, now).decisions;
  }

  lemma CancelledRow(users: map<string, User>, steps: seq<WorkflowStep>, now: nat, i: Instance, p: Proof,
                     trail: seq<Action>, actor: string)
    requires RowOk(users, steps, now, i, p, trail) && i.status == Active
    ensures RowOk(users, steps, now, i.(status := Cancelled), p.(status := Draft), trail + [CancelledBy(actor)])
  {
    ReplayLast(trail, CancelledBy(actor));
  }

  // ---- The invariant of the store ----

  ghost predicate OneWorkflowPerProof(s: Store) {
    forall a, b :: a in s.instances && b in s.instances && s.instances[a].proofId == s.instances[b].proofId ==> a == b
  }

  ghost predicate EventsNameInstances(s: Store) {
    forall e <- s.audit :: e.instanceId in s.instances
  }

  ghost predicate Inv(s: Store) {
    && Linked(s)
    && (forall t <- s.templates :: s.templates[t] != [])
    && UploadsDated(s)
    && OneWorkflowPerProof(s)
    && EventsNameInstances(s)
    && forall id :: id in s.instances ==> RowAt(s, id)
  }

  lemma TrailAppend(audit: seq<AuditEvent>, e: AuditEvent, id: string)
    ensures Trail(audit + [e], id) ==
            Trail(audit, id) + if e.InstanceEvent? && e.instanceId == id then [e.action] else []
  {
    assert (audit + [e])[..|audit|] == audit;
  }

  lemma {:induction false} FreshTrail(audit: seq<AuditEvent>, id: string)
    requires forall e <- audit :: e.instanceId != id
    ensures Trail(audit, id) == []
  {
    if audit != [] {
      FreshTrail(audit[..|audit| - 1], id);
    }
  }

  lemma {:induction false} TrailOfOthers(audit: seq<AuditEvent>, es: seq<AuditEvent>, id: string, other: string)
    requires forall e <- es :: e.instanceId == id
    requires other != id
    ensures Trail(audit + es, other) == Trail(audit, other)
  {
    if es == [] {
      assert audit + es == audit;
    } else {
      var rest := es[..|es| - 1];
      assert audit + es == (audit + rest) + [es[|es| - 1]];
      TrailAppend(audit + rest, es[|es| - 1], other);
      TrailOfOthers(audit, rest, id, other);
    }
  }

  ghost predicate MayWrite(s: Store, id: string, i: Instance, p: Proof, es: seq<AuditEvent>) {
    && i.templateId in s.templates && i.proofId in s.proofs
    && p.versions == s.proofs[i.proofId].versions
    && (forall a <- s.instances :: s.instances[a].proofId == i.proofId <==> a == id)
    && (forall e <- es :: e.instanceId == id)
  }

  lemma WriteKeepsLinks(s: Store, id: string, i: Instance, p: Proof, es: seq<AuditEvent>)
    requires Linked(s) && OneWorkflowPerProof(s) && EventsNameInstances(s) && UploadsDated(s)
    requires MayWrite(s, id, i, p, es)
    ensures var t := WriteRow(s, id, i, p, es);
            Linked(t) && OneWorkflowPerProof(t) && EventsNameInstances(t) && UploadsDated(t)
  {
  }

  lemma WriteKeepsOtherRow(s: Store, id: string, i: Instance, p: Proof, es: seq<AuditEvent>, other: string)
    requires Linked(s) && MayWrite(s, id, i, p, es)
    requires other in s.instances && other != id && RowAt(s, other)
    requires Linked(WriteRow(s, id, i, p, es))
    ensures RowAt(WriteRow(s, id, i, p, es), other)
  {
    TrailOfOthers(s.audit, es, id, other);
  }

  lemma WriteKeepsInv(s: Store, id: string, i: Instance, p: Proof, es: seq<AuditEvent>)
    requires Inv(s) && MayWrite(s, id, i, p, es)
    requires RowOk(s.users, s.templates[i.templateId], s.now, i, p, Trail(s.audit + es, id))
    ensures Inv(WriteRow(s, id, i, p, es))
  {
    var t := WriteRow(s, id, i, p, es);
    WriteKeepsLinks(s, id, i, p, es);
    forall a | a in t.instances
      ensures RowAt(t, a)
    {
      if a != id {
        WriteKeepsOtherRow(s, id, i, p, es, a);
      }
    }
  }
}
