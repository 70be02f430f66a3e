/** What holds of every run of the workflow engine, in terms of its rows alone. */
module WorkflowTheorems {
  import opened Workflow
  import opened WorkflowInvariant
  import opened WorkflowRuns

  // ---- Every passed step was approved in the current round ----

  /** Decision n approves step k, by a user the step admits, and no change request follows it. */
  ghost predicate StandingApproval(users: map<string, User>, steps: seq<WorkflowStep>, ds: seq<Decision>, k: nat,
                                   n: nat) {
    && k < |steps| && n < |ds| && ds[n].stepIndex == k && ds[n].kind == Approve
    && ds[n].decider in users
    && (|| users[ds[n].decider].role == OrgAdmin
        || users[ds[n].decider].role in steps[k].allowedRoles
        || ds[n].decider in steps[k].allowedUsers)
    && (forall m :: n <= m < |ds| ==> ds[m].kind != NeedsChanges)
  }

  lemma ApprovalStands(users: map<string, User>, steps: seq<WorkflowStep>, ds: seq<Decision>, k: nat)
    requires Signed(users, steps, ds) && k < |steps| && ApprovedThisRound(ds, k)
    ensures exists n :: StandingApproval(users, steps, ds, k, n)
  {
    var n :| RoundStart(ds) <= n < |ds| && ds[n].stepIndex == k && ds[n].kind == Approve;
    forall m | n <= m < |ds|
      ensures ds[m].kind != NeedsChanges
    {
      RoundStartIsLast(ds, m);
    }
    assert StandingApproval(users, steps, ds, k, n);
  }

  /** A step is behind the workflow only if a user it admits approved it after the last change request. */
  lemma PassedStepsWereApproved(s0: Store, ops: seq<Op>, id: string, k: nat)
    requires Initial(s0) && id in Run(s0, ops).instances
    ensures
      var s := Run(s0, ops);
      var i := s.instances[id];
      var steps := s.templates[i.templateId];
      && i.stepIndex < |steps|
      && (k < |steps| && (k < i.stepIndex || i.status == Completed) ==>
            exists n :: StandingApproval(s.users, steps, i.decisions, k, n))
  {
    RunKeepsInv(s0, ops);
    var s := Run(s0, ops);
    assert RowAt(s, id);
    var i := s.instances[id];
    var steps := s.templates[i.templateId];
    if k < |steps| && (k < i.stepIndex || i.status == Completed) {
      ApprovalStands(s.users, steps, i.decisions, k);
    }
  }

  // ---- How often a user can decide ----

  /** Two decisions by one user on one step always have an upload between them that answers a change request. */
  lemma RepeatedDecisionsAreSeparated(s0: Store, ops: seq<Op>, id: string, m: nat, n: nat)
    requires Initial(s0) && id in Run(s0, ops).instances
    requires
      var ds := Run(s0, ops).instances[id].decisions;
      m < n < |ds| && ds[m].decider == ds[n].decider && ds[m].stepIndex == ds[n].stepIndex
    ensures
      var s := Run(s0, ops);
      var i := s.instances[id];
      exists v, c :: v in s.proofs[i.proofId].versions && Bridges(i.decisions, m, n, v, c)
  {
    RunKeepsInv(s0, ops);
    var s := Run(s0, ops);
    assert RowAt(s, id);
    assert Separated(s.instances[id].decisions, s.proofs[s.instances[id].proofId].versions, m, n);
  }

  /** How many uploads are later than lo and not later than hi. */
  function CountIn(vs: seq<nat>, lo: nat, hi: nat): nat {
    if vs == [] then 0
    else CountIn(vs[1..], lo, hi) + if lo < vs[0] <= hi then 1 else 0
  }

  lemma {:induction false} CountInBounds(vs: seq<nat>, lo: nat, hi: nat)
    ensures CountIn(vs, lo, hi) <= |vs|
    ensures hi <= lo ==> CountIn(vs, lo, hi) == 0
  {
    if vs != [] {
      CountInBounds(vs[1..], lo, hi);
    }
  }

  lemma {:induction false} CountInPositive(vs: seq<nat>, lo: nat, hi: nat, v: nat)
    requires v in vs && lo < v <= hi
    ensures CountIn(vs, lo, hi) >= 1
  {
    if v != vs[0] {
      CountInPositive(vs[1..], lo, hi, v);
    }
  }

  lemma {:induction false} CountInSplit(vs: seq<nat>, lo: nat, mid: nat, hi: nat)
    requires lo <= mid <= hi
    ensures CountIn(vs, lo, hi) == CountIn(vs, lo, mid) + CountIn(vs, mid, hi)
  {
    if vs != [] {
      CountInSplit(vs[1..], lo, mid, hi);
    }
  }

  /** The uploads made after the first change request; none if nobody asked for changes. */
  function UploadsAfterChangeRequest(ds: seq<Decision>, vs: seq<nat>, now: nat): nat {
    var changes := Select(ds, ChangeRequests);
    if changes == [] then 0 else CountIn(vs, changes[0].at, now)
  }

  /** Between two decisions by one user on one step, at least one upload is used up. */
  lemma DecisionUsesUpload(ds: seq<Decision>, vs: seq<nat>, now: nat, first: nat, m: nat, n: nat)
    requires m < n < |ds| && Dated(ds, now) && Separated(ds, vs, m, n)
    requires forall c :: 0 <= c < |ds| && ds[c].kind == NeedsChanges ==> first <= ds[c].at
    ensures CountIn(vs, first, ds[m].at) < CountIn(vs, first, ds[n].at)
  {
    var v, c :| v in vs && Bridges(ds, m, n, v, c);
    var mid := Later(first, ds[m].at);
    CountInSplit(vs, first, mid, ds[n].at);
    CountInPositive(vs, mid, ds[n].at, v);
    CountInBounds(vs, first, ds[m].at);
  }

  lemma {:induction false} LastSelected(ds: seq<Decision>, q: Query) returns (m: nat)
    requires Select(ds, q) != []
    ensures m < |ds| && Matches(q, ds[m]) && ds[m] == Select(ds, q)[|Select(ds, q)| - 1]
  {
    m := |ds| - 1;
    if !Matches(q, ds[m]) {
      m := LastSelected(ds[..|ds| - 1], q);
    }
  }

  /** Each decision after a user's first on a step uses up an upload made after `first`. */
  lemma {:induction false} DecisionsUseUploads(ds: seq<Decision>, vs: seq<nat>, now: nat, first: nat, user: string,
                                               k: nat, n: nat)
    requires n <= |ds| && Dated(ds, now) && Spaced(ds, vs)
    requires forall c :: 0 <= c < |ds| && ds[c].kind == NeedsChanges ==> first <= ds[c].at
    ensures var mine := Select(ds[..n], By(user, k));
            mine != [] ==> |mine| <= 1 + CountIn(vs, first, mine[|mine| - 1].at)
  {
    if n > 0 {
      DecisionsUseUploads(ds, vs, now, first, user, k, n - 1);
      var q := By(user, k);
      assert ds[..n] == ds[..n - 1] + [ds[n - 1]];
      SelectAppend(ds[..n - 1], ds[n - 1], q);
      if Matches(q, ds[n - 1]) && Select(ds[..n - 1], q) != [] {
        var m := LastSelected(ds[..n - 1], q);
        DecisionUsesUpload(ds, vs, now, first, m, n - 1);
      }
    }
  }

  lemma {:induction false} FirstChangeIsEarliest(ds: seq<Decision>, now: nat, c: nat)
    requires Dated(ds, now) && c < |ds| && ds[c].kind == NeedsChanges
    ensures Select(ds, ChangeRequests) != [] && Select(ds, ChangeRequests)[0].at <= ds[c].at
  {
    var ini := ds[..|ds| - 1];
    if c < |ini| {
      FirstChangeIsEarliest(ini, now, c);
    } else if Select(ini, ChangeRequests) != [] {
      SelectMember(ini, ChangeRequests, Select(ini, ChangeRequests)[0]);
    }
  }

  /** A user decides a step at most once, plus once per upload made after the first change request. */
  lemma DecisionsPerUserAndStep(ds: seq<Decision>, vs: seq<nat>, now: nat, user: string, k: nat)
    requires Dated(ds, now) && Spaced(ds, vs)
    ensures |Select(ds, By(user, k))| <= 1 + UploadsAfterChangeRequest(ds, vs, now)
  {
    var changes := Select(ds, ChangeRequests);
    var first := if changes == [] then now else changes[0].at;
    forall c | 0 <= c < |ds| && ds[c].kind == NeedsChanges
      ensures first <= ds[c].at
    {
      FirstChangeIsEarliest(ds, now, c);
    }
    DecisionsUseUploads(ds, vs, now, first, user, k, |ds|);
    assert ds[..|ds|] == ds;
    var mine := Select(ds, By(user, k));
    if mine != [] {
      var m := LastSelected(ds, By(user, k));
      CountInBounds(vs, first, ds[m].at);
      if first <= ds[m].at {
        CountInSplit(vs, first, ds[m].at, now);
      }
    }
  }

  /** In every run, a user decides a step at most once, plus once per upload made after the first change request. */
  lemma UserDecidesStepAtMost(s0: Store, ops: seq<Op>, id: string, user: string, k: nat)
    requires Initial(s0) && id in Run(s0, ops).instances
    ensures
      var s := Run(s0, ops);
      var i := s.instances[id];
      |Select(i.decisions, By(user, k))| <=
        1 + UploadsAfterChangeRequest(i.decisions, s.proofs[i.proofId].versions, s.now)
  {
    RunKeepsInv(s0, ops);
    hide Run;
    hide Select;
    hide UploadsAfterChangeRequest;
    var s := Run(s0, ops);
    assert RowAt(s, id);
    var i := s.instances[id];
    DecisionsPerUserAndStep(i.decisions, s.proofs[i.proofId].versions, s.now, user, k);
  }

  // ---- When a step is open for review again ----

  lemma {:induction false} NewestIsOld(ds: seq<Decision>, q: Query, now: nat)
    requires forall d <- ds :: d.at <= now
    ensures Select(ds, q) != [] ==> Newest(Select(ds, q)) <= now
  {
    if ds != [] {
      NewestIsOld(ds[..|ds| - 1], q, now);
      var before, last := Select(ds[..|ds| - 1], q), ds[|ds| - 1];
      assert (before + [last])[..|before|] == before && before + [] == before;
    }
  }

  /** After an upload later than every decision, a user the current step admits may decide it exactly when
      somebody has asked for changes or the user has not decided the step yet. */
  lemma UploadReopens(s: Store, id: string, user: string)
    requires Linked(s) && UploadsDated(s) && id in s.instances && s.instances[id].status == Active
    requires var i := s.instances[id];
             var steps := s.templates[i.templateId];
             && i.stepIndex < |steps| && user in s.users && Authorised(steps[i.stepIndex], user, s.users[user])
             && (forall d <- i.decisions :: d.at <= s.now)
    ensures
      var i := s.instances[id];
      var t := UploadVersion(s.(now := s.now + 1), i.proofId);
      CanUserDecide(t, user, id).MayDecide? <==>
        Select(i.decisions, ChangeRequests) != [] || Select(i.decisions, By(user, i.stepIndex)) == []
  {
    var i := s.instances[id];
    var t := UploadVersion(s.(now := s.now + 1), i.proofId);
    var vs := t.proofs[i.proofId].versions;
    assert vs[|vs| - 1] == t.now && t.now in vs;
    NewestUploadIsMaximal(vs);
    NewestIsOld(i.decisions, ChangeRequests, s.now);
    NewestIsOld(i.decisions, By(user, i.stepIndex), s.now);
  }

  /** No run gets stuck in review: at any active step, once a new version is uploaded, every user the step
      admits may decide, unless nobody ever asked for changes and the user has decided the step already. */
  lemma ReviewReopensAfterUpload(s0: Store, ops: seq<Op>, id: string, user: string)
    requires Initial(s0) && id in Run(s0, ops).instances && Run(s0, ops).instances[id].status == Active
    requires var s := Run(s0, ops);
             var i := s.instances[id];
             var steps := s.templates[i.templateId];
             i.stepIndex < |steps| ==> user in s.users && Authorised(steps[i.stepIndex], user, s.users[user])
    ensures
      var s := Run(s0, ops);
      var i := s.instances[id];
      var t := UploadVersion(s.(now := s.now + 1), i.proofId);
      CanUserDecide(t, user, id).MayDecide? <==>
        Select(i.decisions, ChangeRequests) != [] || Select(i.decisions, By(user, i.stepIndex)) == []
  {
    hide Run;
    RunKeepsInv(s0, ops);
    assert RowAt(Run(s0, ops), id);
    UploadReopens(Run(s0, ops), id, user);
  }

  // ---- Counting arguments ----

  /** If no key occurs more than b times in a bag of keys, the bag holds at most |keys| * b of them. */
  lemma {:induction false} Pigeonhole<T>(bag: multiset<T>, keys: set<T>, b: nat)
    requires forall x :: x in bag ==> x in keys
    requires forall x <- keys :: bag[x] <= b
    ensures |bag| <= |keys| * b
    decreases |keys|
  {
    if keys == {} {
      assert bag == multiset{};
    } else {
      var x :| x in keys;
      Pigeonhole(bag[x := 0], keys - {x}, b);
      assert |keys| * b == |keys - {x}| * b + b;
    }
  }

  function Signers(ds: seq<Decision>): (r: seq<string>)
    ensures |r| == |ds|
  {
    seq(|ds|, n requires 0 <= n < |ds| => ds[n].decider)
  }

  function Approvers(ds: seq<Decision>, k: nat): set<string> {
    set d | d in Select(ds, ApprovalsOn(k)) :: d.decider
  }

  lemma {:induction false} ApprovalsByOne(ds: seq<Decision>, k: nat, user: string)
    ensures multiset(Signers(Select(ds, ApprovalsOn(k))))[user] <= |Select(ds, By(user, k))|
  {
    if ds != [] {
      var ini, d := ds[..|ds| - 1], ds[|ds| - 1];
      ApprovalsByOne(ini, k, user);
      assert ds == ini + [d];
      SelectAppend(ini, d, ApprovalsOn(k));
      SelectAppend(ini, d, By(user, k));
      var before := Select(ini, ApprovalsOn(k));
      if Matches(ApprovalsOn(k), d) {
        assert Signers(before + [d]) == Signers(before) + [d.decider];
      } else {
        assert before + [] == before;
      }
    }
  }

  lemma SignersAreApprovers(ds: seq<Decision>, k: nat, user: string)
    requires user in multiset(Signers(Select(ds, ApprovalsOn(k))))
    ensures user in Approvers(ds, k)
  {
    var approvals := Select(ds, ApprovalsOn(k));
    assert user in Signers(approvals);
    var n :| 0 <= n < |approvals| && Signers(approvals)[n] == user;
    assert approvals[n] in approvals;
  }

  /** The approvals of a step are at most its distinct approvers times the rounds they can each take part in. */
  lemma ApprovalsBoundedByApprovers(ds: seq<Decision>, vs: seq<nat>, now: nat, k: nat)
    requires Dated(ds, now) && Spaced(ds, vs)
    ensures |Select(ds, ApprovalsOn(k))| <= |Approvers(ds, k)| * (1 + UploadsAfterChangeRequest(ds, vs, now))
  {
    var bag := multiset(Signers(Select(ds, ApprovalsOn(k))));
    var b := 1 + UploadsAfterChangeRequest(ds, vs, now);
    forall x | x in bag
      ensures x in Approvers(ds, k)
    {
      SignersAreApprovers(ds, k, x);
    }
    forall x
      ensures bag[x] <= b
    {
      ApprovalsByOne(ds, k, x);
      DecisionsPerUserAndStep(ds, vs, now, x, k);
    }
    Pigeonhole(bag, Approvers(ds, k), b);
  }

  lemma {:induction false} NoChangeRequests(ds: seq<Decision>, vs: seq<nat>, now: nat)
    requires forall d <- ds :: d.kind != NeedsChanges
    ensures UploadsAfterChangeRequest(ds, vs, now) == 0
  {
    if ds != [] {
      NoChangeRequests(ds[..|ds| - 1], vs, now);
    }
  }

  lemma QuotaWasMet(users: map<string, User>, steps: seq<WorkflowStep>, i: Instance, k: nat)
    requires Reviewed(users, steps, i)
    requires k < Passed(i, steps) && steps[k].approvalRule == AllApprovers
    ensures Quota(users, steps[k]) <= |Select(i.decisions, ApprovalsOn(k))|
  {
    assert RuleMet(users, steps[k], k, i.decisions);
  }

  lemma QuotaNeedsApprovers(quota: nat, ds: seq<Decision>, vs: seq<nat>, now: nat, k: nat)
    requires Dated(ds, now) && Spaced(ds, vs)
    requires quota <= |Select(ds, ApprovalsOn(k))|
    ensures quota <= |Approvers(ds, k)| * (1 + UploadsAfterChangeRequest(ds, vs, now))
    ensures (forall d <- ds :: d.kind != NeedsChanges) ==> quota <= |Approvers(ds, k)|
  {
    ApprovalsBoundedByApprovers(ds, vs, now, k);
    if forall d <- ds :: d.kind != NeedsChanges {
      NoChangeRequests(ds, vs, now);
    }
  }

  /** The step's quota is at most its distinct approvers times the review rounds, and at most its
      distinct approvers alone when nobody asked for changes. */
  ghost predicate EnoughApprovers(s: Store, id: string, k: nat)
    requires Linked(s) && id in s.instances && k < |s.templates[s.instances[id].templateId]|
  {
    var i := s.instances[id];
    var quota := Quota(s.users, s.templates[i.templateId][k]);
    var rounds := 1 + UploadsAfterChangeRequest(i.decisions, s.proofs[i.proofId].versions, s.now);
    && quota <= |Approvers(i.decisions, k)| * rounds
    && ((forall d <- i.decisions :: d.kind != NeedsChanges) ==> quota <= |Approvers(i.decisions, k)|)
  }

  lemma QuotaFromRow(s: Store, id: string, k: nat)
    requires Linked(s) && id in s.instances && RowAt(s, id)
    requires var i := s.instances[id];
             var steps := s.templates[i.templateId];
             k < Passed(i, steps) && k < |steps| && steps[k].approvalRule == AllApprovers
    ensures EnoughApprovers(s, id, k)
  {
    hide Quota;
    hide Approvers;
    hide UploadsAfterChangeRequest;
    hide Replay;
    hide StatusesAgree;
    hide Signed;
    var i := s.instances[id];
    QuotaWasMet(s.users, s.templates[i.templateId], i, k);
    QuotaNeedsApprovers(Quota(s.users, s.templates[i.templateId][k]), i.decisions, s.proofs[i.proofId].versions,
                        s.now, k);
  }

  /** An all-approvers step is passed only with enough distinct approvers: at least the quota when nobody
      asked for changes, and otherwise at least the quota divided by the number of review rounds. */
  lemma AllStepHasDistinctApprovers(s0: Store, ops: seq<Op>, id: string, k: nat)
    requires Initial(s0) && id in Run(s0, ops).instances
    requires
      var s := Run(s0, ops);
      var i := s.instances[id];
      var steps := s.templates[i.templateId];
      k < Passed(i, steps) && k < |steps| && steps[k].approvalRule == AllApprovers
    ensures EnoughApprovers(Run(s0, ops), id, k)
  {
    RunKeepsInv(s0, ops);
    QuotaFromRow(Run(s0, ops), id, k);
  }

  // ---- A run cannot go on deciding without uploads ----

  function Column(users: set<string>, n: nat): set<(string, nat)> {
    set u | u in users :: (u, n)
  }

  function Pairs(users: set<string>, k: nat): set<(string, nat)> {
    set u, n: nat | u in users && n < k :: (u, n)
  }

  lemma {:induction false} ColumnSize(users: set<string>, n: nat)
    ensures |Column(users, n)| == |users|
  {
    if users != {} {
      var x :| x in users;
      ColumnSize(users - {x}, n);
      assert Column(users, n) == Column(users - {x}, n) + {(x, n)};
    }
  }

  lemma {:induction false} PairsSize(users: set<string>, k: nat)
    ensures |Pairs(users, k)| == |users| * k
  {
    if k == 0 {
      assert Pairs(users, 0) == {};
    } else {
      var column := Column(users, k - 1);
      PairsSize(users, k - 1);
      ColumnSize(users, k - 1);
      assert Pairs(users, k) == Pairs(users, k - 1) + column;
      assert Pairs(users, k - 1) !! column;
    }
  }

  function Places(ds: seq<Decision>): seq<(string, nat)> {
    if ds == [] then [] else Places(ds[..|ds| - 1]) + [(ds[|ds| - 1].decider, ds[|ds| - 1].stepIndex)]
  }

  lemma {:induction false} PlacesCount(ds: seq<Decision>, place: (string, nat))
    ensures |Places(ds)| == |ds|
    ensures multiset(Places(ds))[place] == |Select(ds, By(place.0, place.1))|
  {
    if ds != [] {
      PlacesCount(ds[..|ds| - 1], place);
      assert ds == ds[..|ds| - 1] + [ds[|ds| - 1]];
    }
  }

  /** Decisions on known steps by known users are at most as many as users, steps and rounds allow. */
  lemma SignedDecisionsAreBounded(users: map<string, User>, steps: seq<WorkflowStep>, ds: seq<Decision>, b: nat)
    requires Signed(users, steps, ds)
    requires forall user, k: nat :: |Select(ds, By(user, k))| <= b
    ensures |ds| <= |users| * |steps| * b
  {
    var keys := Pairs(users.Keys, |steps|);
    var bag := multiset(Places(ds));
    PlacesCount(ds, ("", 0));
    forall x | x in bag
      ensures x in keys
    {
      PlacesCount(ds, x);
      SelectMember(ds, By(x.0, x.1), Select(ds, By(x.0, x.1))[0]);
    }
    forall x | x in keys
      ensures bag[x] <= b
    {
      PlacesCount(ds, x);
    }
    Pigeonhole(bag, keys, b);
    PairsSize(users.Keys, |steps|);
  }

  lemma UploadsAfterAreUploads(ds: seq<Decision>, vs: seq<nat>, now: nat)
    ensures UploadsAfterChangeRequest(ds, vs, now) <= |vs|
  {
    var changes := Select(ds, ChangeRequests);
    if changes != [] {
      CountInBounds(vs, changes[0].at, now);
    }
  }

  /** No run records more decisions on one workflow than users * steps * (1 + the uploads made after the first
      change request). */
  lemma DecisionsAreBounded(s0: Store, ops: seq<Op>, id: string)
    requires Initial(s0) && id in Run(s0, ops).instances
    ensures
      var s := Run(s0, ops);
      var i := s.instances[id];
      var rounds := 1 + UploadsAfterChangeRequest(i.decisions, s.proofs[i.proofId].versions, s.now);
      && |i.decisions| <= |s.users| * |s.templates[i.templateId]| * rounds
      && rounds <= 1 + |s.proofs[i.proofId].versions|
  {
    RunKeepsInv(s0, ops);
    var s := Run(s0, ops);
    assert RowAt(s, id);
    var i := s.instances[id];
    var vs := s.proofs[i.proofId].versions;
    var rounds := 1 + UploadsAfterChangeRequest(i.decisions, vs, s.now);
    forall user, k: nat
      ensures |Select(i.decisions, By(user, k))| <= rounds
    {
      UserDecidesStepAtMost(s0, ops, id, user, k);
    }
    SignedDecisionsAreBounded(s.users, s.templates[i.templateId], i.decisions, rounds);
    UploadsAfterAreUploads(i.decisions, vs, s.now);
  }

  // ---- The audit trail and the closed states ----

  /** The audit trail alone determines the instance's status and step, and the proof's status follows them. */
  lemma TrailReproducesProgress(s0: Store, ops: seq<Op>, id: string)
    requires Initial(s0) && id in Run(s0, ops).instances
    ensures
      var s := Run(s0, ops);
      var i := s.instances[id];
      var trail, proof := Trail(s.audit, id), s.proofs[i.proofId].status;
      && Replay(trail) == At(i.status, i.stepIndex)
      && (i.status == Active <==> proof == InReview)
      && (i.status == Completed <==> proof == Approved)
      && (i.status == Cancelled ==>
            && trail != []
            && (proof == Rejected <==> trail[|trail| - 1].RejectedBy?)
            && (proof == Draft <==> trail[|trail| - 1].CancelledBy?))
  {
    RunKeepsInv(s0, ops);
    assert RowAt(Run(s0, ops), id);
  }

  /** The row `id`, its proof's status and its trail are the same in both stores. */
  ghost predicate SameRow(s: Store, t: Store, id: string)
    requires Linked(s) && id in s.instances
  {
    && id in t.instances && t.instances[id] == s.instances[id]
    && s.instances[id].proofId in t.proofs
    && t.proofs[s.instances[id].proofId].status == s.proofs[s.instances[id].proofId].status
    && Trail(t.audit, id) == Trail(s.audit, id)
  }

  lemma WriteKeepsOtherRows(s: Store, id: string, i: Instance, p: Proof, es: seq<AuditEvent>, other: string)
    requires Linked(s) && other in s.instances && other != id && s.instances[other].proofId != i.proofId
    requires forall e <- es :: e.instanceId == id
    ensures SameRow(s, WriteRow(s, id, i, p, es), other)
  {
    TrailOfOthers(s.audit, es, id, other);
  }

  lemma ClosedRowIsKept(s: Store, op: Op, id: string)
    requires Linked(s) && OneWorkflowPerProof(s) && id in s.instances && s.instances[id].status != Active
    ensures SameRow(s, Step(s, op), id)
  {
    match op
    case OpCreate(other, proofId, templateId) =>
      if CreateInstance(s, other, proofId, templateId).1.None? {
        WriteKeepsOtherRows(s, other, Instance(proofId, templateId, 0, Active, []),
                            s.proofs[proofId].(status := InReview), [InstanceEvent(other, Created)], id);
      }
    case OpDecide(userId, other, kind) =>
      if CanUserDecide(s, userId, other).MayDecide? {
        var i := s.instances[other];
        var c := Decided(s.users, s.templates[i.templateId], s.now, i, s.proofs[i.proofId], userId, kind);
        WriteKeepsOtherRows(s, other, c.instance, c.proof,
                            Events(other, Decision(i.stepIndex, kind, userId, s.now), c.action), id);
      }
    case OpCancel(other, actor) =>
      if CancelWorkflow(s, other, actor).1.None? {
        var i := s.instances[other];
        WriteKeepsOtherRows(s, other, i.(status := Cancelled), s.proofs[i.proofId].(status := Draft),
                            [InstanceEvent(other, CancelledBy(actor))], id);
      }
    case OpUpload(proofId) =>
    case OpTick(elapsed) =>
  }

  /** Completed and Cancelled are final: nothing that happens later changes the instance, its proof's
      status or its trail. */
  lemma {:induction false} ClosedIsFinal(s0: Store, ops: seq<Op>, later: seq<Op>, id: string)
    requires Initial(s0) && id in Run(s0, ops).instances && Run(s0, ops).instances[id].status != Active
    ensures
      var s, t := Run(s0, ops), Run(Run(s0, ops), later);
      Inv(t) && SameRow(s, t, id)
    decreases |later|
  {
    RunKeepsInv(s0, ops);
    if later != [] {
      ClosedIsFinal(s0, ops, later[..|later| - 1], id);
      var t := Run(Run(s0, ops), later[..|later| - 1]);
      ClosedRowIsKept(t, later[|later| - 1], id);
      StepKeepsInv(t, later[|later| - 1]);
    }
  }
}
