/** The AI job marketplace: a job table with a separate index of pending jobs. */
module Marketplace {
  import opened Basics

  datatype JobStatus = Pending | Matched | Running | Verifying | Completed | Failed | Disputed | Cancelled

  datatype Job = Job(id: string, status: JobStatus, submitter: string, worker: Option<string>,
                     outputHash: Option<string>, timeoutSeconds: nat, startedAt: Option<nat>, completedAt: Option<nat>)

  /** As the constructor leaves a job; its timeout may have been set since. */
  predicate IsNew(job: Job) {
    job.status == Pending && job.worker == job.outputHash == None && job.startedAt == job.completedAt == None
  }

  datatype Market = Market(jobs: map<string, Job>, pending: seq<string>)

  datatype Error = JobNotFound | InvalidJobState(actual: JobStatus) | OnlySubmitterCanCancel

  // ---- Operations ----

  function Submit(m: Market, job: Job): Market {
    Market(m.jobs[job.id := job], m.pending + [job.id])
  }

  /** Keep the ids other than `id`, in order. */
  function Without(ids: seq<string>, id: string): seq<string> {
    if ids == [] then []
    else
      var last := ids[|ids| - 1];
      Without(ids[..|ids| - 1], id) + if last == id then [] else [last]
  }

  function Claim(m: Market, id: string, worker: string, now: nat): (Market, Option<Error>) {
    if id !in m.jobs then (m, Some(JobNotFound)) else
    var job := m.jobs[id];
    if job.status != Pending then (m, Some(InvalidJobState(job.status))) else
    var claimed := job.(status := Matched, worker := Some(worker), startedAt := Some(now));
    (Market(m.jobs[id := claimed], Without(m.pending, id)), None)
  }

  function Start(m: Market, id: string): (Market, Option<Error>) {
    if id !in m.jobs then (m, Some(JobNotFound)) else
    var job := m.jobs[id];
    if job.status != Matched then (m, Some(InvalidJobState(job.status))) else
    (m.(jobs := m.jobs[id := job.(status := Running)]), None)
  }

  function Complete(m: Market, id: string, outputHash: string, now: nat): (Market, Option<Error>) {
    if id !in m.jobs then (m, Some(JobNotFound)) else
    var job := m.jobs[id];
    if job.status != Running then (m, Some(InvalidJobState(job.status))) else
    var delivered := job.(status := Verifying, outputHash := Some(outputHash), completedAt := Some(now));
    (m.(jobs := m.jobs[id := delivered]), None)
  }

  function Verify(m: Market, id: string, success: bool): (Market, Option<Error>) {
    if id !in m.jobs then (m, Some(JobNotFound)) else
    var job := m.jobs[id];
    if job.status != Verifying then (m, Some(InvalidJobState(job.status))) else
    (m.(jobs := m.jobs[id := job.(status := if success then Completed else Disputed)]), None)
  }

  function Cancel(m: Market, id: string, requester: string): (Market, Option<Error>) {
    if id !in m.jobs then (m, Some(JobNotFound)) else
    var job := m.jobs[id];
    if job.submitter != requester then (m, Some(OnlySubmitterCanCancel)) else
    if job.status != Pending then (m, Some(InvalidJobState(job.status))) else
    (Market(m.jobs[id := job.(status := Cancelled)], Without(m.pending, id)), None)
  }

  /** The clock is not behind the start of the job, so the 64-bit subtraction does not wrap. */
  predicate IsTimedOut(job: Job, now: nat) {
    job.startedAt.Some? && now - job.startedAt.value > job.timeoutSeconds
  }

  predicate Expires(job: Job, now: nat) {
    job.status == Running && IsTimedOut(job, now)
  }

  function ExpireJobs(m: Market, now: nat): Market {
    m.(jobs := map id | id in m.jobs :: if Expires(m.jobs[id], now) then m.jobs[id].(status := Failed) else m.jobs[id])
  }

  // ---- The marketplace as an object ----

  class Exchange {
    var jobs: map<string, Job>
    var pending: seq<string>

    function Contents(): Market
      reads this
    {
      Market(jobs, pending)
    }

    constructor ()
      ensures Contents() == Market(map[], [])
    {
      jobs, pending := map[], [];
    }

    method SubmitJob(job: Job) returns (id: string)
      modifies this
      ensures id == job.id && Contents() == Submit(old(Contents()), job)
    {
      id := job.id;
      pending := pending + [id];
      jobs := jobs[id := job];
    }

    method RemovePending(id: string)
      modifies `pending
      ensures pending == Without(old(pending), id)
    {
      var kept := [];
      for n := 0 to |pending|
        invariant pending == old(pending) && kept == Without(pending[..n], id)
      {
        assert pending[..n + 1][..n] == pending[..n];
        if pending[n] != id {
          kept := kept + [pending[n]];
        }
      }
      assert pending[..|pending|] == pending;
      pending := kept;
    }

    method ClaimJob(id: string, worker: string, now: nat) returns (error: Option<Error>)
      modifies this
      ensures (Contents(), error) == Claim(old(Contents()), id, worker, now)
    {
      if id !in jobs {
        return Some(JobNotFound);
      }
      if jobs[id].status != Pending {
        return Some(InvalidJobState(jobs[id].status));
      }
      jobs := jobs[id := jobs[id].(status := Matched, worker := Some(worker), startedAt := Some(now))];
      RemovePending(id);
      return None;
    }

    method StartJob(id: string) returns (error: Option<Error>)
      modifies this
      ensures (Contents(), error) == Start(old(Contents()), id)
    {
      if id !in jobs {
        return Some(JobNotFound);
      }
      if jobs[id].status != Matched {
        return Some(InvalidJobState(jobs[id].status));
      }
      jobs := jobs[id := jobs[id].(status := Running)];
      return None;
    }

    method CompleteJob(id: string, outputHash: string, now: nat) returns (error: Option<Error>)
      modifies this
      ensures (Contents(), error) == Complete(old(Contents()), id, outputHash, now)
    {
      if id !in jobs {
        return Some(JobNotFound);
      }
      if jobs[id].status != Running {
        return Some(InvalidJobState(jobs[id].status));
      }
      jobs := jobs[id := jobs[id].(status := Verifying, outputHash := Some(outputHash), completedAt := Some(now))];
      return None;
    }

    method VerifyJob(id: string, success: bool) returns (error: Option<Error>)
      modifies this
      ensures (Contents(), error) == Verify(old(Contents()), id, success)
    {
      if id !in jobs {
        return Some(JobNotFound);
      }
      if jobs[id].status != Verifying {
        return Some(InvalidJobState(jobs[id].status));
      }
      jobs := jobs[id := jobs[id].(status := if success then Completed else Disputed)];
      return None;
    }

    method CancelJob(id: string, requester: string) returns (error: Option<Error>)
      modifies this
      ensures (Contents(), error) == Cancel(old(Contents()), id, requester)
    {
      if id !in jobs {
        return Some(JobNotFound);
      }
      if jobs[id].submitter != requester {
        return Some(OnlySubmitterCanCancel);
      }
      if jobs[id].status != Pending {
        return Some(InvalidJobState(jobs[id].status));
      }
      jobs := jobs[id := jobs[id].(status := Cancelled)];
      RemovePending(id);
      return None;
    }

    /** The order of the result is that of the table's iteration, which is not specified. */
    method CheckTimeouts(now: nat) returns (timedOut: seq<string>)
      requires forall id <- jobs :: jobs[id].id == id
      modifies this
      ensures Contents() == ExpireJobs(old(Contents()), now)
      ensures forall id :: id in timedOut <==> id in old(jobs) && Expires(old(jobs)[id], now)
      ensures forall m, n :: 0 <= m < n < |timedOut| ==> timedOut[m] != timedOut[n]
    {
      timedOut := [];
      var keys := jobs.Keys;
      while keys != {}
        invariant keys <= jobs.Keys && jobs.Keys == old(jobs).Keys && pending == old(pending)
        invariant forall id <- keys :: jobs[id] == old(jobs)[id]
        invariant forall id <- jobs :: id !in keys ==>
                    jobs[id] == if Expires(old(jobs)[id], now) then old(jobs)[id].(status := Failed) else old(jobs)[id]
        invariant forall id :: id in timedOut <==> id in old(jobs) && id !in keys && Expires(old(jobs)[id], now)
        invariant forall m, n :: 0 <= m < n < |timedOut| ==> timedOut[m] != timedOut[n]
        decreases keys
      {
        var id :| id in keys;
        if Expires(jobs[id], now) {
          timedOut := timedOut + [jobs[id].id];
          jobs := jobs[id := jobs[id].(status := Failed)];
        }
        keys := keys - {id};
      }
    }
  }

  // ---- Runs ----

  datatype Op =
    | OpSubmit(job: Job)
    | OpClaim(id: string, worker: string)
    | OpStart(id: string)
    | OpComplete(id: string, outputHash: string)
    | OpVerify(id: string, success: bool)
    | OpCancel(id: string, requester: string)
    | OpTimeouts
    | OpTick(elapsed: nat)

  datatype World = World(market: Market, now: nat)

  function Step(w: World, op: Op): World {
    match op
    case OpSubmit(job) => w.(market := Submit(w.market, job))
    case OpClaim(id, worker) => w.(market := Claim(w.market, id, worker, w.now).0)
    case OpStart(id) => w.(market := Start(w.market, id).0)
    case OpComplete(id, h) => w.(market := Complete(w.market, id, h, w.now).0)
    case OpVerify(id, success) => w.(market := Verify(w.market, id, success).0)
    case OpCancel(id, requester) => w.(market := Cancel(w.market, id, requester).0)
    case OpTimeouts => w.(market := ExpireJobs(w.market, w.now))
    case OpTick(elapsed) => w.(now := w.now + elapsed)
  }

  function Run(w: World, ops: seq<Op>): World {
    if ops == [] then w else Step(Run(w, ops[..|ops| - 1]), ops[|ops| - 1])
  }

  /** The ids submitted so far, oldest first. */
  function Submitted(ops: seq<Op>): seq<string> {
    if ops == [] then []
    else
      var op := ops[|ops| - 1];
      Submitted(ops[..|ops| - 1]) + if op.OpSubmit? then [op.job.id] else []
  }

  /** Every submitted job is new, under an id not submitted before. */
  ghost predicate FreshSubmissions(ops: seq<Op>) {
    && (forall n :: 0 <= n < |ops| && ops[n].OpSubmit? ==> IsNew(ops[n].job))
    && (forall m, n :: 0 <= m < n < |ops| && ops[m].OpSubmit? && ops[n].OpSubmit? ==> ops[m].job.id != ops[n].job.id)
  }

  // ---- The pending index ----

  predicate IsPending(m: Market, id: string) {
    id in m.jobs && m.jobs[id].status == Pending
  }

  function PendingAmong(m: Market, ids: seq<string>): seq<string> {
    if ids == [] then []
    else
      var last := ids[|ids| - 1];
      PendingAmong(m, ids[..|ids| - 1]) + if IsPending(m, last) then [last] else []
  }

  /** The pending list is the submitted ids that are still pending, in submission order. */
  ghost predicate IndexOk(m: Market, submitted: seq<string>) {
    m.pending == PendingAmong(m, submitted)
  }

  ghost predicate Distinct(ids: seq<string>) {
    forall a, b :: 0 <= a < b < |ids| ==> ids[a] != ids[b]
  }

  lemma {:induction false} SamePending(m: Market, n: Market, ids: seq<string>)
    requires forall id <- ids :: IsPending(m, id) == IsPending(n, id)
    ensures PendingAmong(m, ids) == PendingAmong(n, ids)
  {
    if ids != [] {
      SamePending(m, n, ids[..|ids| - 1]);
    }
  }

  lemma WithoutAppend(ids: seq<string>, last: string, id: string)
    ensures Without(ids + [last], id) == Without(ids, id) + if last == id then [] else [last]
  {
    assert (ids + [last])[..|ids|] == ids;
  }

  /** Taking one id out of the pending state takes exactly it out of the list. */
  lemma {:induction false} LeavesPending(m: Market, n: Market, ids: seq<string>, id: string)
    requires forall x <- ids :: x != id ==> IsPending(m, x) == IsPending(n, x)
    requires !IsPending(n, id)
    ensures PendingAmong(n, ids) == Without(PendingAmong(m, ids), id)
  {
    if ids != [] {
      var ini, last := ids[..|ids| - 1], ids[|ids| - 1];
      LeavesPending(m, n, ini, id);
      WithoutAppend(PendingAmong(m, ini), last, id);
      assert PendingAmong(m, ini) + [] == PendingAmong(m, ini);
    }
  }

  /** The list names exactly the pending jobs, once each. */
  ghost predicate IndexIsExact(m: Market) {
    Distinct(m.pending) && forall id :: id in m.pending <==> IsPending(m, id)
  }

  /** A submission keeps a sound index sound exactly when the job is pending and not listed yet. */
  lemma SubmitKeepsIndexIff(m: Market, job: Job)
    requires IndexIsExact(m)
    ensures IndexIsExact(Submit(m, job)) <==> job.status == Pending && job.id !in m.pending
  {
    var n := Submit(m, job);
    assert job.id in n.pending;
    if job.id in m.pending {
      var k :| 0 <= k < |m.pending| && m.pending[k] == job.id;
      assert n.pending[k] == n.pending[|m.pending|];
    } else if job.status == Pending {
      forall id
        ensures id in n.pending <==> IsPending(n, id)
      {
        assert id in n.pending <==> id in m.pending || id == job.id;
      }
    }
  }

  lemma {:induction false} WithoutMembers(ids: seq<string>, id: string)
    ensures forall x :: x in Without(ids, id) <==> x in ids && x != id
    ensures Distinct(ids) ==> Distinct(Without(ids, id))
  {
    if ids != [] {
      var ini, last := ids[..|ids| - 1], ids[|ids| - 1];
      WithoutMembers(ini, id);
      assert ids == ini + [last];
      WithoutAppend(ini, last, id);
      hide Without;
      if Distinct(ids) {
        assert last !in ini;
        assert Distinct(Without(ini, id) + [last]);
      }
    }
  }

  lemma UnlistKeepsExact(m: Market, n: Market, id: string)
    requires IndexIsExact(m) && n.pending == Without(m.pending, id)
    requires !IsPending(n, id) && forall x :: x != id ==> IsPending(n, x) == IsPending(m, x)
    ensures IndexIsExact(n)
  {
    WithoutMembers(m.pending, id);
  }

  lemma SameKeepsExact(m: Market, n: Market)
    requires IndexIsExact(m) && n.pending == m.pending && forall x :: IsPending(n, x) == IsPending(m, x)
    ensures IndexIsExact(n)
  {
  }

  /** In any market, every operation but a submission keeps an exact index exact. */
  lemma OthersKeepIndex(w: World, op: Op)
    requires IndexIsExact(w.market) && !op.OpSubmit?
    ensures IndexIsExact(Step(w, op).market)
  {
    var m, n := w.market, Step(w, op).market;
    hide IndexIsExact;
    hide Without;
    match op
    case OpClaim(id, _) => if n != m { UnlistKeepsExact(m, n, id); }
    case OpCancel(id, _) => if n != m { UnlistKeepsExact(m, n, id); }
    case OpStart(_) => SameKeepsExact(m, n);
    case OpComplete(_, _) => SameKeepsExact(m, n);
    case OpVerify(_, _) => SameKeepsExact(m, n);
    case OpTimeouts => SameKeepsExact(m, n);
    case OpTick(_) =>
  }

  /** Each submission hands over a pending job that is not listed at that moment. */
  ghost predicate SubmitsUnlisted(w: World, ops: seq<Op>) {
    forall n :: 0 <= n < |ops| && ops[n].OpSubmit? ==>
      ops[n].job.status == Pending && ops[n].job.id !in Run(w, ops[..n]).market.pending
  }

  ghost predicate AlwaysExact(w: World, ops: seq<Op>) {
    forall n :: 0 <= n <= |ops| ==> IndexIsExact(Run(w, ops[..n]).market)
  }

  lemma AlwaysExactSplits(w: World, ops: seq<Op>)
    requires ops != []
    ensures AlwaysExact(w, ops) <==> AlwaysExact(w, ops[..|ops| - 1]) && IndexIsExact(Run(w, ops).market)
  {
    hide IndexIsExact;
    hide Run;
    var ini := ops[..|ops| - 1];
    assert ops[..|ops|] == ops;
    assert forall n :: 0 <= n <= |ini| ==> ini[..n] == ops[..n];
    if AlwaysExact(w, ini) && IndexIsExact(Run(w, ops).market) {
      forall n | 0 <= n <= |ops|
        ensures IndexIsExact(Run(w, ops[..n]).market)
      {
        assert n < |ops| ==> ini[..n] == ops[..n];
      }
    }
  }

  lemma SubmitsUnlistedSplits(w: World, ops: seq<Op>)
    requires ops != []
    ensures
      var op := ops[|ops| - 1];
      var w1 := Run(w, ops[..|ops| - 1]);
      SubmitsUnlisted(w, ops) <==>
        && SubmitsUnlisted(w, ops[..|ops| - 1])
        && (op.OpSubmit? ==> op.job.status == Pending && op.job.id !in w1.market.pending)
  {
    hide Run;
    var ini := ops[..|ops| - 1];
    assert forall n :: 0 <= n < |ini| ==> ini[..n] == ops[..n] && ini[n] == ops[n];
  }

  /** For any run from any market with an exact index: the index is exact at every moment if and only if every
      submission hands over a pending job that is not listed at that moment. */
  lemma {:induction false} AlwaysExactIff(w: World, ops: seq<Op>)
    requires IndexIsExact(w.market)
    ensures AlwaysExact(w, ops) <==> SubmitsUnlisted(w, ops)
  {
    if ops != [] {
      var ini, op := ops[..|ops| - 1], ops[|ops| - 1];
      AlwaysExactIff(w, ini);
      AlwaysExactSplits(w, ops);
      SubmitsUnlistedSplits(w, ops);
      var w1 := Run(w, ini);
      assert AlwaysExact(w, ini) ==> IndexIsExact(w1.market) by {
        assert ini[..|ini|] == ini;
      }
      hide AlwaysExact;
      hide SubmitsUnlisted;
      hide IndexIsExact;
      if IndexIsExact(w1.market) {
        if op.OpSubmit? {
          SubmitKeepsIndexIff(w1.market, op.job);
        } else {
          OthersKeepIndex(w1, op);
        }
      }
    }
  }

  // ---- The life of one job ----

  function Rank(status: JobStatus): nat {
    match status
    case Pending => 0
    case Matched => 1
    case Running => 2
    case Verifying => 3
    case Completed => 4
    case Disputed => 4
    case Failed => 3
    case Cancelled => 1
  }

  predicate IsTerminal(status: JobStatus) {
    status in {Completed, Failed, Disputed, Cancelled}
  }

  /** The status decides which of the optional fields are set. */
  ghost predicate FieldsOk(job: Job, id: string, now: nat) {
    var claimed := job.status != Pending && job.status != Cancelled;
    var delivered := job.status in {Verifying, Completed, Disputed};
    && job.id == id
    && job.worker.Some? == job.startedAt.Some? == claimed
    && job.outputHash.Some? == job.completedAt.Some? == delivered
    && (claimed ==> job.startedAt.value <= now)
    && (delivered ==> job.startedAt.value <= job.completedAt.value <= now)
  }

  ghost predicate Inv(w: World, submitted: seq<string>) {
    && Distinct(submitted) && IndexOk(w.market, submitted)
    && (forall id :: id in w.market.jobs <==> id in submitted)
    && (forall id <- w.market.jobs :: FieldsOk(w.market.jobs[id], id, w.now))
  }

  /** What one step may do to a job: leave it, or move a job that is not terminal up one rank, setting the
      worker only on a match and the output only on delivery. */
  ghost predicate Advances(before: Job, after: Job) {
    after == before ||
    (&& !IsTerminal(before.status) && Rank(after.status) == Rank(before.status) + 1
     && after.id == before.id && after.submitter == before.submitter && after.timeoutSeconds == before.timeoutSeconds
     && (after.status != Matched ==> after.worker == before.worker && after.startedAt == before.startedAt)
     && (after.status != Verifying ==>
           after.outputHash == before.outputHash && after.completedAt == before.completedAt))
  }

  lemma StepAdvancesJobs(w: World, op: Op, id: string)
    requires id in w.market.jobs
    requires op.OpSubmit? ==> op.job.id != id
    ensures id in Step(w, op).market.jobs && Advances(w.market.jobs[id], Step(w, op).market.jobs[id])
  {
  }

  lemma StepKeepsFields(w: World, op: Op, id: string)
    requires forall x <- w.market.jobs :: FieldsOk(w.market.jobs[x], x, w.now)
    requires op.OpSubmit? ==> IsNew(op.job)
    requires id in Step(w, op).market.jobs
    ensures FieldsOk(Step(w, op).market.jobs[id], id, Step(w, op).now)
  {
    hide Without;
  }

  /** A row that left the pending state was removed from the list. */
  lemma RewriteKeepsIndex(m: Market, n: Market, submitted: seq<string>, id: string)
    requires IndexOk(m, submitted) && id in m.jobs && n.jobs.Keys == m.jobs.Keys
    requires forall x <- m.jobs :: x != id ==> n.jobs[x] == m.jobs[x]
    requires n.jobs[id].status != Pending
    requires n.pending == Without(m.pending, id) || (m.jobs[id].status != Pending && n.pending == m.pending)
    ensures IndexOk(n, submitted)
  {
    hide Without;
    LeavesPending(m, n, submitted, id);
    if m.jobs[id].status != Pending && n.pending == m.pending {
      SamePending(m, n, submitted);
    }
  }

  lemma SubmitKeepsIndex(m: Market, job: Job, submitted: seq<string>)
    requires IndexOk(m, submitted) && job.status == Pending && job.id !in submitted
    ensures IndexOk(Submit(m, job), submitted + [job.id])
  {
    var n := Submit(m, job);
    SamePending(m, n, submitted);
    assert (submitted + [job.id])[..|submitted|] == submitted;
  }

  lemma TimeoutsKeepIndex(m: Market, now: nat, submitted: seq<string>)
    requires IndexOk(m, submitted)
    ensures IndexOk(ExpireJobs(m, now), submitted)
  {
    SamePending(m, ExpireJobs(m, now), submitted);
  }

  lemma StepKeepsIndex(w: World, op: Op, submitted: seq<string>)
    requires IndexOk(w.market, submitted)
    requires op.OpSubmit? ==> op.job.status == Pending && op.job.id !in submitted
    ensures IndexOk(Step(w, op).market, if op.OpSubmit? then submitted + [op.job.id] else submitted)
  {
    var m, n := w.market, Step(w, op).market;
    hide IndexOk;
    hide Without;
    match op
    case OpSubmit(job) => SubmitKeepsIndex(m, job, submitted);
    case OpTimeouts => TimeoutsKeepIndex(m, w.now, submitted);
    case OpTick(_) =>
    case OpClaim(id, _) => if n != m { RewriteKeepsIndex(m, n, submitted, id); }
    case OpStart(id) => if n != m { RewriteKeepsIndex(m, n, submitted, id); }
    case OpComplete(id, _) => if n != m { RewriteKeepsIndex(m, n, submitted, id); }
    case OpVerify(id, _) => if n != m { RewriteKeepsIndex(m, n, submitted, id); }
    case OpCancel(id, _) => if n != m { RewriteKeepsIndex(m, n, submitted, id); }
  }

  lemma StepKeepsInv(w: World, op: Op, submitted: seq<string>)
    requires Inv(w, submitted)
    requires op.OpSubmit? ==> IsNew(op.job) && op.job.id !in submitted
    ensures Inv(Step(w, op), if op.OpSubmit? then submitted + [op.job.id] else submitted)
  {
    hide IndexOk;
    StepKeepsIndex(w, op, submitted);
    hide FieldsOk;
    hide Without;
    forall id | id in Step(w, op).market.jobs
      ensures FieldsOk(Step(w, op).market.jobs[id], id, Step(w, op).now)
    {
      StepKeepsFields(w, op, id);
    }
  }

  lemma {:induction false} NeverSubmitted(ops: seq<Op>, id: string)
    requires forall n :: 0 <= n < |ops| && ops[n].OpSubmit? ==> ops[n].job.id != id
    ensures id !in Submitted(ops)
  {
    if ops != [] {
      NeverSubmitted(ops[..|ops| - 1], id);
    }
  }

  lemma LastIsFresh(ops: seq<Op>)
    requires FreshSubmissions(ops) && ops != []
    ensures FreshSubmissions(ops[..|ops| - 1])
    ensures var op := ops[|ops| - 1];
            op.OpSubmit? ==> IsNew(op.job) && op.job.id !in Submitted(ops[..|ops| - 1])
  {
    if ops[|ops| - 1].OpSubmit? {
      NeverSubmitted(ops[..|ops| - 1], ops[|ops| - 1].job.id);
    }
  }

  lemma {:induction false} RunKeepsInv(ops: seq<Op>, now: nat)
    requires FreshSubmissions(ops)
    ensures Inv(Run(World(Market(map[], []), now), ops), Submitted(ops))
  {
    if ops != [] {
      var before, op := ops[..|ops| - 1], ops[|ops| - 1];
      LastIsFresh(ops);
      RunKeepsInv(before, now);
      hide Inv;
      hide Step;
      hide FreshSubmissions;
      assert Submitted(before) + [] == Submitted(before);
      StepKeepsInv(Run(World(Market(map[], []), now), before), op, Submitted(before));
    }
  }

  /** In every run with fresh submissions: the pending list holds exactly the pending jobs, once each and in
      the order they were submitted, and every job's fields agree with its status. */
  lemma IndexAgreesWithJobs(ops: seq<Op>, now: nat)
    requires FreshSubmissions(ops)
    ensures
      var w := Run(World(Market(map[], []), now), ops);
      && w.market.pending == PendingAmong(w.market, Submitted(ops))
      && IndexIsExact(w.market)
      && forall id <- w.market.jobs :: FieldsOk(w.market.jobs[id], id, w.now)
  {
    RunKeepsInv(ops, now);
    hide Run;
    PendingAmongExact(Run(World(Market(map[], []), now), ops).market, Submitted(ops));
  }

  lemma {:induction false} PendingAmongExact(m: Market, ids: seq<string>)
    requires Distinct(ids)
    ensures Distinct(PendingAmong(m, ids))
    ensures forall id :: id in PendingAmong(m, ids) <==> id in ids && IsPending(m, id)
  {
    if ids != [] {
      var ini, last := ids[..|ids| - 1], ids[|ids| - 1];
      PendingAmongExact(m, ini);
      assert ids == ini + [last];
    }
  }

  /** How often the status of a job changed during a run. */
  function Changes(w: World, ops: seq<Op>, id: string): nat {
    if ops == [] then 0
    else
      var before := Run(w, ops[..|ops| - 1]);
      var after := Step(before, ops[|ops| - 1]);
      Changes(w, ops[..|ops| - 1], id) +
      if id in before.market.jobs && id in after.market.jobs
         && before.market.jobs[id].status != after.market.jobs[id].status then 1 else 0
  }

  /** The id is submitted at most once, with a pending job. */
  ghost predicate SubmittedOnce(ops: seq<Op>, id: string) {
    && (forall n :: 0 <= n < |ops| && ops[n].OpSubmit? && ops[n].job.id == id ==> ops[n].job.status == Pending)
    && (forall m, n :: 0 <= m < n < |ops| && ops[m].OpSubmit? && ops[n].OpSubmit? && ops[m].job.id == id ==>
          ops[n].job.id != id)
  }

  ghost predicate Submits(ops: seq<Op>, id: string) {
    exists n :: 0 <= n < |ops| && ops[n].OpSubmit? && ops[n].job.id == id
  }

  lemma {:induction false} JobsWereSubmitted(ops: seq<Op>, now: nat, id: string)
    ensures id in Run(World(Market(map[], []), now), ops).market.jobs ==> Submits(ops, id)
  {
    if ops != [] {
      var before := ops[..|ops| - 1];
      JobsWereSubmitted(before, now, id);
      hide Without;
      if Submits(before, id) {
        var n :| 0 <= n < |before| && before[n].OpSubmit? && before[n].job.id == id;
        assert ops[n] == before[n];
      }
    }
  }

  /** The status of a job that is submitted once changes exactly as often as its rank says, so at most four
      times, whatever happens to other jobs. */
  lemma {:induction false} ChangesAreRank(ops: seq<Op>, now: nat, id: string)
    requires SubmittedOnce(ops, id)
    ensures
      var w0 := World(Market(map[], []), now);
      var w := Run(w0, ops);
      && (id in w.market.jobs ==> Changes(w0, ops, id) == Rank(w.market.jobs[id].status) <= 4)
      && (id !in w.market.jobs ==> Changes(w0, ops, id) == 0)
  {
    var w0 := World(Market(map[], []), now);
    if ops != [] {
      var before, op := ops[..|ops| - 1], ops[|ops| - 1];
      ChangesAreRank(before, now, id);
      JobsWereSubmitted(before, now, id);
      var w := Run(w0, before);
      if id in w.market.jobs {
        StepAdvancesJobs(w, op, id);
        hide Step;
      }
    }
  }

  /** Once a job is completed, failed, disputed or cancelled, nothing changes it but a submission of its id. */
  lemma {:induction false} TerminalIsFinal(w: World, ops: seq<Op>, id: string)
    requires id in w.market.jobs && IsTerminal(w.market.jobs[id].status) && !Submits(ops, id)
    ensures id in Run(w, ops).market.jobs && Run(w, ops).market.jobs[id] == w.market.jobs[id]
  {
    if ops != [] {
      var before := ops[..|ops| - 1];
      assert forall n :: 0 <= n < |before| ==> before[n] == ops[n];
      TerminalIsFinal(w, before, id);
      StepAdvancesJobs(Run(w, before), ops[|ops| - 1], id);
      hide Step;
    }
  }
}
