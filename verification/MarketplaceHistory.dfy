/** What a job's fields say about the calls that were made: every run accounts for every field it has set. */
module MarketplaceHistory {
  import opened Basics
  import opened Marketplace

  // ---- When a call is accepted ----

  /** Each call is accepted exactly in one status of the job, and a cancellation only from the submitter; a
      refused call says why and changes nothing. */
  lemma AcceptedIff(m: Market, id: string, worker: string, hash: string, success: bool, requester: string, now: nat)
    ensures
      var claim, start, complete := Claim(m, id, worker, now), Start(m, id), Complete(m, id, hash, now);
      var verify, cancel := Verify(m, id, success), Cancel(m, id, requester);
      if id !in m.jobs then
        claim == start == complete == verify == cancel == (m, Some(JobNotFound))
      else
        var job := m.jobs[id];
        var wrong := (m, Some(InvalidJobState(job.status)));
        && (if job.status == Pending then claim.1 == None else claim == wrong)
        && (if job.status == Matched then start.1 == None else start == wrong)
        && (if job.status == Running then complete.1 == None else complete == wrong)
        && (if job.status == Verifying then verify.1 == None else verify == wrong)
        && (if job.submitter != requester then cancel == (m, Some(OnlySubmitterCanCancel))
            else if job.status == Pending then cancel.1 == None
            else cancel == wrong)
  {
    hide Without;
  }

  /** After a timeout check no running job is overdue, and jobs that were not running stay as they were. */
  lemma NoJobIsOverdue(m: Market, now: nat, id: string)
    requires id in m.jobs
    ensures id in ExpireJobs(m, now).jobs
    ensures
      var job := ExpireJobs(m, now).jobs[id];
      && (job.status == Running && job.startedAt.Some? ==> now <= job.startedAt.value + job.timeoutSeconds)
      && (m.jobs[id].status != Running ==> job == m.jobs[id])
  {
  }

  // ---- Where the fields of a job come from ----

  ghost predicate Happens(ops: seq<Op>, op: Op) {
    exists n :: 0 <= n < |ops| && ops[n] == op
  }

  /** The operation happens in the run when the clock shows this time. */
  ghost predicate HappensAt(w: World, ops: seq<Op>, op: Op, time: nat) {
    exists n :: 0 <= n < |ops| && ops[n] == op && Run(w, ops[..n]).now == time
  }

  /** A timeout check happens in the run at a time when the job is overdue. */
  ghost predicate Expired(w: World, ops: seq<Op>, job: Job) {
    exists n :: 0 <= n < |ops| && ops[n] == OpTimeouts && job.startedAt.Some?
                && job.startedAt.value + job.timeoutSeconds < Run(w, ops[..n]).now
  }

  ghost predicate WasSubmitted(ops: seq<Op>, job: Job) {
    exists n :: 0 <= n < |ops| && ops[n].OpSubmit? && ops[n].job.id == job.id
                && ops[n].job.submitter == job.submitter && ops[n].job.timeoutSeconds == job.timeoutSeconds
  }

  predicate WasStarted(job: Job) {
    job.status != Pending && job.status != Matched && job.status != Cancelled
  }

  /** The calls of the run account for the job's fields. */
  ghost predicate Accounted(w: World, ops: seq<Op>, job: Job) {
    && WasSubmitted(ops, job)
    && (WasStarted(job) ==> Happens(ops, OpStart(job.id)))
    && (job.status == Completed ==> Happens(ops, OpVerify(job.id, true)))
    && (job.status == Disputed ==> Happens(ops, OpVerify(job.id, false)))
    && (job.status == Cancelled ==> Happens(ops, OpCancel(job.id, job.submitter)))
    && (job.status == Failed ==> Expired(w, ops, job))
    && (job.worker.Some? ==>
          job.startedAt.Some? && HappensAt(w, ops, OpClaim(job.id, job.worker.value), job.startedAt.value))
    && (job.outputHash.Some? ==>
          job.completedAt.Some? && HappensAt(w, ops, OpComplete(job.id, job.outputHash.value), job.completedAt.value))
    && (job.startedAt.Some? ==> job.worker.Some?)
  }

  lemma HappensLater(ops: seq<Op>, last: Op, op: Op)
    requires Happens(ops, op) || op == last
    ensures Happens(ops + [last], op)
  {
    if Happens(ops, op) {
      var n :| 0 <= n < |ops| && ops[n] == op;
      assert (ops + [last])[n] == op;
    } else {
      assert (ops + [last])[|ops|] == op;
    }
  }

  lemma HappensAtLater(w: World, ops: seq<Op>, last: Op, op: Op, time: nat)
    requires HappensAt(w, ops, op, time) || (op == last && Run(w, ops).now == time)
    ensures HappensAt(w, ops + [last], op, time)
  {
    hide Run;
    if HappensAt(w, ops, op, time) {
      var n :| 0 <= n < |ops| && ops[n] == op && Run(w, ops[..n]).now == time;
      assert (ops + [last])[n] == op && (ops + [last])[..n] == ops[..n];
    } else {
      assert (ops + [last])[|ops|] == op && (ops + [last])[..|ops|] == ops;
    }
  }

  lemma ExpiredLater(w: World, ops: seq<Op>, last: Op, before: Job, job: Job)
    requires job.startedAt == before.startedAt && job.timeoutSeconds == before.timeoutSeconds
    requires || Expired(w, ops, before)
             || (last == OpTimeouts && job.startedAt.Some?
                 && job.startedAt.value + job.timeoutSeconds < Run(w, ops).now)
    ensures Expired(w, ops + [last], job)
  {
    hide Run;
    if Expired(w, ops, before) {
      var n :| 0 <= n < |ops| && ops[n] == OpTimeouts
               && job.startedAt.value + job.timeoutSeconds < Run(w, ops[..n]).now;
      assert (ops + [last])[n] == ops[n] && (ops + [last])[..n] == ops[..n];
    } else {
      assert (ops + [last])[|ops|] == last && (ops + [last])[..|ops|] == ops;
    }
  }

  lemma SubmittedLater(ops: seq<Op>, last: Op, before: Job, job: Job)
    requires WasSubmitted(ops, before)
    requires job.id == before.id && job.submitter == before.submitter && job.timeoutSeconds == before.timeoutSeconds
    ensures WasSubmitted(ops + [last], job)
  {
    var n :| 0 <= n < |ops| && ops[n].OpSubmit? && ops[n].job.id == job.id
             && ops[n].job.submitter == job.submitter && ops[n].job.timeoutSeconds == job.timeoutSeconds;
    assert (ops + [last])[n] == ops[n];
  }

  /** How one call at time `now` may change a job. */
  ghost predicate Changed(op: Op, now: nat, before: Job, after: Job) {
    || after == before
    || (exists worker :: op == OpClaim(before.id, worker) && before.status == Pending
                         && after == before.(status := Matched, worker := Some(worker), startedAt := Some(now)))
    || (op == OpStart(before.id) && before.status == Matched && after == before.(status := Running))
    || (exists hash :: op == OpComplete(before.id, hash) && before.status == Running
                       && after == before.(status := Verifying, outputHash := Some(hash), completedAt := Some(now)))
    || (op == OpVerify(before.id, true) && before.status == Verifying && after == before.(status := Completed))
    || (op == OpVerify(before.id, false) && before.status == Verifying && after == before.(status := Disputed))
    || (op == OpCancel(before.id, before.submitter) && before.status == Pending
        && after == before.(status := Cancelled))
    || (op == OpTimeouts && before.status == Running && before.startedAt.Some?
        && before.startedAt.value + before.timeoutSeconds < now && after == before.(status := Failed))
  }

  lemma StepChanges(w: World, op: Op, id: string)
    requires id in w.market.jobs && w.market.jobs[id].id == id && !(op.OpSubmit? && op.job.id == id)
    ensures id in Step(w, op).market.jobs && Changed(op, w.now, w.market.jobs[id], Step(w, op).market.jobs[id])
  {
    hide Without;
  }

  /** A change that is accounted for leaves the job accounted for. */
  lemma ChangeIsAccounted(w: World, ops: seq<Op>, op: Op, before: Job, after: Job)
    requires Accounted(w, ops, before) && Changed(op, Run(w, ops).now, before, after)
    ensures Accounted(w, ops + [op], after)
  {
    hide Run;
    hide Happens;
    hide HappensAt;
    hide Expired;
    hide WasSubmitted;
    SubmittedLater(ops, op, before, after);
    if WasStarted(after) {
      HappensLater(ops, op, OpStart(after.id));
    }
    if after.status == Completed {
      HappensLater(ops, op, OpVerify(after.id, true));
    }
    if after.status == Disputed {
      HappensLater(ops, op, OpVerify(after.id, false));
    }
    if after.status == Cancelled {
      HappensLater(ops, op, OpCancel(after.id, after.submitter));
    }
    if after.status == Failed {
      ExpiredLater(w, ops, op, before, after);
    }
    if after.worker.Some? {
      HappensAtLater(w, ops, op, OpClaim(after.id, after.worker.value), after.startedAt.value);
    }
    if after.outputHash.Some? {
      HappensAtLater(w, ops, op, OpComplete(after.id, after.outputHash.value), after.completedAt.value);
    }
  }

  ghost predicate NewJobs(ops: seq<Op>) {
    forall n :: 0 <= n < |ops| && ops[n].OpSubmit? ==> IsNew(ops[n].job)
  }

  lemma SubmissionIsAccounted(w: World, ops: seq<Op>, job: Job)
    requires IsNew(job)
    ensures Accounted(w, ops + [OpSubmit(job)], job)
  {
    assert (ops + [OpSubmit(job)])[|ops|] == OpSubmit(job);
  }

  lemma NewIds(w: World, op: Op, id: string)
    requires id in Step(w, op).market.jobs && !(op.OpSubmit? && op.job.id == id)
    ensures id in w.market.jobs
  {
    hide Without;
  }

  /** In every run whose submitted jobs are new: a completed job was verified with success and a disputed one
      without; a cancelled one was cancelled by its submitter; one that ran was started; a failed one was overdue
      at a timeout check; its worker is the one a claim named, at the time it started; its output is the one a
      completion named, at the time it was delivered; and submitter and timeout are those it was submitted with. */
  lemma {:induction false} JobsAreAccounted(ops: seq<Op>, now: nat, id: string)
    requires NewJobs(ops) && id in Run(World(Market(map[], []), now), ops).market.jobs
    ensures
      var w := World(Market(map[], []), now);
      var job := Run(w, ops).market.jobs[id];
      job.id == id && Accounted(w, ops, job)
  {
    var w := World(Market(map[], []), now);
    if ops != [] {
      var before, op := ops[..|ops| - 1], ops[|ops| - 1];
      assert ops == before + [op];
      var v := Run(w, before);
      hide Accounted;
      if op.OpSubmit? && op.job.id == id {
        SubmissionIsAccounted(w, before, op.job);
      } else {
        NewIds(v, op, id);
        JobsAreAccounted(before, now, id);
        StepChanges(v, op, id);
        hide Step;
        hide Changed;
        ChangeIsAccounted(w, before, op, v.market.jobs[id], Run(w, ops).market.jobs[id]);
        ChangeKeepsId(op, v.now, v.market.jobs[id], Run(w, ops).market.jobs[id]);
      }
    }
  }

  lemma ChangeKeepsId(op: Op, now: nat, before: Job, after: Job)
    requires Changed(op, now, before, after)
    ensures after.id == before.id
  {
  }
}
