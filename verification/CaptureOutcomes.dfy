/**
 What each call of the capture scheduler does to the jobs, said of the jobs alone
 (crates/running-process-probe-daemon/src/capture_jobs.rs), and what a reply that comes too
 late still does: the connection of a job that expired while running stays taken until its
 one late reply has come.
 */
module CaptureOutcomes {
  import opened Wrappers
  import opened Identity
  import opened CaptureJobs
  import Sets

  /** All jobs but `id` are as they were. */
  ghost predicate OnlyJob(jobs: map<JobId, Job>, id: JobId, after: map<JobId, Job>) {
    forall j :: j != id ==> (j in after <==> j in jobs) && (j in jobs ==> after[j] == jobs[j])
  }

  // ------------------------------------------------------------ maintenance

  /** An active job past its deadline fails with the deadline's error, at once, and a
      running one remembers its connection; no other job changes. */
  lemma ExpiryMeans(jobs: map<JobId, Job>, now: nat, id: JobId)
    requires id in jobs
    ensures Expired(jobs, now).Keys == jobs.Keys
    ensures now < jobs[id].deadline ==> Expired(jobs, now)[id] == jobs[id]
    ensures jobs[id].state.Complete? || jobs[id].state.Failed? ==> Expired(jobs, now)[id] == jobs[id]
    ensures now >= jobs[id].deadline && jobs[id].state.Pending? ==>
              Expired(jobs, now)[id] == jobs[id].(state := Failed(4, "capture deadline elapsed", now, None))
    ensures now >= jobs[id].deadline && jobs[id].state.Running? ==>
              var conn := Some(jobs[id].state.conn);
              Expired(jobs, now)[id] == jobs[id].(state := Failed(4, "capture deadline elapsed", now, conn))
  {
  }

  /** Maintenance keeps active jobs that are in time. A finished job can be asked for until
      300 seconds have passed or room is needed, and no longer. */
  lemma MaintenanceMeans(a: Inner, now: nat, m: Inner, id: JobId)
    requires Maintained(a, now, m)
    ensures id in m.jobs ==> id in a.jobs
    ensures id in a.jobs && (a.jobs[id].state.Pending? || a.jobs[id].state.Running?) && now < a.jobs[id].deadline ==>
              id in m.jobs && m.jobs[id] == a.jobs[id]
    ensures id in a.jobs && (a.jobs[id].state.Complete? || a.jobs[id].state.Failed?) ==>
              && (id in m.jobs ==> m.jobs[id] == a.jobs[id])
              && (id in m.jobs ==> now < a.jobs[id].state.finished + 300_000)
              && (0 < a.jobs[id].state.finished && now < a.jobs[id].state.finished + 300_000 && |a.jobs| < 1024 ==> id in m.jobs)
    ensures m.issued == a.issued
  {
    var expired := Expired(a.jobs, now);
    var kept := Retained(expired, now);
    if id in a.jobs {
      ExpiryMeans(a.jobs, now, id);
    }
    if |a.jobs| < 1024 {
      Sets.SubsetSize(kept.Keys, a.jobs.Keys);
    }
  }

  /** Room is made only in a full table, by the jobs that finished first, and no more of
      them than one too many. */
  lemma EvictionMeans(a: Inner, now: nat, m: Inner, id: JobId, kept: JobId)
    requires Maintained(a, now, m) && id in a.jobs && id !in m.jobs
    requires a.jobs[id].state.Complete? || a.jobs[id].state.Failed?
    requires 0 < a.jobs[id].state.finished && now < a.jobs[id].state.finished + 300_000
    ensures |a.jobs| >= 1024 && |m.jobs| >= 1023
    ensures kept in m.jobs && (m.jobs[kept].state.Complete? || m.jobs[kept].state.Failed?) ==>
              a.jobs[id].state.finished <= m.jobs[kept].state.finished
  {
    MaintenanceMeans(a, now, m, id);
    ExpiryMeans(a.jobs, now, id);
    var full := Retained(Expired(a.jobs, now), now);
    assert id in full && full[id] == a.jobs[id];
  }

  /** What is left of an overdue active job: failed, with its connection if it ran. */
  lemma OverdueMeans(a: Inner, now: nat, m: Inner, id: JobId)
    requires Maintained(a, now, m) && id in a.jobs && id in m.jobs && now >= a.jobs[id].deadline
    ensures a.jobs[id].state.Pending? ==>
              m.jobs[id] == a.jobs[id].(state := Failed(4, "capture deadline elapsed", now, None))
    ensures a.jobs[id].state.Running? ==>
              m.jobs[id] == a.jobs[id].(state := Failed(4, "capture deadline elapsed", now, Some(a.jobs[id].state.conn)))
  {
    ExpiryMeans(a.jobs, now, id);
  }

  // ------------------------------------------------------------------ calls

  /** A new job is pending for the request's own target, at the end of the queue, until the
      deadline asked for, or 30 seconds from now. */
  lemma EnqueueMeans(a: Inner, request: Request, requested: nat, now: nat, id: JobId, m: Inner, b: Inner)
    requires Step(a, Enqueue(request, requested, now, Ok(id)), m, b)
    ensures id !in m.jobs && id in b.jobs && OnlyJob(m.jobs, id, b.jobs) && b.queue == m.queue + [id]
    ensures b.jobs[id].state == Pending && b.jobs[id].target == request.key && b.jobs[id].request == request
    ensures requested != 0 ==> b.jobs[id].deadline == requested
    ensures requested == 0 && now + 30_000 <= U64_MAX ==> b.jobs[id].deadline == now + 30_000
    ensures requested == 0 && now + 30_000 > U64_MAX ==> b.jobs[id].deadline == U64_MAX
  {
  }

  /** A target is refused further jobs exactly when 32 of its jobs are active. */
  lemma BusyTargetMeans(a: Inner, request: Request, requested: nat, now: nat, r: Result<JobId, Refusal>, m: Inner, b: Inner)
    requires Step(a, Enqueue(request, requested, now, r), m, b) && |m.jobs| < 1024
    ensures var active := set id | id in m.jobs && m.jobs[id].target == request.key
                                   && (m.jobs[id].state.Pending? || m.jobs[id].state.Running?);
            && (r.Ok? <==> |active| < 32)
            && (r.Err? ==> r == Err(TargetBusy) && b == m)
  {
    var active := set id | id in m.jobs && m.jobs[id].target == request.key
                           && (m.jobs[id].state.Pending? || m.jobs[id].state.Running?);
    assert active == ActiveFor(m.jobs, request.key);
  }

  /** A lease is given exactly if a job waits for the target and the connection owes no
      reply; the job then runs on that connection. */
  lemma LeaseMeans(a: Inner, target: ProcessKey, c: ConnId, now: nat, r: Option<JobId>, m: Inner, b: Inner)
    requires Step(a, Lease(target, c, now, r), m, b) && Inv(m)
    ensures r.Some? <==>
              && (exists id :: id in m.jobs && m.jobs[id].target == target && m.jobs[id].state.Pending?)
              && !(exists id :: id in m.jobs && OwesReply(m.jobs[id].state, c))
    ensures r.None? ==> b == m
    ensures r.Some? ==>
              && r.value in m.jobs && m.jobs[r.value].target == target && m.jobs[r.value].state.Pending?
              && r.value in b.jobs && b.jobs[r.value] == m.jobs[r.value].(state := Running(c))
              && OnlyJob(m.jobs, r.value, b.jobs)
  {
    var k := FirstFor(m.queue, m.jobs, target);
    if k == |m.queue| {
      forall id | id in m.jobs && m.jobs[id].state.Pending? ensures m.jobs[id].target != target {
        var i :| 0 <= i < |m.queue| && m.queue[i] == id;
        assert !WaitsFor(m.queue[i], m.jobs, target);
      }
    }
  }

  /** The job runs on the connection, or expired while it did and was not answered since. */
  ghost predicate OwesReply(s: State, c: ConnId) {
    (s.Running? && s.conn == c) || (s.Failed? && s.late == Some(c))
  }

  /** An upload goes to the one job that owes it: an error ends a running job, success leaves
      it running, and a late reply only frees the connection. */
  lemma UploadMeans(a: Inner, c: ConnId, error: int, detail: string, now: nat, later: nat, r: Option<JobId>, m: Inner, b: Inner)
    requires Step(a, AcceptUpload(c, error, detail, now, later, r), m, b)
    ensures r.Some? <==> exists id :: id in m.jobs && OwesReply(m.jobs[id].state, c)
    ensures r.None? ==> b == m
    ensures r.Some? ==>
              && r.value in m.jobs && OwesReply(m.jobs[r.value].state, c)
              && r.value in b.jobs && OnlyJob(m.jobs, r.value, b.jobs)
              && (m.jobs[r.value].state.Running? && error == 0 ==> b.jobs[r.value] == m.jobs[r.value])
              && (m.jobs[r.value].state.Running? && error != 0 ==>
                    b.jobs[r.value] == m.jobs[r.value].(state := Failed(error, detail, later, None)))
              && (m.jobs[r.value].state.Failed? ==>
                    b.jobs[r.value] == m.jobs[r.value].(state := m.jobs[r.value].state.(late := None)))
  {
    forall id | id in m.jobs ensures OwesReply(m.jobs[id].state, c) <==> Correlates(m.jobs[id].state, c) {
    }
  }

  /** Completion succeeds exactly for a running job in time, and records its artifact and
      the time. */
  lemma CompletionMeans(a: Inner, id: JobId, artifact: string, now: nat, done: bool, m: Inner, b: Inner)
    requires Step(a, CompleteJob(id, artifact, now, done), m, b)
    ensures done <==> id in a.jobs && a.jobs[id].state.Running? && now < a.jobs[id].deadline
    ensures done ==> id in b.jobs && b.jobs[id] == a.jobs[id].(state := Complete(artifact, now))
    ensures forall j :: j in b.jobs <==> j in a.jobs
    ensures forall j :: j in a.jobs && (j != id || !done) ==> b.jobs[j] == Expired(a.jobs, now)[j]
  {
    if id in a.jobs {
      ExpiryMeans(a.jobs, now, id);
    }
  }

  /** Failing a job records error, detail and time if it is active, and else does nothing. */
  lemma FailureMeans(a: Inner, id: JobId, error: int, detail: string, now: nat, m: Inner, b: Inner)
    requires Step(a, FailJob(id, error, detail, now), m, b)
    ensures OnlyJob(a.jobs, id, b.jobs) && b.queue == a.queue
    ensures id in a.jobs && (a.jobs[id].state.Pending? || a.jobs[id].state.Running?) ==>
              id in b.jobs && b.jobs[id] == a.jobs[id].(state := Failed(error, detail, now, None))
    ensures !(id in a.jobs && (a.jobs[id].state.Pending? || a.jobs[id].state.Running?)) ==> b == a
  {
  }

  // ------------------------------------------------------------ late replies

  predicate IsUploadOn(call: Call, c: ConnId) {
    call.AcceptUpload? && call.conn == c
  }

  /** Every call but failing a job looks at the deadlines. */
  predicate LooksAtDeadlines(call: Call) {
    !call.FailJob?
  }

  /** A call at or past the deadline of a running job, other than its own reply, leaves the
      job failed with its connection remembered, if it leaves it in the table at all. */
  lemma ExpiresWithConnection(a: Inner, call: Call, m: Inner, b: Inner, id: JobId, c: ConnId)
    requires Step(a, call, m, b) && LooksAtDeadlines(call) && !IsUploadOn(call, c)
    requires id in a.jobs && a.jobs[id].state == Running(c) && call.now >= a.jobs[id].deadline
    requires id in b.jobs && b.jobs[id].ticket == a.jobs[id].ticket && a.jobs[id].ticket < a.issued
    ensures b.jobs[id] == a.jobs[id].(state := Failed(4, "capture deadline elapsed", call.now, Some(c)))
  {
    if call.CompleteJob? {
      CompletionMeans(a, call.id, call.artifact, call.now, call.done, m, b);
      ExpiryMeans(a.jobs, call.now, id);
    } else {
      assert id in m.jobs;
      OverdueMeans(a, call.now, m, id);
      MarkerStaysInAction(m, call, b, id, c);
    }
  }

  /** Nothing but an upload over the connection changes a job that waits for its late reply. */
  lemma MarkerStaysInAction(m: Inner, call: Call, b: Inner, id: JobId, c: ConnId)
    requires Acts(m, call, b) && Maintains(call) && !IsUploadOn(call, c)
    requires id in m.jobs && m.jobs[id].state.Failed? && m.jobs[id].state.late == Some(c)
    ensures id in b.jobs && b.jobs[id] == m.jobs[id]
  {
  }

  lemma MarkerStays(a: Inner, call: Call, m: Inner, b: Inner, id: JobId, c: ConnId)
    requires Step(a, call, m, b) && !IsUploadOn(call, c)
    requires id in a.jobs && a.jobs[id].state.Failed? && a.jobs[id].state.late == Some(c)
    requires id in b.jobs && b.jobs[id].ticket == a.jobs[id].ticket && a.jobs[id].ticket < a.issued
    ensures b.jobs[id] == a.jobs[id]
  {
    if call.CompleteJob? {
      CompletionMeans(a, call.id, call.artifact, call.now, call.done, m, b);
      ExpiryMeans(a.jobs, call.now, id);
    } else if call.FailJob? {
      FailureMeans(a, call.id, call.error, call.detail, call.now, m, b);
    } else {
      MaintenanceMeans(a, call.now, m, id);
      if id in m.jobs {
        MarkerStaysInAction(m, call, b, id, c);
      }
    }
  }

  /** The job is in the state at `j`, and it is the one that had this ticket. */
  predicate StillThere(run: Run, j: nat, id: JobId, ticket: nat)
    requires j < |run.states|
  {
    id in run.states[j].jobs && run.states[j].jobs[id].ticket == ticket
  }

  lemma ExpiringCall(run: Run, i: nat, id: JobId, c: ConnId)
    requires IsRun(run) && i < |run.calls| && !IsUploadOn(run.calls[i], c)
    requires id in run.states[i].jobs && run.states[i].jobs[id].state == Running(c)
    requires LooksAtDeadlines(run.calls[i]) && run.calls[i].now >= run.states[i].jobs[id].deadline
    requires StillThere(run, i + 1, id, run.states[i].jobs[id].ticket)
    ensures run.states[i + 1].jobs[id]
         == run.states[i].jobs[id].(state := Failed(4, "capture deadline elapsed", run.calls[i].now, Some(c)))
  {
    RunKeepsInv(run, i);
    RunTakesStep(run, i);
    ExpiresWithConnection(run.states[i], run.calls[i], run.maintained[i], run.states[i + 1], id, c);
  }

  lemma MarkedCall(run: Run, j: nat, id: JobId, c: ConnId)
    requires IsRun(run) && j < |run.calls| && !IsUploadOn(run.calls[j], c)
    requires id in run.states[j].jobs && run.states[j].jobs[id].state.Failed? && run.states[j].jobs[id].state.late == Some(c)
    requires StillThere(run, j + 1, id, run.states[j].jobs[id].ticket)
    ensures run.states[j + 1].jobs[id] == run.states[j].jobs[id]
  {
    RunKeepsInv(run, j);
    RunTakesStep(run, j);
    MarkerStays(run.states[j], run.calls[j], run.maintained[j], run.states[j + 1], id, c);
  }

  lemma WasThereBefore(run: Run, i: nat, j: nat, id: JobId, ticket: nat)
    requires IsRun(run) && i <= j < |run.calls| && ticket < run.states[i].issued
    requires StillThere(run, j + 1, id, ticket)
    ensures StillThere(run, j, id, ticket)
  {
    IssuedGrows(run, i, j);
    RunTakesStep(run, j);
    StepMovesForward(run.states[j], run.calls[j], run.maintained[j], run.states[j + 1], id);
  }

  lemma TicketWasIssued(run: Run, i: nat, id: JobId)
    requires IsRun(run) && i <= |run.calls| && id in run.states[i].jobs
    ensures run.states[i].jobs[id].ticket < run.states[i].issued
  {
    RunKeepsInv(run, i);
  }

  /** Once a running job has expired, it stays as it is, with its connection remembered, as
      long as it is in the table and no upload has come over that connection. */
  lemma {:induction false} ExpiredStaysMarked(run: Run, i: nat, j: nat, id: JobId, c: ConnId)
    requires IsRun(run) && i < j <= |run.calls|
    requires id in run.states[i].jobs && run.states[i].jobs[id].state == Running(c)
    requires LooksAtDeadlines(run.calls[i]) && run.calls[i].now >= run.states[i].jobs[id].deadline
    requires forall k :: i <= k < j ==> !IsUploadOn(run.calls[k], c)
    requires StillThere(run, j, id, run.states[i].jobs[id].ticket)
    ensures run.states[j].jobs[id]
         == run.states[i].jobs[id].(state := Failed(4, "capture deadline elapsed", run.calls[i].now, Some(c)))
    decreases j
  {
    if j == i + 1 {
      ExpiringCall(run, i, id, c);
    } else {
      TicketWasIssued(run, i, id);
      WasThereBefore(run, i, j - 1, id, run.states[i].jobs[id].ticket);
      ExpiredStaysMarked(run, i, j - 1, id, c);
      MarkedCall(run, j - 1, id, c);
    }
  }

  /** A reply that is owed: no lease is given on the connection, and the next upload over it
      is this job's. */
  lemma OwedReplyBlocks(a: Inner, call: Call, m: Inner, b: Inner, id: JobId, c: ConnId)
    requires Step(a, call, m, b) && Inv(m) && id in m.jobs && m.jobs[id].state.Failed? && m.jobs[id].state.late == Some(c)
    ensures call.Lease? && call.conn == c ==> call.leased == None
    ensures IsUploadOn(call, c) ==> call.job == Some(id)
  {
    assert OwesReply(m.jobs[id].state, c) && Correlates(m.jobs[id].state, c);
    if call.Lease? && call.conn == c {
      LeaseMeans(a, call.target, c, call.now, call.leased, m, b);
    }
    if IsUploadOn(call, c) {
      UploadMeans(a, c, call.error, call.detail, call.now, call.later, call.job, m, b);
      assert Correlates(m.jobs[call.job.value].state, c);
    }
  }

  /** After a job has expired while running on a connection, and until its reply has come
      over that connection or the job has left the table: the connection is given no other
      job, and the next upload over it is taken for this job and no other. */
  lemma ExpiredJobHoldsConnection(run: Run, i: nat, j: nat, id: JobId, c: ConnId)
    requires IsRun(run) && i < j < |run.calls|
    requires id in run.states[i].jobs && run.states[i].jobs[id].state == Running(c)
    requires LooksAtDeadlines(run.calls[i]) && run.calls[i].now >= run.states[i].jobs[id].deadline
    requires forall k :: i <= k < j ==> !IsUploadOn(run.calls[k], c)
    requires StillThere(run, j, id, run.states[i].jobs[id].ticket) && id in run.maintained[j].jobs
    ensures run.calls[j].Lease? && run.calls[j].conn == c ==> run.calls[j].leased == None
    ensures IsUploadOn(run.calls[j], c) ==> run.calls[j].job == Some(id)
  {
    ExpiredStaysMarked(run, i, j, id, c);
    RunTakesStep(run, j);
    RunKeepsMaintained(run, j);
    if Maintains(run.calls[j]) {
      MaintenanceMeans(run.states[j], run.calls[j].now, run.maintained[j], id);
    }
    OwedReplyBlocks(run.states[j], run.calls[j], run.maintained[j], run.states[j + 1], id, c);
  }
}
