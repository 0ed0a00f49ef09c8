/**
 The scheduler object itself
 (crates/running-process-probe-daemon/src/capture_jobs.rs): a job map and a queue
 that every call changes in place. Each method is proved to take one `Step` of
 `CaptureJobs`, whose runs carry the main results.
 */
module CaptureScheduler {
  import opened Wrappers
  import opened Identity
  import opened CaptureJobs
  import Insertion

  /** The reply to a status request. */
  datatype JobStatus = JobStatus(code: nat, percent: nat, artifact: string, error: int, detail: string)

  /** Progress is whole exactly for finished jobs, the artifact is told exactly for
      complete ones, and the error exactly for failed ones. */
  predicate Reports(status: JobStatus, s: State) {
    && (status.code == 1 <==> s.Pending?)
    && (status.code == 2 <==> s.Running?)
    && (status.code == 3 <==> s.Complete?)
    && (status.code == 4 <==> s.Failed?)
    && (status.percent == 100 <==> !Active(s)) && (status.percent == 0 <==> s.Pending?) && (s.Running? ==> status.percent == 50)
    && status.artifact == (if s.Complete? then s.artifact else "")
    && (if s.Failed? then status.error == s.error && status.detail == s.detail else status.error == 0 && status.detail == "")
  }

  class Scheduler {
    var jobs: map<JobId, Job>
    var queue: seq<JobId>
    var issued: nat

    function View(): Inner
      reads this
    {
      Inner(jobs, queue, issued)
    }

    constructor ()
      ensures View() == Empty
    {
      jobs, queue, issued := map[], [], 0;
    }

    method Expire(now: nat)
      modifies this`jobs
      ensures jobs == Expired(old(jobs), now)
    {
      var todo := jobs.Keys;
      while todo != {}
        invariant todo <= jobs.Keys == old(jobs).Keys
        invariant forall id :: id in jobs ==>
                    jobs[id] == if id in todo then old(jobs)[id] else ExpireJob(old(jobs)[id], now)
        decreases todo
      {
        var id :| id in todo;
        var job := jobs[id];
        if now >= job.deadline && Active(job.state) {
          var conn := if job.state.Running? then Some(job.state.conn) else None;
          jobs := jobs[id := job.(state := Failed(ERROR_DEADLINE, DETAIL_DEADLINE, now, conn))];
        }
        todo := todo - {id};
      }
    }

    /** Expires overdue jobs, forgets old finished ones, and makes room if it can. */
    method Maintain(now: nat)
      modifies this`jobs, this`queue
      ensures Maintained(old(View()), now, View())
    {
      Expire(now);
      var cutoff := SaturatingSub(now, TERMINAL_TTL_MS);
      jobs := map id | id in jobs && (Active(jobs[id].state) || jobs[id].state.finished > cutoff) :: jobs[id];
      assert jobs == Retained(Expired(old(jobs), now), now);
      jobs := EvictOldest(jobs);
      RetainPending();
    }

    method RetainPending()
      modifies this`queue
      ensures queue == PendingOnly(old(queue), jobs)
    {
      var kept: seq<JobId> := [];
      for k := 0 to |queue|
        invariant kept == PendingOnly(queue[..k], jobs)
        invariant queue == old(queue)
      {
        assert queue[..k + 1][..k] == queue[..k];
        if queue[k] in jobs && jobs[queue[k]].state.Pending? {
          kept := kept + [queue[k]];
        }
      }
      assert queue[..|queue|] == queue;
      queue := kept;
    }

    /** Draws again as long as the id is taken. */
    method FirstUnused(draws: seq<JobId>) returns (id: JobId)
      requires exists k :: 0 <= k < |draws| && draws[k] !in jobs
      ensures id !in jobs
      ensures exists k :: 0 <= k < |draws| && draws[k] == id && forall i :: 0 <= i < k ==> draws[i] in jobs
    {
      var k := 0;
      while draws[k] in jobs
        invariant 0 <= k < |draws|
        invariant forall i :: 0 <= i < k ==> draws[i] in jobs
        decreases |draws| - k
      {
        k := k + 1;
      }
      id := draws[k];
    }

    /** `draws` are the random ids the generator gives, the first unused one is taken. */
    method Enqueue(request: Request, requested: nat, now: nat, draws: seq<JobId>)
      returns (receipt: Result<JobId, Refusal>, ghost m: Inner)
      requires exists k :: 0 <= k < |draws| && draws[k] !in jobs
      modifies this
      ensures Step(old(View()), Call.Enqueue(request, requested, now, receipt), m, View())
    {
      var deadline := if requested == 0 then SaturatingAdd(now, DEFAULT_JOB_DEADLINE_MS) else requested;
      Maintain(now);
      m := View();
      receipt := Admit(request, deadline, draws);
    }

    method Admit(request: Request, deadline: nat, draws: seq<JobId>) returns (receipt: Result<JobId, Refusal>)
      requires exists k :: 0 <= k < |draws| && draws[k] !in jobs
      modifies this
      ensures EnqueueOn(old(View()), View(), request, deadline, receipt)
    {
      if |jobs| >= MAX_TOTAL_JOBS {
        return Err(CapacityReached);
      }
      var activeForTarget := |set id | id in jobs && jobs[id].target == request.key && Active(jobs[id].state)|;
      if activeForTarget >= MAX_ACTIVE_PER_TARGET {
        return Err(TargetBusy);
      }
      var id := FirstUnused(draws);
      queue := queue + [id];
      jobs := jobs[id := Job(request.key, request, deadline, Pending, issued)];
      issued := issued + 1;
      receipt := Ok(id);
    }

    method Lease(target: ProcessKey, conn: ConnId, now: nat)
      returns (leased: Option<JobId>, request: Option<Request>, ghost m: Inner)
      modifies this
      ensures Step(old(View()), Call.Lease(target, conn, now, leased), m, View())
      ensures leased.None? ==> request == None
      ensures leased.Some? ==> request == Some(m.jobs[leased.value].request)
    {
      Maintain(now);
      m := View();
      leased, request := TakeFirst(target, conn);
    }

    /** The oldest job that waits for the target, unless the connection is busy. */
    method TakeFirst(target: ProcessKey, conn: ConnId) returns (leased: Option<JobId>, request: Option<Request>)
      modifies this
      ensures LeaseOn(old(View()), View(), target, conn, leased)
      ensures leased.None? ==> request == None
      ensures leased.Some? ==> leased.value in old(jobs) && request == Some(old(jobs)[leased.value].request)
    {
      if exists id :: id in jobs && Correlates(jobs[id].state, conn) {
        return None, None;
      }
      var position := 0;
      while position < |queue| && !WaitsFor(queue[position], jobs, target)
        invariant 0 <= position <= |queue|
        invariant forall i :: 0 <= i < position ==> !WaitsFor(queue[i], jobs, target)
      {
        position := position + 1;
      }
      FirstForIsFirst(queue, jobs, target, position);
      if position == |queue| {
        return None, None;
      }
      var id := queue[position];
      request := Some(jobs[id].request);
      queue := queue[..position] + queue[position + 1..];
      jobs := jobs[id := jobs[id].(state := Running(conn))];
      leased := Some(id);
    }

    /** Authenticates an upload against the one job the connection correlates with. */
    method AcceptUpload(conn: ConnId, error: int, detail: string, now: nat, later: nat)
      returns (job: Option<JobId>, deadline: nat, ghost m: Inner)
      modifies this
      ensures Step(old(View()), Call.AcceptUpload(conn, error, detail, now, later, job), m, View())
      ensures job.Some? ==> deadline == m.jobs[job.value].deadline
    {
      Maintain(now);
      m := View();
      job, deadline := Match(conn, error, detail, later);
    }

    method Match(conn: ConnId, error: int, detail: string, later: nat) returns (job: Option<JobId>, deadline: nat)
      modifies this
      ensures UploadOn(old(View()), View(), conn, error, detail, later, job)
      ensures job.Some? ==> job.value in old(jobs) && deadline == old(jobs)[job.value].deadline
    {
      if !exists id :: id in jobs && Correlates(jobs[id].state, conn) {
        return None, 0;
      }
      var id :| id in jobs && Correlates(jobs[id].state, conn);
      var state := jobs[id].state;
      if state.Failed? {
        jobs := jobs[id := jobs[id].(state := state.(late := None))];
      } else if error != 0 {
        jobs := jobs[id := jobs[id].(state := Failed(error, detail, later, None))];
      }
      job, deadline := Some(id), jobs[id].deadline;
      assert old(jobs)[id := old(jobs)[id]] == old(jobs);
    }

    method Complete(id: JobId, artifact: string, now: nat) returns (done: bool)
      modifies this
      ensures Step(old(View()), Call.CompleteJob(id, artifact, now, done), old(View()), View())
    {
      Expire(now);
      if id !in jobs || !jobs[id].state.Running? {
        return false;
      }
      jobs := jobs[id := jobs[id].(state := State.Complete(artifact, now))];
      done := true;
    }

    method Fail(id: JobId, error: int, detail: string, now: nat)
      modifies this
      ensures Step(old(View()), Call.FailJob(id, error, detail, now), old(View()), View())
    {
      if id in jobs && Active(jobs[id].state) {
        jobs := jobs[id := jobs[id].(state := Failed(error, detail, now, None))];
      }
    }

    /** The public state of one job: its code, and the result or the error it ended with. */
    method Status(id: JobId, now: nat) returns (status: Option<JobStatus>, ghost m: Inner)
      modifies this
      ensures Step(old(View()), Call.Status(id, now), m, View())
      ensures status.Some? <==> id in View().jobs
      ensures status.Some? ==> Reports(status.value, View().jobs[id].state)
    {
      Maintain(now);
      m := View();
      if id !in jobs {
        return None, m;
      }
      match jobs[id].state
      case Pending => status := Some(JobStatus(1, 0, "", 0, ""));
      case Running(_) => status := Some(JobStatus(2, 50, "", 0, ""));
      case Complete(artifact, _) => status := Some(JobStatus(3, 100, artifact, 0, ""));
      case Failed(error, detail, _, _) => status := Some(JobStatus(4, 100, "", error, detail));
    }
  }

  lemma {:induction false} FirstForIsFirst(queue: seq<JobId>, jobs: map<JobId, Job>, target: ProcessKey, k: nat)
    requires k <= |queue| && forall i :: 0 <= i < k ==> !WaitsFor(queue[i], jobs, target)
    requires k < |queue| ==> WaitsFor(queue[k], jobs, target)
    ensures FirstFor(queue, jobs, target) == k
  {
  }

  /** A finished job and when it finished. */
  datatype Finished = Finished(id: JobId, at: nat)

  predicate NotLater(a: Finished, b: Finished) {
    a.at <= b.at
  }

  predicate OtherId(a: Finished, b: Finished) {
    a.id != b.id
  }

  ghost predicate OldestFirst(list: seq<Finished>) {
    forall i, j :: 0 <= i < j < |list| ==> OtherId(list[i], list[j]) && NotLater(list[i], list[j])
  }

  ghost predicate ListsTerminal(list: seq<Finished>, jobs: map<JobId, Job>, todo: set<JobId>) {
    && (forall f :: f in list ==>
          f.id in jobs && f.id !in todo && !Active(jobs[f.id].state) && jobs[f.id].state.finished == f.at)
    && (forall id :: id in jobs && id !in todo && !Active(jobs[id].state) ==>
          Finished(id, jobs[id].state.finished) in list)
  }

  /** The finished jobs, oldest first. */
  method TerminalByAge(jobs: map<JobId, Job>) returns (terminal: seq<Finished>)
    ensures ListsTerminal(terminal, jobs, {}) && OldestFirst(terminal)
  {
    terminal := [];
    var todo := jobs.Keys;
    while todo != {}
      invariant todo <= jobs.Keys
      invariant ListsTerminal(terminal, jobs, todo) && OldestFirst(terminal)
      decreases todo
    {
      var id :| id in todo;
      if !Active(jobs[id].state) {
        terminal := InsertByAge(terminal, Finished(id, jobs[id].state.finished));
      }
      todo := todo - {id};
    }
  }

  method InsertByAge(list: seq<Finished>, f: Finished) returns (longer: seq<Finished>)
    requires OldestFirst(list)
    requires forall x :: x in list ==> x.id != f.id
    ensures OldestFirst(longer)
    ensures forall x :: x in longer <==> x in list || x == f
  {
    ghost var at: nat;
    longer, at := Insertion.Insert(list, f, NotLater);
    Insertion.InsertKeepsSorted(list, f, at, OtherId);
    Insertion.InsertedMembers(list, f, at);
  }

  method EvictOldest(jobs: map<JobId, Job>) returns (kept: map<JobId, Job>)
    ensures EvictedTo(jobs, kept)
  {
    kept := jobs;
    if |jobs| >= MAX_TOTAL_JOBS {
      var terminal := TerminalByAge(jobs);
      var k := 0;
      while k < |terminal| && |kept| >= MAX_TOTAL_JOBS
        invariant 0 <= k <= |terminal|
        invariant Within(kept, jobs)
        invariant forall id :: id in jobs ==> (id !in kept <==> exists i :: 0 <= i < k && terminal[i].id == id)
        invariant |kept| >= MAX_TOTAL_JOBS - 1
      {
        var id := terminal[k].id;
        assert terminal[k] in terminal && id in kept;
        ghost var before := kept;
        kept := kept - {id};
        assert kept.Keys == before.Keys - {id};
        k := k + 1;
      }
      EvictedOldest(jobs, terminal, k, kept);
    }
  }

  lemma EvictedOldest(jobs: map<JobId, Job>, terminal: seq<Finished>, k: nat, kept: map<JobId, Job>)
    requires |jobs| >= MAX_TOTAL_JOBS && k <= |terminal|
    requires ListsTerminal(terminal, jobs, {}) && OldestFirst(terminal)
    requires Within(kept, jobs)
    requires forall id :: id in jobs ==> (id !in kept <==> exists i :: 0 <= i < k && terminal[i].id == id)
    requires |kept| >= MAX_TOTAL_JOBS - 1
    requires k == |terminal| || |kept| < MAX_TOTAL_JOBS
    ensures EvictedTo(jobs, kept)
  {
    forall id | id in jobs && id !in kept ensures !Active(jobs[id].state) {
      var i :| 0 <= i < k && terminal[i].id == id;
      assert terminal[i] in terminal;
    }
    forall other | other in kept && !Active(kept[other].state)
      ensures k < |terminal|
      ensures forall id :: id in jobs && id !in kept ==> jobs[id].state.finished <= kept[other].state.finished
    {
      var f := Finished(other, jobs[other].state.finished);
      var j :| 0 <= j < |terminal| && terminal[j] == f;
      assert j >= k;
      forall id | id in jobs && id !in kept ensures jobs[id].state.finished <= kept[other].state.finished {
        var i :| 0 <= i < k && terminal[i].id == id;
        assert terminal[i] in terminal;
      }
    }
  }
}
