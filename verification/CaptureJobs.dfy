/**
 The capture-job scheduler
 (crates/running-process-probe-daemon/src/capture_jobs.rs).

 Operators enqueue jobs, targets lease them over their connections, upload one
 reply, and a worker completes or fails them. Every call first expires overdue
 jobs, and most calls also forget old finished ones. `Inner` is the state under
 the lock; each operation is a relation between the states before and after it,
 because evicting among equally old jobs depends on hash order. The clock is a
 parameter of every call and may even run backwards.
 */
module CaptureJobs {
  import opened Wrappers
  import opened Identity
  import Sets

  type JobId = string
  type ConnId = nat

  const DEFAULT_JOB_DEADLINE_MS := 30_000
  const MAX_TOTAL_JOBS := 1024
  const MAX_ACTIVE_PER_TARGET := 32
  const TERMINAL_TTL_MS := 300_000
  const ERROR_DEADLINE := 4
  const DETAIL_DEADLINE := "capture deadline elapsed"

  datatype State =
    | Pending
    | Running(conn: ConnId)
    | Complete(artifact: string, finished: nat)
    | Failed(error: int, detail: string, finished: nat, late: Option<ConnId>)

  datatype Request = Request(key: ProcessKey, maxDepth: nat, threadFilter: nat)

  /** `ticket` is the model's own: how many jobs were enqueued before this one. */
  datatype Job = Job(target: ProcessKey, request: Request, deadline: nat, state: State, ticket: nat)

  datatype Inner = Inner(jobs: map<JobId, Job>, queue: seq<JobId>, issued: nat)

  const Empty := Inner(map[], [], 0)

  predicate Active(s: State) {
    s.Pending? || s.Running?
  }

  /** The connection's next upload belongs to this job: it runs there, or its
      deadline passed while it ran there and the late reply has not come. */
  predicate Correlates(s: State, c: ConnId) {
    s == Running(c) || (s.Failed? && s.late == Some(c))
  }

  function ActiveFor(jobs: map<JobId, Job>, target: ProcessKey): set<JobId> {
    set id | id in jobs && jobs[id].target == target && Active(jobs[id].state)
  }

  // ------------------------------------------------------------ maintenance

  function ExpireJob(job: Job, now: nat): Job {
    if now >= job.deadline && Active(job.state) then
      job.(state := Failed(ERROR_DEADLINE, DETAIL_DEADLINE, now,
                           if job.state.Running? then Some(job.state.conn) else None))
    else job
  }

  function Expired(jobs: map<JobId, Job>, now: nat): map<JobId, Job> {
    map id | id in jobs :: ExpireJob(jobs[id], now)
  }

  predicate Fresh(s: State, now: nat) {
    Active(s) || s.finished > SaturatingSub(now, TERMINAL_TTL_MS)
  }

  function Retained(jobs: map<JobId, Job>, now: nat): map<JobId, Job> {
    map id | id in jobs && Fresh(jobs[id].state, now) :: jobs[id]
  }

  ghost predicate Within(part: map<JobId, Job>, whole: map<JobId, Job>) {
    forall id :: id in part ==> id in whole && part[id] == whole[id]
  }

  /** Only finished jobs go, the oldest first, and only until there is room. */
  ghost predicate EvictedTo(before: map<JobId, Job>, after: map<JobId, Job>) {
    && Within(after, before)
    && (|before| < MAX_TOTAL_JOBS ==> after == before)
    && (|before| >= MAX_TOTAL_JOBS ==>
          |after| == MAX_TOTAL_JOBS - 1
          || (|after| >= MAX_TOTAL_JOBS && forall id :: id in after ==> Active(after[id].state)))
    && (forall id :: id in before && id !in after ==> !Active(before[id].state))
    && (forall id, kept :: id in before && id !in after && kept in after && !Active(after[kept].state) ==>
          before[id].state.finished <= after[kept].state.finished)
  }

  function PendingOnly(queue: seq<JobId>, jobs: map<JobId, Job>): seq<JobId> {
    if queue == [] then []
    else
      var n := |queue| - 1;
      PendingOnly(queue[..n], jobs)
      + if queue[n] in jobs && jobs[queue[n]].state.Pending? then [queue[n]] else []
  }

  ghost predicate Maintained(a: Inner, now: nat, b: Inner) {
    && EvictedTo(Retained(Expired(a.jobs, now), now), b.jobs)
    && b.queue == PendingOnly(a.queue, b.jobs)
    && b.issued == a.issued
  }

  // ------------------------------------------------------------- operations

  datatype Refusal = CapacityReached | TargetBusy

  function Deadline(now: nat, requested: nat): nat {
    if requested == 0 then SaturatingAdd(now, DEFAULT_JOB_DEADLINE_MS) else requested
  }

  function NewJob(request: Request, deadline: nat, ticket: nat): Job {
    Job(request.key, request, deadline, Pending, ticket)
  }

  ghost predicate EnqueueOn(m: Inner, b: Inner, request: Request, deadline: nat, r: Result<JobId, Refusal>) {
    if |m.jobs| >= MAX_TOTAL_JOBS then
      r == Err(CapacityReached) && b == m
    else if |ActiveFor(m.jobs, request.key)| >= MAX_ACTIVE_PER_TARGET then
      r == Err(TargetBusy) && b == m
    else
      && r.Ok? && r.value !in m.jobs
      && b == Inner(m.jobs[r.value := NewJob(request, deadline, m.issued)], m.queue + [r.value], m.issued + 1)
  }

  /** The place of the first queued job that is pending for `target`. */
  function FirstFor(queue: seq<JobId>, jobs: map<JobId, Job>, target: ProcessKey): (k: nat)
    ensures k <= |queue|
    ensures k < |queue| ==> WaitsFor(queue[k], jobs, target)
    ensures forall i :: 0 <= i < k ==> !WaitsFor(queue[i], jobs, target)
  {
    if queue == [] || WaitsFor(queue[0], jobs, target) then 0
    else 1 + FirstFor(queue[1..], jobs, target)
  }

  predicate WaitsFor(id: JobId, jobs: map<JobId, Job>, target: ProcessKey) {
    id in jobs && jobs[id].target == target && jobs[id].state.Pending?
  }

  predicate Busy(jobs: map<JobId, Job>, c: ConnId) {
    exists id :: id in jobs && Correlates(jobs[id].state, c)
  }

  ghost predicate LeaseOn(m: Inner, b: Inner, target: ProcessKey, c: ConnId, r: Option<JobId>) {
    var k := FirstFor(m.queue, m.jobs, target);
    if Busy(m.jobs, c) || k == |m.queue| then
      r == None && b == m
    else
      && r == Some(m.queue[k])
      && b == Inner(m.jobs[m.queue[k] := m.jobs[m.queue[k]].(state := Running(c))],
                    m.queue[..k] + m.queue[k + 1..], m.issued)
  }

  function Uploaded(s: State, error: int, detail: string, later: nat): State {
    if s.Failed? then s.(late := None)
    else if error != 0 then Failed(error, detail, later, None)
    else s
  }

  ghost predicate UploadOn(m: Inner, b: Inner, c: ConnId, error: int, detail: string, later: nat, r: Option<JobId>) {
    if !Busy(m.jobs, c) then
      r == None && b == m
    else
      && r.Some? && r.value in m.jobs && Correlates(m.jobs[r.value].state, c)
      && b == m.(jobs := m.jobs[r.value := m.jobs[r.value].(state := Uploaded(m.jobs[r.value].state, error, detail, later))])
  }

  function Completed(a: Inner, id: JobId, artifact: string, now: nat): (Inner, bool) {
    var jobs := Expired(a.jobs, now);
    if id in jobs && jobs[id].state.Running? then
      (a.(jobs := jobs[id := jobs[id].(state := Complete(artifact, now))]), true)
    else
      (a.(jobs := jobs), false)
  }

  function FailedBy(a: Inner, id: JobId, error: int, detail: string, now: nat): Inner {
    if id in a.jobs && Active(a.jobs[id].state) then
      a.(jobs := a.jobs[id := a.jobs[id].(state := Failed(error, detail, now, None))])
    else a
  }

  /** One call, with what it returned. */
  datatype Call =
    | Enqueue(request: Request, requested: nat, now: nat, receipt: Result<JobId, Refusal>)
    | Lease(target: ProcessKey, conn: ConnId, now: nat, leased: Option<JobId>)
    | AcceptUpload(conn: ConnId, error: int, detail: string, now: nat, later: nat, job: Option<JobId>)
    | CompleteJob(id: JobId, artifact: string, now: nat, done: bool)
    | FailJob(id: JobId, error: int, detail: string, now: nat)
    | Status(id: JobId, now: nat)

  predicate Maintains(call: Call) {
    !call.CompleteJob? && !call.FailJob?
  }

  /** What the call does once its maintenance has led to `m`. */
  ghost predicate Acts(m: Inner, call: Call, b: Inner) {
    match call
    case Enqueue(request, requested, now, r) => EnqueueOn(m, b, request, Deadline(now, requested), r)
    case Lease(target, c, _, r) => LeaseOn(m, b, target, c, r)
    case AcceptUpload(c, error, detail, _, later, r) => UploadOn(m, b, c, error, detail, later, r)
    case CompleteJob(id, artifact, now, done) => (b, done) == Completed(m, id, artifact, now)
    case FailJob(id, error, detail, now) => b == FailedBy(m, id, error, detail, now)
    case Status(_, _) => b == m
  }

  ghost predicate Step(a: Inner, call: Call, m: Inner, b: Inner) {
    && (if Maintains(call) then Maintained(a, call.now, m) else m == a)
    && Acts(m, call, b)
  }

  /** A run: calls one after the other from the empty scheduler, with the state
      before and after each, and the state its maintenance led to. */
  datatype Run = Run(states: seq<Inner>, calls: seq<Call>, maintained: seq<Inner>)

  ghost predicate IsRun(r: Run) {
    && |r.states| == |r.calls| + 1 && |r.maintained| == |r.calls|
    && r.states[0] == Empty
    && forall i :: 0 <= i < |r.calls| ==> Step(r.states[i], r.calls[i], r.maintained[i], r.states[i + 1])
  }

  lemma RunTakesStep(r: Run, i: nat)
    requires IsRun(r) && i < |r.calls|
    ensures Step(r.states[i], r.calls[i], r.maintained[i], r.states[i + 1])
  {
  }

  // -------------------------------------------------------------- invariant

  /** What holds of each job by itself. */
  predicate Sound(job: Job, issued: nat) {
    && job.request.key == job.target
    && job.ticket < issued
    && (job.state.Complete? ==> job.state.finished < job.deadline)
  }

  ghost predicate OneJobPerConnection(jobs: map<JobId, Job>) {
    forall c, x, y :: x in jobs && y in jobs && Correlates(jobs[x].state, c) && Correlates(jobs[y].state, c) ==> x == y
  }

  ghost predicate OneJobPerTicket(jobs: map<JobId, Job>) {
    forall x, y :: x in jobs && y in jobs && jobs[x].ticket == jobs[y].ticket ==> x == y
  }

  ghost predicate FewActive(jobs: map<JobId, Job>) {
    forall target :: |ActiveFor(jobs, target)| <= MAX_ACTIVE_PER_TARGET
  }

  ghost predicate JobsInv(jobs: map<JobId, Job>, issued: nat) {
    && (forall id :: id in jobs ==> Sound(jobs[id], issued))
    && OneJobPerConnection(jobs)
    && OneJobPerTicket(jobs)
    && FewActive(jobs)
  }

  /** The queue holds known jobs, in the order they were enqueued. */
  ghost predicate QueueOrdered(queue: seq<JobId>, jobs: map<JobId, Job>) {
    && (forall i :: 0 <= i < |queue| ==> queue[i] in jobs)
    && (forall i, j :: 0 <= i < j < |queue| ==> jobs[queue[i]].ticket < jobs[queue[j]].ticket)
  }

  ghost predicate PendingQueued(queue: seq<JobId>, jobs: map<JobId, Job>) {
    forall id :: id in jobs && jobs[id].state.Pending? ==> id in queue
  }

  ghost predicate Inv(s: Inner) {
    && |s.jobs| <= MAX_TOTAL_JOBS
    && JobsInv(s.jobs, s.issued)
    && QueueOrdered(s.queue, s.jobs)
    && PendingQueued(s.queue, s.jobs)
  }

  // --------------------------------------------- maintenance keeps invariants

  lemma ActiveShrinks(a: map<JobId, Job>, b: map<JobId, Job>)
    requires FewActive(a)
    requires forall id :: id in b && Active(b[id].state) ==>
               id in a && Active(a[id].state) && a[id].target == b[id].target
    ensures FewActive(b)
  {
    forall target ensures |ActiveFor(b, target)| <= MAX_ACTIVE_PER_TARGET {
      Sets.SubsetSize(ActiveFor(b, target), ActiveFor(a, target));
    }
  }

  lemma ExpiredKeeps(jobs: map<JobId, Job>, issued: nat, now: nat)
    requires JobsInv(jobs, issued)
    ensures JobsInv(Expired(jobs, now), issued)
    ensures Expired(jobs, now).Keys == jobs.Keys
  {
    var e := Expired(jobs, now);
    ActiveShrinks(jobs, e);
    forall c, id | id in jobs ensures Correlates(e[id].state, c) == Correlates(jobs[id].state, c) {
    }
  }

  lemma WithinKeeps(part: map<JobId, Job>, whole: map<JobId, Job>, issued: nat)
    requires Within(part, whole) && JobsInv(whole, issued)
    ensures JobsInv(part, issued)
    ensures |part| <= |whole|
  {
    ActiveShrinks(whole, part);
    Sets.SubsetSize(part.Keys, whole.Keys);
  }

  lemma {:induction false} PendingOnlyMembers(queue: seq<JobId>, jobs: map<JobId, Job>)
    ensures forall id :: id in PendingOnly(queue, jobs) <==> id in queue && id in jobs && jobs[id].state.Pending?
  {
    if queue != [] {
      var n := |queue| - 1;
      PendingOnlyMembers(queue[..n], jobs);
      assert queue == queue[..n] + [queue[n]];
    }
  }

  lemma {:induction false} PendingOnlyOrdered(queue: seq<JobId>, jobs: map<JobId, Job>, kept: map<JobId, Job>)
    requires QueueOrdered(queue, jobs)
    requires forall id :: id in kept ==> id in jobs && kept[id].ticket == jobs[id].ticket
    ensures QueueOrdered(PendingOnly(queue, kept), kept)
  {
    if queue != [] {
      var n := |queue| - 1;
      PendingOnlyOrdered(queue[..n], jobs, kept);
      PendingOnlyMembers(queue[..n], kept);
      var q := PendingOnly(queue[..n], kept);
      forall i | 0 <= i < |q| ensures kept[q[i]].ticket < jobs[queue[n]].ticket {
        assert q[i] in queue[..n];
      }
    }
  }

  /** After maintenance: what is left of the jobs, unexpired and still fresh. */
  lemma MaintainedJobs(a: Inner, now: nat, b: Inner)
    requires Maintained(a, now, b)
    ensures forall id :: id in b.jobs ==> id in a.jobs && b.jobs[id] == ExpireJob(a.jobs[id], now)
    ensures Within(b.jobs, Expired(a.jobs, now))
  {
  }

  lemma MaintainedKeeps(a: Inner, now: nat, b: Inner)
    requires Inv(a) && Maintained(a, now, b)
    ensures Inv(b)
  {
    MaintainedJobs(a, now, b);
    ExpiredKeeps(a.jobs, a.issued, now);
    WithinKeeps(b.jobs, Expired(a.jobs, now), a.issued);
    assert |Expired(a.jobs, now)| == |a.jobs| by {
      assert Expired(a.jobs, now).Keys == a.jobs.Keys;
    }
    PendingOnlyMembers(a.queue, b.jobs);
    PendingOnlyOrdered(a.queue, a.jobs, b.jobs);
  }

  // ---------------------------------------------- operations keep invariants

  /** Replacing one job's state, by one that claims no new connection. */
  lemma RestateKeeps(jobs: map<JobId, Job>, issued: nat, id: JobId, s: State)
    requires JobsInv(jobs, issued) && id in jobs
    requires Active(s) ==> Active(jobs[id].state)
    requires s.Complete? ==> s.finished < jobs[id].deadline
    requires forall c :: Correlates(s, c) ==> forall x :: x in jobs && x != id ==> !Correlates(jobs[x].state, c)
    ensures JobsInv(jobs[id := jobs[id].(state := s)], issued)
    ensures |jobs[id := jobs[id].(state := s)]| == |jobs|
  {
    var b := jobs[id := jobs[id].(state := s)];
    ActiveShrinks(jobs, b);
    assert b.Keys == jobs.Keys;
  }

  lemma RestateKeepsInv(a: Inner, id: JobId, s: State)
    requires Inv(a) && id in a.jobs && !s.Pending?
    requires Active(s) ==> Active(a.jobs[id].state)
    requires s.Complete? ==> s.finished < a.jobs[id].deadline
    requires forall c :: Correlates(s, c) ==> forall x :: x in a.jobs && x != id ==> !Correlates(a.jobs[x].state, c)
    ensures Inv(a.(jobs := a.jobs[id := a.jobs[id].(state := s)]))
  {
    RestateKeeps(a.jobs, a.issued, id, s);
  }

  lemma EnqueueKeeps(m: Inner, b: Inner, request: Request, deadline: nat, r: Result<JobId, Refusal>)
    requires Inv(m) && EnqueueOn(m, b, request, deadline, r)
    ensures Inv(b)
  {
    if r.Ok? {
      EnqueueKeepsFewActive(m, b, request, r.value);
      assert |b.jobs| == |m.jobs| + 1;
      assert forall c, x :: x in b.jobs && Correlates(b.jobs[x].state, c) ==> x in m.jobs && b.jobs[x] == m.jobs[x];
    }
  }

  lemma EnqueueKeepsFewActive(m: Inner, b: Inner, request: Request, id: JobId)
    requires FewActive(m.jobs) && |ActiveFor(m.jobs, request.key)| < MAX_ACTIVE_PER_TARGET
    requires id !in m.jobs && id in b.jobs && b.jobs == m.jobs[id := b.jobs[id]]
    requires b.jobs[id].target == request.key && b.jobs[id].state == Pending
    ensures FewActive(b.jobs)
  {
    forall target ensures |ActiveFor(b.jobs, target)| <= MAX_ACTIVE_PER_TARGET {
      var before := ActiveFor(m.jobs, target);
      if target == request.key {
        assert ActiveFor(b.jobs, target) == before + {id};
      } else {
        assert ActiveFor(b.jobs, target) == before;
      }
    }
  }

  /** Taking the job at `k` off the queue, once it is no longer pending. */
  lemma TakingKeepsOrder(queue: seq<JobId>, k: nat, rest: seq<JobId>, jobs: map<JobId, Job>)
    requires QueueOrdered(queue, jobs) && k < |queue| && rest == queue[..k] + queue[k + 1..]
    ensures QueueOrdered(rest, jobs)
  {
    RemovedPlaces(queue, k, rest);
    forall i, j | 0 <= i < j < |rest| ensures jobs[rest[i]].ticket < jobs[rest[j]].ticket {
      var i', j' := if i < k then i else i + 1, if j < k then j else j + 1;
      assert rest[i] == queue[i'] && rest[j] == queue[j'];
    }
  }

  lemma TakingKeepsPending(queue: seq<JobId>, k: nat, rest: seq<JobId>, jobs: map<JobId, Job>)
    requires PendingQueued(queue, jobs) && k < |queue| && rest == queue[..k] + queue[k + 1..]
    requires queue[k] in jobs && !jobs[queue[k]].state.Pending?
    ensures PendingQueued(rest, jobs)
  {
    RemovedPlaces(queue, k, rest);
    forall id | id in jobs && jobs[id].state.Pending? ensures id in rest {
      var i :| 0 <= i < |queue| && queue[i] == id;
      assert rest[if i < k then i else i - 1] == id;
    }
  }

  lemma RemovedPlaces(queue: seq<JobId>, k: nat, rest: seq<JobId>)
    requires k < |queue| && rest == queue[..k] + queue[k + 1..]
    ensures |rest| == |queue| - 1
    ensures forall i :: 0 <= i < |rest| ==> rest[i] == if i < k then queue[i] else queue[i + 1]
  {
  }

  lemma LeaseKeeps(m: Inner, b: Inner, target: ProcessKey, c: ConnId, r: Option<JobId>)
    requires Inv(m) && LeaseOn(m, b, target, c, r)
    ensures Inv(b)
  {
    if r.Some? {
      var k := FirstFor(m.queue, m.jobs, target);
      RestateKeepsInv(m, r.value, Running(c));
      TakingKeepsOrder(m.queue, k, b.queue, b.jobs);
      TakingKeepsPending(m.queue, k, b.queue, b.jobs);
    }
  }

  lemma UploadKeeps(m: Inner, b: Inner, c: ConnId, error: int, detail: string, later: nat, r: Option<JobId>)
    requires Inv(m) && UploadOn(m, b, c, error, detail, later, r)
    ensures Inv(b)
  {
    if r.Some? {
      var s := Uploaded(m.jobs[r.value].state, error, detail, later);
      RestateKeepsInv(m, r.value, s);
    }
  }

  lemma ExpiredKeepsInv(a: Inner, now: nat)
    requires Inv(a)
    ensures Inv(a.(jobs := Expired(a.jobs, now)))
  {
    ExpiredKeeps(a.jobs, a.issued, now);
    assert |Expired(a.jobs, now)| == |a.jobs| by {
      assert Expired(a.jobs, now).Keys == a.jobs.Keys;
    }
  }

  lemma CompleteKeeps(a: Inner, id: JobId, artifact: string, now: nat)
    requires Inv(a)
    ensures Inv(Completed(a, id, artifact, now).0)
  {
    var e := a.(jobs := Expired(a.jobs, now));
    ExpiredKeepsInv(a, now);
    if id in e.jobs && e.jobs[id].state.Running? {
      RestateKeepsInv(e, id, Complete(artifact, now));
    }
  }

  lemma StepKeepsInv(a: Inner, call: Call, m: Inner, b: Inner)
    requires Inv(a) && Step(a, call, m, b)
    ensures Inv(m) && Inv(b)
  {
    if Maintains(call) {
      MaintainedKeeps(a, call.now, m);
    }
    match call
    case Enqueue(request, requested, now, r) => EnqueueKeeps(m, b, request, Deadline(now, requested), r);
    case Lease(target, c, _, r) => LeaseKeeps(m, b, target, c, r);
    case AcceptUpload(c, error, detail, _, later, r) => UploadKeeps(m, b, c, error, detail, later, r);
    case CompleteJob(id, artifact, now, _) => CompleteKeeps(m, id, artifact, now);
    case FailJob(id, error, detail, now) =>
      if id in m.jobs && Active(m.jobs[id].state) {
        RestateKeepsInv(m, id, Failed(error, detail, now, None));
      }
    case Status(_, _) =>
  }

  /** The invariant holds at every point of every run. */
  lemma {:induction false} RunKeepsInv(run: Run, i: nat)
    requires IsRun(run) && i <= |run.calls|
    ensures Inv(run.states[i])
  {
    if i == 0 {
      assert forall target :: ActiveFor(map[], target) == {};
    } else {
      RunKeepsInv(run, i - 1);
      StepKeepsInv(run.states[i - 1], run.calls[i - 1], run.maintained[i - 1], run.states[i]);
    }
  }

  lemma RunKeepsMaintained(run: Run, i: nat)
    requires IsRun(run) && i < |run.calls|
    ensures Inv(run.maintained[i])
  {
    RunKeepsInv(run, i);
    StepKeepsInv(run.states[i], run.calls[i], run.maintained[i], run.states[i + 1]);
  }

  // ----------------------------------------------------------- main results

  /** In every reachable state a connection correlates with at most one job, so the
      search for the uploading connection's job has at most one answer. */
  lemma AtMostOneJobPerConnection(run: Run, i: nat, c: ConnId, x: JobId, y: JobId)
    requires IsRun(run) && i <= |run.calls|
    requires x in run.states[i].jobs && y in run.states[i].jobs
    requires Correlates(run.states[i].jobs[x].state, c)
    requires Correlates(run.states[i].jobs[y].state, c)
    ensures x == y
  {
    RunKeepsInv(run, i);
  }

  /** In every reachable state: at most 1024 jobs, at most 32 active ones per
      target, every request addressed to its job's target, and every complete job
      finished before its deadline. */
  lemma BoundsHold(run: Run, i: nat, target: ProcessKey)
    requires IsRun(run) && i <= |run.calls|
    ensures |run.states[i].jobs| <= MAX_TOTAL_JOBS
    ensures |ActiveFor(run.states[i].jobs, target)| <= MAX_ACTIVE_PER_TARGET
    ensures forall id, job :: id in run.states[i].jobs && job == run.states[i].jobs[id] ==>
              && job.request.key == job.target
              && (job.state.Complete? ==> job.state.finished < job.deadline)
  {
    RunKeepsInv(run, i);
  }

  /** In every reachable state the queue has no duplicates and no unknown ids, and
      every pending job stands in it at exactly one place. */
  lemma QueueIsExact(run: Run, i: nat, id: JobId)
    requires IsRun(run) && i <= |run.calls|
    ensures id in run.states[i].queue ==> id in run.states[i].jobs
    ensures id in run.states[i].jobs && run.states[i].jobs[id].state.Pending? ==>
              multiset(run.states[i].queue)[id] == 1
    ensures multiset(run.states[i].queue)[id] <= 1
  {
    RunKeepsInv(run, i);
    var s := run.states[i];
    OrderedHasNoDuplicates(s.queue, s.jobs, id);
    if id in s.queue {
      assert id in multiset(s.queue);
    }
  }

  lemma {:induction false} OrderedHasNoDuplicates(queue: seq<JobId>, jobs: map<JobId, Job>, id: JobId)
    requires QueueOrdered(queue, jobs)
    ensures multiset(queue)[id] <= 1
  {
    if queue != [] {
      var n := |queue| - 1;
      OrderedHasNoDuplicates(queue[..n], jobs, id);
      assert queue == queue[..n] + [queue[n]];
      if id == queue[n] {
        assert id !in queue[..n];
      }
    }
  }

  lemma LeaseTakesFirst(m: Inner, b: Inner, target: ProcessKey, c: ConnId, id: JobId, other: JobId)
    requires QueueOrdered(m.queue, m.jobs) && PendingQueued(m.queue, m.jobs)
    requires LeaseOn(m, b, target, c, Some(id)) && WaitsFor(other, b.jobs, target)
    ensures WaitsFor(id, m.jobs, target) && WaitsFor(other, m.jobs, target)
    ensures m.jobs[id].ticket < m.jobs[other].ticket
  {
    var k := FirstFor(m.queue, m.jobs, target);
    var j :| 0 <= j < |m.queue| && m.queue[j] == other;
    assert k < j;
  }

  /** Jobs of one target are leased in the order they were enqueued: whatever is
      still pending for the target after a lease was enqueued later. */
  lemma LeasedInOrder(run: Run, i: nat, id: JobId, other: JobId)
    requires IsRun(run) && i < |run.calls|
    requires run.calls[i].Lease? && run.calls[i].leased == Some(id)
    requires WaitsFor(other, run.states[i + 1].jobs, run.calls[i].target)
    ensures WaitsFor(id, run.states[i].jobs, run.calls[i].target)
    ensures WaitsFor(other, run.states[i].jobs, run.calls[i].target)
    ensures run.states[i].jobs[id].ticket < run.states[i].jobs[other].ticket
  {
    var a, call, m := run.states[i], run.calls[i], run.maintained[i];
    assert QueueOrdered(m.queue, m.jobs) && PendingQueued(m.queue, m.jobs) by {
      RunKeepsMaintained(run, i);
    }
    LeaseTakesFirst(m, run.states[i + 1], call.target, call.conn, id, other);
    MaintainedJobs(a, call.now, m);
  }

  /** A job's ticket is its rank in the enqueueing order: the next one is larger
      than all before. */
  lemma TicketsGrow(a: Inner, call: Call, m: Inner, b: Inner)
    requires Step(a, call, m, b)
    ensures a.issued <= b.issued
    ensures call.Enqueue? && call.receipt.Ok? ==>
              b.jobs[call.receipt.value].ticket == a.issued && b.issued == a.issued + 1
  {
  }

  ghost function UnexpiredActive(jobs: map<JobId, Job>, now: nat): set<JobId> {
    set id | id in jobs && Active(jobs[id].state) && now < jobs[id].deadline
  }

  /** `enqueue` refuses for total capacity exactly when 1024 active jobs are left
      that have not expired. */
  lemma RefusesExactlyWhenFull(a: Inner, request: Request, requested: nat, now: nat,
                               r: Result<JobId, Refusal>, m: Inner, b: Inner)
    requires Inv(a) && Step(a, Enqueue(request, requested, now, r), m, b)
    ensures r == Err(CapacityReached) <==> |UnexpiredActive(a.jobs, now)| == MAX_TOTAL_JOBS
  {
    var live := UnexpiredActive(a.jobs, now);
    Sets.SubsetSize(live, a.jobs.Keys);
    if |live| == MAX_TOTAL_JOBS {
      Sets.FullSubset(live, a.jobs.Keys);
      AllLiveStay(a, now, m);
    } else if |m.jobs| >= MAX_TOTAL_JOBS {
      FullMeansLive(a, now, m);
    }
  }

  lemma AllLiveStay(a: Inner, now: nat, m: Inner)
    requires Maintained(a, now, m) && UnexpiredActive(a.jobs, now) == a.jobs.Keys && |a.jobs| >= MAX_TOTAL_JOBS
    ensures m.jobs == a.jobs
  {
    assert Retained(Expired(a.jobs, now), now) == a.jobs;
  }

  lemma FullMeansLive(a: Inner, now: nat, m: Inner)
    requires Maintained(a, now, m) && |m.jobs| >= MAX_TOTAL_JOBS
    ensures |UnexpiredActive(a.jobs, now)| >= MAX_TOTAL_JOBS
  {
    var kept := Retained(Expired(a.jobs, now), now);
    Sets.SubsetSize(m.jobs.Keys, kept.Keys);
    assert m.jobs.Keys <= UnexpiredActive(a.jobs, now);
    Sets.SubsetSize(m.jobs.Keys, UnexpiredActive(a.jobs, now));
  }

  // -------------------------------------------------- states only move forward

  predicate Forward(p: State, q: State) {
    match p
    case Pending => true
    case Running(_) => q == p || q.Complete? || q.Failed?
    case Complete(_, _) => q == p
    case Failed(_, _, _, _) => q == p || q == p.(late := None)
  }

  /** The same job, further along. */
  predicate Later(x: Job, y: Job) {
    x.(state := y.state) == y && Forward(x.state, y.state)
  }

  lemma ActionMovesForward(m: Inner, call: Call, b: Inner, id: JobId)
    requires Acts(m, call, b)
    requires id in b.jobs && b.jobs[id].ticket < m.issued
    ensures id in m.jobs && Later(m.jobs[id], b.jobs[id])
    ensures b.jobs[id].state.Complete? && !m.jobs[id].state.Complete? ==>
              m.jobs[id].state.Running? && call.CompleteJob? && call.id == id && call.now < m.jobs[id].deadline
  {
  }

  lemma StepMovesForward(a: Inner, call: Call, m: Inner, b: Inner, id: JobId)
    requires Step(a, call, m, b)
    requires id in b.jobs && b.jobs[id].ticket < a.issued
    ensures id in a.jobs && Later(a.jobs[id], b.jobs[id])
    ensures b.jobs[id].state.Complete? && !a.jobs[id].state.Complete? ==>
              a.jobs[id].state.Running? && call.CompleteJob? && call.id == id && call.now < a.jobs[id].deadline
  {
    ActionMovesForward(m, call, b, id);
    if Maintains(call) {
      MaintainedJobs(a, call.now, m);
    }
  }

  /** Over any part of a run, a job that is still there is the same job, in a state
      its old state leads to; finished jobs keep their kind and their result. */
  lemma {:induction false} JobsMoveForward(run: Run, i: nat, j: nat, id: JobId)
    requires IsRun(run) && i <= j <= |run.calls|
    requires id in run.states[j].jobs
    requires run.states[j].jobs[id].ticket < run.states[i].issued
    ensures id in run.states[i].jobs
    ensures Later(run.states[i].jobs[id], run.states[j].jobs[id])
    decreases j
  {
    if i < j {
      IssuedGrows(run, i, j - 1);
      StepMovesForward(run.states[j - 1], run.calls[j - 1], run.maintained[j - 1], run.states[j], id);
      JobsMoveForward(run, i, j - 1, id);
      LaterIsTransitive(run.states[i].jobs[id], run.states[j - 1].jobs[id], run.states[j].jobs[id]);
    }
  }

  lemma LaterIsTransitive(x: Job, y: Job, z: Job)
    requires Later(x, y) && Later(y, z)
    ensures Later(x, z)
  {
  }

  lemma {:induction false} IssuedGrows(run: Run, i: nat, j: nat)
    requires IsRun(run) && i <= j <= |run.calls|
    ensures run.states[i].issued <= run.states[j].issued
    decreases j
  {
    if i < j {
      IssuedGrows(run, i, j - 1);
      TicketsGrow(run.states[j - 1], run.calls[j - 1], run.maintained[j - 1], run.states[j]);
    }
  }

  // ------------------------------------------------------ late replies, once

  predicate LeasesTo(call: Call, c: ConnId) {
    call.Lease? && call.conn == c && call.leased.Some?
  }

  lemma ActionCorrelatesOnlyByLease(m: Inner, call: Call, b: Inner, c: ConnId)
    requires Acts(m, call, b) && !Busy(m.jobs, c) && !LeasesTo(call, c)
    ensures !Busy(b.jobs, c)
  {
    forall id | id in b.jobs ensures !Correlates(b.jobs[id].state, c) {
      assert id in m.jobs ==> !Correlates(m.jobs[id].state, c);
    }
  }

  lemma OnlyALeaseCorrelates(a: Inner, call: Call, m: Inner, b: Inner, c: ConnId)
    requires Step(a, call, m, b)
    requires !Busy(a.jobs, c) && !LeasesTo(call, c)
    ensures !Busy(m.jobs, c) && !Busy(b.jobs, c)
  {
    if Maintains(call) {
      MaintainedJobs(a, call.now, m);
    }
    ActionCorrelatesOnlyByLease(m, call, b, c);
  }

  lemma {:induction false} UncorrelatedUntilLeased(run: Run, i: nat, j: nat, c: ConnId)
    requires IsRun(run) && i <= j <= |run.calls|
    requires !Busy(run.states[i].jobs, c)
    requires forall k :: i <= k < j ==> !LeasesTo(run.calls[k], c)
    ensures !Busy(run.states[j].jobs, c)
    decreases j
  {
    if i < j {
      UncorrelatedUntilLeased(run, i, j - 1, c);
      OnlyALeaseCorrelates(run.states[j - 1], run.calls[j - 1], run.maintained[j - 1], run.states[j], c);
    }
  }

  lemma LateReplyFreesConnection(m: Inner, b: Inner, c: ConnId, error: int, detail: string, later: nat, id: JobId)
    requires OneJobPerConnection(m.jobs)
    requires UploadOn(m, b, c, error, detail, later, Some(id)) && m.jobs[id].state.Failed?
    ensures !Busy(b.jobs, c)
  {
  }

  /** A late reply is consumed once: until the connection leases again, its next
      upload finds no job. */
  lemma LateReplyConsumedOnce(run: Run, i: nat, j: nat, c: ConnId, id: JobId)
    requires IsRun(run) && i < j < |run.calls|
    requires run.calls[i].AcceptUpload? && run.calls[i].conn == c && run.calls[i].job == Some(id)
    requires id in run.maintained[i].jobs && run.maintained[i].jobs[id].state.Failed?
    requires forall k :: i < k < j ==> !LeasesTo(run.calls[k], c)
    requires run.calls[j].AcceptUpload? && run.calls[j].conn == c
    ensures run.calls[j].job == None
  {
    var call, m := run.calls[i], run.maintained[i];
    assert OneJobPerConnection(m.jobs) by {
      RunKeepsMaintained(run, i);
    }
    LateReplyFreesConnection(m, run.states[i + 1], c, call.error, call.detail, call.later, id);
    UncorrelatedUntilLeased(run, i + 1, j, c);
    OnlyALeaseCorrelates(run.states[j], run.calls[j], run.maintained[j], run.states[j + 1], c);
  }

  lemma RunningSurvivesMaintenance(a: Inner, now: nat, m: Inner, id: JobId)
    requires Maintained(a, now, m) && id in a.jobs && a.jobs[id].state.Running? && now < a.jobs[id].deadline
    ensures id in m.jobs && m.jobs[id] == a.jobs[id]
  {
    var kept := Retained(Expired(a.jobs, now), now);
    assert id in kept && kept[id] == a.jobs[id];
  }

  lemma RunningIsMatched(a: Inner, call: Call, m: Inner, b: Inner, id: JobId)
    requires Step(a, call, m, b) && Inv(m) && call.AcceptUpload?
    requires id in a.jobs && a.jobs[id].state == Running(call.conn) && call.now < a.jobs[id].deadline
    ensures call.job == Some(id)
  {
    RunningSurvivesMaintenance(a, call.now, m, id);
    assert Correlates(m.jobs[id].state, call.conn);
  }

  /** As long as a job runs, an upload over its connection before its deadline is the
      upload of this job. */
  lemma RunningJobIsFound(run: Run, i: nat, id: JobId)
    requires IsRun(run) && i < |run.calls| && run.calls[i].AcceptUpload?
    requires id in run.states[i].jobs && run.states[i].jobs[id].state == Running(run.calls[i].conn)
    requires run.calls[i].now < run.states[i].jobs[id].deadline
    ensures run.calls[i].job == Some(id)
  {
    RunKeepsMaintained(run, i);
    RunTakesStep(run, i);
    RunningIsMatched(run.states[i], run.calls[i], run.maintained[i], run.states[i + 1], id);
  }

  lemma UploadInTimeChangesNothing(m: Inner, b: Inner, c: ConnId, detail: string, later: nat, r: Option<JobId>)
    requires UploadOn(m, b, c, 0, detail, later, r)
    requires r.Some? && r.value in m.jobs && m.jobs[r.value].state == Running(c)
    ensures b == m
  {
    assert m.jobs[r.value].(state := Running(c)) == m.jobs[r.value];
    assert m.jobs[r.value := m.jobs[r.value]] == m.jobs;
  }

  /** An upload in time does not end the lease: the job keeps running on the same
      connection, and a second upload before the deadline finds it again. */
  lemma UploadInTimeKeepsLease(run: Run, i: nat, id: JobId)
    requires IsRun(run) && i + 1 < |run.calls|
    requires run.calls[i].AcceptUpload? && run.calls[i].error == 0 && run.calls[i].job == Some(id)
    requires id in run.maintained[i].jobs && run.maintained[i].jobs[id].state == Running(run.calls[i].conn)
    ensures run.states[i + 1] == run.maintained[i]
    ensures var again := run.calls[i + 1];
            again.AcceptUpload? && again.conn == run.calls[i].conn && again.now < run.maintained[i].jobs[id].deadline ==>
              again.job == Some(id)
  {
    var call := run.calls[i];
    RunTakesStep(run, i);
    UploadInTimeChangesNothing(run.maintained[i], run.states[i + 1], call.conn, call.detail, call.later, call.job);
    var again := run.calls[i + 1];
    if again.AcceptUpload? && again.conn == call.conn && again.now < run.maintained[i].jobs[id].deadline {
      RunningJobIsFound(run, i + 1, id);
    }
  }
}
