/**
 The daemon's request core over its two stores
 (crates/running-process-probe-daemon/src/probe_ops.rs).

 The registry and the capture scheduler have a lock each, so a request that uses
 both takes two steps, and other requests run in between: a capture request looks
 at the registry first and enqueues later, a heartbeat is noted first and leases
 later. `granted` and `beats` are the requests that are between their two steps.
 */
module ProbeDaemon {
  import opened Wrappers
  import opened Identity
  import R = Registrations
  import J = CaptureJobs

  const STACK_CAPTURE := "stack_capture"

  datatype Beat = Beat(key: ProcessKey, conn: nat)

  datatype Daemon = Daemon(
    registry: R.Registry, jobs: J.Inner, granted: multiset<ProcessKey>, beats: multiset<Beat>)

  const Started := Daemon(R.Empty, J.Empty, multiset{}, multiset{})

  datatype Step =
    | Note(event: R.Event)
    | Consult(key: ProcessKey)
    | Schedule(call: J.Call, maintained: J.Inner)

  /** The target is armed, permits every operation and offers stack captures. */
  predicate Permits(r: R.Registry, key: ProcessKey) {
    && key in r.entries
    && r.entries[key].state == R.Armed
    && r.entries[key].claim.allowAllOps
    && STACK_CAPTURE in r.entries[key].claim.supportedOps
  }

  predicate Answers(r: R.Registry, e: R.Event) {
    e.Heartbeat? && R.Beats(r, e.key, e.conn)
  }

  /** The request in flight that a scheduler call carries on. */
  predicate InFlight(d: Daemon, call: J.Call) {
    match call
    case Enqueue(request, _, _, _) => request.key in d.granted
    case Lease(target, conn, _, _) => Beat(target, conn) in d.beats
    case _ => true
  }

  function Landed(d: Daemon, call: J.Call): Daemon {
    match call
    case Enqueue(request, _, _, _) => d.(granted := d.granted - multiset{request.key})
    case Lease(target, conn, _, _) => d.(beats := d.beats - multiset{Beat(target, conn)})
    case _ => d
  }

  ghost predicate Moves(owner: string, d: Daemon, s: Step, e: Daemon) {
    match s
    case Note(event) =>
      e == d.(registry := R.Next(owner, d.registry, event),
              beats := if Answers(d.registry, event) then d.beats + multiset{Beat(event.key, event.conn)} else d.beats)
    case Consult(key) =>
      e == if Permits(d.registry, key) then d.(granted := d.granted + multiset{key}) else d
    case Schedule(call, m) =>
      && InFlight(d, call)
      && J.Step(d.jobs, call, m, e.jobs)
      && e == Landed(d, call).(jobs := e.jobs)
  }

  datatype Run = Run(owner: string, states: seq<Daemon>, steps: seq<Step>)

  ghost predicate IsRun(run: Run) {
    && |run.states| == |run.steps| + 1
    && run.states[0] == Started
    && forall i :: 0 <= i < |run.steps| ==> Moves(run.owner, run.states[i], run.steps[i], run.states[i + 1])
  }

  // ------------------------------------------------------- parts of the run

  /** The registry's part of a run. */
  function Events(steps: seq<Step>): seq<R.Event> {
    if steps == [] then []
    else
      var n := |steps| - 1;
      Events(steps[..n]) + if steps[n].Note? then [steps[n].event] else []
  }

  lemma OneMoreEvent(owner: string, events: seq<R.Event>, event: R.Event)
    ensures R.After(owner, events + [event]) == R.Next(owner, R.After(owner, events), event)
  {
    assert (events + [event])[..|events|] == events;
  }

  lemma OneMoreStep(steps: seq<Step>, s: Step)
    ensures Events(steps + [s]) == if s.Note? then Events(steps) + [s.event] else Events(steps)
  {
    assert (steps + [s])[..|steps|] == steps;
    assert Events(steps) + [] == Events(steps);
  }

  lemma RegistryMoves(owner: string, d: Daemon, s: Step, e: Daemon)
    requires Moves(owner, d, s, e)
    ensures e.registry == if s.Note? then R.Next(owner, d.registry, s.event) else d.registry
  {
  }

  lemma {:induction false} RegistryFollowsEvents(run: Run, i: nat)
    requires IsRun(run) && i <= |run.steps|
    ensures run.states[i].registry == R.After(run.owner, Events(run.steps[..i]))
  {
    if i > 0 {
      RegistryFollowsEvents(run, i - 1);
      var s := run.steps[i - 1];
      RegistryMoves(run.owner, run.states[i - 1], s, run.states[i]);
      assert run.steps[..i] == run.steps[..i - 1] + [s];
      OneMoreStep(run.steps[..i - 1], s);
      if s.Note? {
        OneMoreEvent(run.owner, Events(run.steps[..i - 1]), s.event);
      }
    }
  }

  /** At step `j` the registry was asked about `key`, and permitted the capture. */
  ghost predicate PermittedAt(run: Run, j: nat, key: ProcessKey)
    requires |run.states| == |run.steps| + 1
  {
    j < |run.steps| && run.steps[j] == Consult(key) && Permits(run.states[j].registry, key)
  }

  /** At step `j` the registration of `key` gave a sign of life over `conn`. */
  ghost predicate BeatAt(run: Run, j: nat, key: ProcessKey, conn: nat)
    requires |run.states| == |run.steps| + 1
  {
    && j < |run.steps| && run.steps[j].Note?
    && Answers(run.states[j].registry, run.steps[j].event)
    && run.steps[j].event.key == key && run.steps[j].event.conn == conn
  }

  ghost predicate PermittedBefore(run: Run, i: nat, key: ProcessKey)
    requires |run.states| == |run.steps| + 1
  {
    exists j :: 0 <= j < i && PermittedAt(run, j, key)
  }

  ghost predicate BeatBefore(run: Run, i: nat, key: ProcessKey, conn: nat)
    requires |run.states| == |run.steps| + 1
  {
    exists j :: 0 <= j < i && BeatAt(run, j, key, conn)
  }

  // ------------------------------------------------- where requests come from

  lemma {:induction false} GrantsWerePermitted(run: Run, i: nat, key: ProcessKey)
    requires IsRun(run) && i <= |run.steps| && key in run.states[i].granted
    ensures PermittedBefore(run, i, key)
  {
    if i > 0 {
      assert Moves(run.owner, run.states[i - 1], run.steps[i - 1], run.states[i]);
      if key in run.states[i - 1].granted {
        GrantsWerePermitted(run, i - 1, key);
      } else {
        assert PermittedAt(run, i - 1, key);
      }
    }
  }

  lemma {:induction false} BeatsWereNoted(run: Run, i: nat, key: ProcessKey, conn: nat)
    requires IsRun(run) && i <= |run.steps| && Beat(key, conn) in run.states[i].beats
    ensures BeatBefore(run, i, key, conn)
  {
    if i > 0 {
      assert Moves(run.owner, run.states[i - 1], run.steps[i - 1], run.states[i]);
      if Beat(key, conn) in run.states[i - 1].beats {
        BeatsWereNoted(run, i - 1, key, conn);
      } else {
        assert BeatAt(run, i - 1, key, conn);
      }
    }
  }

  // ------------------------------------------------------- where jobs come from

  /** A job is there before a call, with the same target, or the call enqueues it. */
  lemma JobsComeFromEnqueue(a: J.Inner, call: J.Call, m: J.Inner, b: J.Inner, id: J.JobId)
    requires J.Step(a, call, m, b) && id in b.jobs
    ensures || (id in a.jobs && a.jobs[id].target == b.jobs[id].target)
            || (call.Enqueue? && call.receipt == Ok(id) && b.jobs[id].target == call.request.key)
  {
    assert id in m.jobs ==> id in a.jobs && a.jobs[id].target == m.jobs[id].target;
  }

  lemma MaintenanceAddsNoHolder(a: J.Inner, now: nat, m: J.Inner, id: J.JobId, conn: nat)
    requires J.Maintained(a, now, m) && id in m.jobs
    ensures id in a.jobs && a.jobs[id].target == m.jobs[id].target
    ensures J.Correlates(m.jobs[id].state, conn) ==> J.Correlates(a.jobs[id].state, conn)
  {
  }

  lemma ActionHoldsByLease(m: J.Inner, call: J.Call, b: J.Inner, id: J.JobId, conn: nat)
    requires J.Acts(m, call, b) && id in b.jobs && J.Correlates(b.jobs[id].state, conn)
    ensures || (id in m.jobs && m.jobs[id].target == b.jobs[id].target && J.Correlates(m.jobs[id].state, conn))
            || (call.Lease? && call.leased == Some(id) && call.conn == conn && b.jobs[id].target == call.target)
  {
  }

  /** A job belongs to a connection before a call, or the call leases it there. */
  lemma HoldersComeFromLease(a: J.Inner, call: J.Call, m: J.Inner, b: J.Inner, id: J.JobId, conn: nat)
    requires J.Step(a, call, m, b) && id in b.jobs && J.Correlates(b.jobs[id].state, conn)
    ensures || (id in a.jobs && a.jobs[id].target == b.jobs[id].target && J.Correlates(a.jobs[id].state, conn))
            || (call.Lease? && call.leased == Some(id) && call.conn == conn && b.jobs[id].target == call.target)
  {
    ActionHoldsByLease(m, call, b, id, conn);
    if J.Maintains(call) && id in m.jobs {
      MaintenanceAddsNoHolder(a, call.now, m, id, conn);
    }
  }

  lemma OthersKeepJobs(owner: string, d: Daemon, s: Step, e: Daemon)
    requires Moves(owner, d, s, e)
    ensures !s.Schedule? ==> e.jobs == d.jobs
    ensures s.Schedule? ==> J.Step(d.jobs, s.call, s.maintained, e.jobs) && InFlight(d, s.call)
  {
  }

  lemma JobWasThereOrGranted(owner: string, d: Daemon, s: Step, e: Daemon, id: J.JobId)
    requires Moves(owner, d, s, e) && id in e.jobs.jobs
    ensures || (id in d.jobs.jobs && d.jobs.jobs[id].target == e.jobs.jobs[id].target)
            || e.jobs.jobs[id].target in d.granted
  {
    OthersKeepJobs(owner, d, s, e);
    if s.Schedule? {
      JobsComeFromEnqueue(d.jobs, s.call, s.maintained, e.jobs, id);
    }
  }

  lemma HolderWasThereOrBeat(owner: string, d: Daemon, s: Step, e: Daemon, id: J.JobId, conn: nat)
    requires Moves(owner, d, s, e) && id in e.jobs.jobs && J.Correlates(e.jobs.jobs[id].state, conn)
    ensures || (id in d.jobs.jobs && d.jobs.jobs[id].target == e.jobs.jobs[id].target
                && J.Correlates(d.jobs.jobs[id].state, conn))
            || Beat(e.jobs.jobs[id].target, conn) in d.beats
  {
    OthersKeepJobs(owner, d, s, e);
    if s.Schedule? {
      HoldersComeFromLease(d.jobs, s.call, s.maintained, e.jobs, id, conn);
    }
  }

  lemma JobStep(run: Run, i: nat, id: J.JobId)
    requires IsRun(run) && i < |run.steps| && id in run.states[i + 1].jobs.jobs
    ensures var d, e := run.states[i], run.states[i + 1];
            || (id in d.jobs.jobs && d.jobs.jobs[id].target == e.jobs.jobs[id].target)
            || e.jobs.jobs[id].target in d.granted
  {
    JobWasThereOrGranted(run.owner, run.states[i], run.steps[i], run.states[i + 1], id);
  }

  lemma HolderStep(run: Run, i: nat, id: J.JobId, conn: nat)
    requires IsRun(run) && i < |run.steps| && id in run.states[i + 1].jobs.jobs
    requires J.Correlates(run.states[i + 1].jobs.jobs[id].state, conn)
    ensures var d, e := run.states[i], run.states[i + 1];
            || (id in d.jobs.jobs && d.jobs.jobs[id].target == e.jobs.jobs[id].target
                && J.Correlates(d.jobs.jobs[id].state, conn))
            || Beat(e.jobs.jobs[id].target, conn) in d.beats
  {
    HolderWasThereOrBeat(run.owner, run.states[i], run.steps[i], run.states[i + 1], id, conn);
  }

  /** However requests interleave, every job was permitted: at some earlier moment
      its target was armed, allowed all operations and offered stack captures. */
  lemma {:induction false} EveryJobWasPermitted(run: Run, i: nat, id: J.JobId)
    requires IsRun(run) && i <= |run.steps| && id in run.states[i].jobs.jobs
    ensures PermittedBefore(run, i, run.states[i].jobs.jobs[id].target)
  {
    if i > 0 {
      JobStep(run, i - 1, id);
      var target, jobs := run.states[i].jobs.jobs[id].target, run.states[i - 1].jobs.jobs;
      if id in jobs && jobs[id].target == target {
        EveryJobWasPermitted(run, i - 1, id);
      } else {
        GrantsWerePermitted(run, i - 1, target);
      }
    }
  }

  /** A job only ever runs on, or waits for a late reply from, a connection over which
      the target's own registration had given a sign of life. */
  lemma {:induction false} EveryHolderWasRegistered(run: Run, i: nat, id: J.JobId, conn: nat)
    requires IsRun(run) && i <= |run.steps| && id in run.states[i].jobs.jobs
    requires J.Correlates(run.states[i].jobs.jobs[id].state, conn)
    ensures BeatBefore(run, i, run.states[i].jobs.jobs[id].target, conn)
  {
    if i > 0 {
      HolderStep(run, i - 1, id, conn);
      var target, jobs := run.states[i].jobs.jobs[id].target, run.states[i - 1].jobs.jobs;
      if id in jobs && jobs[id].target == target && J.Correlates(jobs[id].state, conn) {
        EveryHolderWasRegistered(run, i - 1, id, conn);
      } else {
        BeatsWereNoted(run, i - 1, target, conn);
      }
    }
  }

  /** So every captured process was registered by the daemon's owner, and since that
      registration a verdict for its key had been clean. The verdict may be that of an
      overlapping request for the same key; `RegisterRequests` says exactly when it is. */
  lemma CapturedOnlyIfVerified(run: Run, i: nat, id: J.JobId) returns (j: nat)
    requires IsRun(run) && i <= |run.steps| && id in run.states[i].jobs.jobs
    ensures j < i
    ensures var target := run.states[i].jobs.jobs[id].target;
            && target in run.states[j].registry.entries
            && run.states[j].registry.entries[target].peer.uidOrSid == run.owner
            && run.states[j].registry.entries[target].claim.allowAllOps
            && "stack_capture" in run.states[j].registry.entries[target].claim.supportedOps
            && R.CleanSinceBegin(run.owner, Events(run.steps[..j]), target)
  {
    var target := run.states[i].jobs.jobs[id].target;
    EveryJobWasPermitted(run, i, id);
    j :| 0 <= j < i && PermittedAt(run, j, target);
    RegistryFollowsEvents(run, j);
    R.ArmedExactlyWhenVerified(run.owner, Events(run.steps[..j]), target);
    R.EntriesBelongToOwner(run.owner, Events(run.steps[..j]), target);
  }

  // ------------------------------------------------ the scheduler's own runs

  /** The scheduler's part of a daemon's run is a run of the scheduler, so all that
      holds of its runs holds inside the daemon. */
  lemma {:induction false} SchedulerPart(run: Run, i: nat) returns (part: J.Run)
    requires IsRun(run) && i <= |run.steps|
    ensures J.IsRun(part) && part.states[|part.calls|] == run.states[i].jobs
  {
    if i == 0 {
      part := J.Run([J.Empty], [], []);
    } else {
      part := SchedulerPart(run, i - 1);
      var s := run.steps[i - 1];
      assert Moves(run.owner, run.states[i - 1], s, run.states[i]);
      if s.Schedule? {
        ExtendedRun(part, s.call, s.maintained, run.states[i].jobs);
        part := J.Run(part.states + [run.states[i].jobs], part.calls + [s.call], part.maintained + [s.maintained]);
      }
    }
  }

  lemma SameStep(a: J.Inner, call: J.Call, m: J.Inner, b: J.Inner, a': J.Inner, call': J.Call, m': J.Inner, b': J.Inner)
    requires J.Step(a, call, m, b) && a == a' && call == call' && m == m' && b == b'
    ensures J.Step(a', call', m', b')
  {
  }

  lemma ExtendedStep(part: J.Run, call: J.Call, m: J.Inner, b: J.Inner, i: nat)
    requires J.IsRun(part) && i < |part.calls|
    ensures J.Step((part.states + [b])[i], (part.calls + [call])[i], (part.maintained + [m])[i], (part.states + [b])[i + 1])
  {
    J.RunTakesStep(part, i);
    SameStep(part.states[i], part.calls[i], part.maintained[i], part.states[i + 1],
             (part.states + [b])[i], (part.calls + [call])[i], (part.maintained + [m])[i], (part.states + [b])[i + 1]);
  }

  lemma ExtendedRun(part: J.Run, call: J.Call, m: J.Inner, b: J.Inner)
    requires J.IsRun(part) && J.Step(part.states[|part.calls|], call, m, b)
    ensures J.IsRun(J.Run(part.states + [b], part.calls + [call], part.maintained + [m]))
  {
    forall i | 0 <= i < |part.calls| + 1
      ensures J.Step((part.states + [b])[i], (part.calls + [call])[i], (part.maintained + [m])[i], (part.states + [b])[i + 1])
    {
      if i < |part.calls| {
        ExtendedStep(part, call, m, b, i);
      }
    }
  }

  /** Whatever the interleaving, one connection holds at most one job, and that job's
      target had a registration on this very connection when it gave a heartbeat over it. */
  lemma ConnectionHoldsOneOwnJob(run: Run, i: nat, conn: nat, x: J.JobId, y: J.JobId) returns (j: nat)
    requires IsRun(run) && i <= |run.steps|
    requires x in run.states[i].jobs.jobs && J.Correlates(run.states[i].jobs.jobs[x].state, conn)
    requires y in run.states[i].jobs.jobs && J.Correlates(run.states[i].jobs.jobs[y].state, conn)
    ensures x == y && j < i
    ensures var target := run.states[i].jobs.jobs[x].target;
            && run.steps[j].Note? && run.steps[j].event.Heartbeat?
            && run.steps[j].event.key == target && run.steps[j].event.conn == conn
            && target in run.states[j].registry.entries && run.states[j].registry.entries[target].conn == conn
  {
    var part := SchedulerPart(run, i);
    J.AtMostOneJobPerConnection(part, |part.calls|, conn, x, y);
    EveryHolderWasRegistered(run, i, x, conn);
    j :| 0 <= j < i && BeatAt(run, j, run.states[i].jobs.jobs[x].target, conn);
  }
}
