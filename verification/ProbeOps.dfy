/**
 The daemon's request core as an object
 (crates/running-process-probe-daemon/src/probe_ops.rs): it checks the peer, then
 drives the registry and the capture scheduler. One call runs without interruption
 here; `ProbeDaemon` has the interleavings.
 */
module ProbeOps {
  import opened Wrappers
  import opened Identity
  import R = Registrations
  import J = CaptureJobs
  import RegistryService
  import CaptureScheduler
  import ProbeDaemon
  import LiveQuery

  datatype ErrorCode =
    | MalformedRequest | OversizeField | NonceReplay | PeerRejected
    | PolicyDenied | NotArmed | IdentityMismatch | NotRegistered

  datatype ProbeRequest =
    | Register(request: R.RegisterRequest)
    | Heartbeat(key: ProcessKey)
    | Unregister(key: ProcessKey)
    | CaptureStack(capture: J.Request, deadline: nat)
    | CaptureResult
    | GetJobStatus(job: J.JobId)
    | Query(query: LiveQuery.ProcessQuery)
    | QueryCrashes
    | CrashStats

  datatype ProbeReply =
    | Armed(key: ProcessKey)
    | Ack
    | CaptureRequested(capture: J.Request, symbolManifest: string, symbolPaths: seq<string>)
    | CaptureAccepted(job: J.JobId)
    | JobStatus(status: CaptureScheduler.JobStatus)
    | Processes(infos: seq<LiveQuery.ProcessInfo>)
    | Crashes(answer: string)
    | CrashRefused(code: ErrorCode, stats: bool)
    | Refused(code: ErrorCode)

  datatype IdentityVerdict = IdentityVerdict(verified: bool, connectionAlive: bool)

  function CodeOf(error: R.RegisterError): ErrorCode {
    match error
    case OversizeField(_, _, _) => OversizeField
    case InvalidSymbolSource(_) => MalformedRequest
    case UndeclaredEnvironment(_) => PolicyDenied
    case NonceReplay => NonceReplay
    case PeerRejected(_) => PeerRejected
    case NotRegistered => NotRegistered
    case StateRefused(IdentityUnverified) => IdentityMismatch
    case StateRefused(NoLiveProbe) => NotArmed
    case StateRefused(Illegal(_, _)) => MalformedRequest
  }

  /** What each code says of a refused registration. */
  ghost predicate CodeFits(owner: string, r: R.Registry, req: R.RegisterRequest, peer: R.Peer,
                           verdict: IdentityVerdict, code: ErrorCode)
  {
    var admissible := peer.uidOrSid == owner && R.WellFormed(req) && req.nonce !in r.nonces && |r.nonces| < 4096;
    match code
    case PeerRejected => peer.uidOrSid != owner
    case OversizeField => peer.uidOrSid == owner && exists e: R.RegisterError :: e.OversizeField? && R.Justified(req, e)
    case MalformedRequest => peer.uidOrSid == owner && !R.SymbolsConsistent(req)
    case PolicyDenied => peer.uidOrSid == owner && exists v :: v in req.disclosedEnv && v.name !in req.envAllowlist
    case NonceReplay => peer.uidOrSid == owner && R.WellFormed(req) && (req.nonce in r.nonces || |r.nonces| >= 4096)
    case IdentityMismatch => admissible && !verdict.verified
    case NotArmed => admissible && verdict.verified && !verdict.connectionAlive
    case NotRegistered => false
  }

  lemma RefusalFits(owner: string, r: R.Registry, req: R.RegisterRequest, peer: R.Peer, verdict: IdentityVerdict)
    requires R.Refusal(owner, r, req, peer).Some?
    ensures CodeFits(owner, r, req, peer, verdict, CodeOf(R.Refusal(owner, r, req, peer).value))
  {
    R.AcceptedExactlyWhenWellFormed(req);
    if peer.uidOrSid == owner && R.Defect(req).Some? {
      DefectFits(owner, r, req, peer, verdict);
    }
  }

  lemma DefectFits(owner: string, r: R.Registry, req: R.RegisterRequest, peer: R.Peer, verdict: IdentityVerdict)
    requires peer.uidOrSid == owner && R.Defect(req).Some?
    ensures CodeFits(owner, r, req, peer, verdict, CodeOf(R.Defect(req).value))
  {
    R.DefectIsJustified(req);
    var e := R.Defect(req).value;
    assert R.Justified(req, e);
  }

  datatype CrashFailure = BadQuery | StoreTrouble

  /** What a request takes from its surroundings: the clock, the random ids drawn for a
      job, what the OS would say of its processes, and what the crash history, if there is
      one, would answer. */
  datatype Context = Context(
    now: nat, draws: seq<J.JobId>, host: LiveQuery.Host, table: seq<LiveQuery.OsProcess>, after: nat,
    history: Option<Result<string, CrashFailure>>)

  /** A caller's mistake is told apart from the daemon's trouble. */
  function CrashReply(history: Option<Result<string, CrashFailure>>, stats: bool): ProbeReply {
    match history
    case None => CrashRefused(NotRegistered, stats)
    case Some(Ok(answer)) => Crashes(answer)
    case Some(Err(BadQuery)) => CrashRefused(MalformedRequest, stats)
    case Some(Err(StoreTrouble)) => CrashRefused(PolicyDenied, stats)
  }

  /** The reply carries the leased job's request, and the symbols of the registration. */
  ghost predicate Hands(leased: Option<J.JobId>, m: J.Inner, r: R.Registry, key: ProcessKey, reply: ProbeReply) {
    if leased.None? then reply == Ack
    else
      && leased.value in m.jobs && key in r.entries
      && reply == CaptureRequested(m.jobs[leased.value].request,
                                   match r.entries[key].claim.symbolManifest case Some(path) => path case None => "",
                                   r.entries[key].claim.symbolPaths)
  }

  /** The one call of the scheduler that a request of the owner makes, if any. */
  ghost predicate Makes(r: R.Registry, req: ProbeRequest, conn: nat, now: nat, call: Option<J.Call>) {
    match req
    case Heartbeat(key) =>
      if R.Beats(r, key, conn) then call.Some? && call.value.Lease? && call.value == J.Lease(key, conn, now, call.value.leased)
      else call.None?
    case CaptureStack(capture, deadline) =>
      if ProbeDaemon.Permits(r, capture.key) then
        call.Some? && call.value.Enqueue? && call.value == J.Enqueue(capture, deadline, now, call.value.receipt)
      else call.None?
    case GetJobStatus(job) => call == Some(J.Status(job, now))
    case _ => call.None?
  }

  class Core {
    const registry: RegistryService.LiveRegistry
    const scheduler: CaptureScheduler.Scheduler
    const engine: LiveQuery.QueryEngine
    const owner: string

    constructor (registry: RegistryService.LiveRegistry, owner: string, ttl: nat)
      ensures this.registry == registry && this.owner == owner
      ensures fresh(scheduler) && scheduler.View() == J.Empty && fresh(engine) && engine.ttl == ttl && engine.taken == None
    {
      this.registry, this.owner := registry, owner;
      scheduler := new CaptureScheduler.Scheduler();
      engine := new LiveQuery.QueryEngine(ttl);
    }

    /** Both sections of a registration. It arms exactly an admissible request whose
        identity was verified over a live connection. */
    method Register(req: R.RegisterRequest, peer: R.Peer, conn: nat, verdict: IdentityVerdict, now: nat)
      returns (reply: ProbeReply)
      modifies registry
      ensures registry.View() == R.Perform(registry.owner, old(registry.View()),
                                           R.Register(req, peer, conn, now, verdict.verified, verdict.connectionAlive))
      ensures reply.Armed? <==> R.Refusal(registry.owner, old(registry.View()), req, peer).None?
                                && verdict.verified && verdict.connectionAlive
      ensures reply.Armed? ==> reply.key == req.key && req.key in registry.entries
                               && registry.entries[req.key].state == R.Armed
      ensures !reply.Armed? ==>
                reply.Refused? && CodeFits(registry.owner, old(registry.View()), req, peer, verdict, reply.code)
      ensures !reply.Armed? ==>
                reply == Refused(var refusal := R.Refusal(registry.owner, old(registry.View()), req, peer);
                                 if refusal.Some? then CodeOf(refusal.value)
                                 else if !verdict.verified then IdentityMismatch else NotArmed)
    {
      var begun := registry.BeginRegister(req, peer, conn, now);
      if begun.Err? {
        RefusalFits(registry.owner, old(registry.View()), req, peer, verdict);
        return Refused(CodeOf(begun.error));
      }
      var refused := registry.VerifyAndArm(begun.value, verdict.verified, verdict.connectionAlive);
      if refused.Some? {
        return Refused(CodeOf(refused.value));
      }
      reply := Armed(begun.value);
    }

    /** A heartbeat over the registration's own connection may lease a capture; over any
        other connection it changes nothing. */
    method Heartbeat(key: ProcessKey, conn: nat, now: nat)
      returns (reply: ProbeReply, ghost call: Option<J.Call>, ghost m: J.Inner)
      modifies registry, scheduler
      ensures registry.View() == R.Next(registry.owner, old(registry.View()), R.Heartbeat(key, conn, now))
      ensures Makes(old(registry.View()), ProbeRequest.Heartbeat(key), conn, now, call)
      ensures call.None? ==> reply == Refused(NotRegistered) && scheduler.View() == old(scheduler.View())
      ensures call.Some? ==> J.Step(old(scheduler.View()), call.value, m, scheduler.View())
      ensures call.Some? ==> Hands(call.value.leased, m, registry.View(), key, reply)
    {
      var refused := registry.Heartbeat(key, conn, now);
      m := scheduler.View();
      if refused.Some? {
        return Refused(CodeOf(refused.value)), None, m;
      }
      var leased, request;
      leased, request, m := scheduler.Lease(key, conn, now);
      if leased.None? {
        reply := Ack;
      } else {
        var claim := registry.entries[key].claim;
        var manifest := if claim.symbolManifest.Some? then claim.symbolManifest.value else "";
        reply := CaptureRequested(request.value, manifest, claim.symbolPaths);
      }
      call := Some(J.Lease(key, conn, now, leased));
    }

    /** A capture is enqueued only for a target that permits it, and the three reasons
        to refuse one are told apart. */
    method CaptureStack(request: J.Request, deadline: nat, now: nat, draws: seq<J.JobId>)
      returns (reply: ProbeReply, ghost call: Option<J.Call>, ghost m: J.Inner)
      requires exists k :: 0 <= k < |draws| && draws[k] !in scheduler.jobs
      modifies scheduler
      ensures reply == Refused(NotRegistered) <==> request.key !in registry.entries
      ensures reply == Refused(NotArmed) <==>
                request.key in registry.entries && registry.entries[request.key].state != R.Armed
      ensures reply == Refused(PolicyDenied) <==>
                request.key in registry.entries && registry.entries[request.key].state == R.Armed
                && !ProbeDaemon.Permits(registry.View(), request.key)
      ensures forall conn :: Makes(registry.View(), ProbeRequest.CaptureStack(request, deadline), conn, now, call)
      ensures call.None? ==> scheduler.View() == old(scheduler.View())
      ensures call.Some? ==> J.Step(old(scheduler.View()), call.value, m, scheduler.View())
      ensures call.Some? ==> var receipt := call.value.receipt;
                             reply == if receipt.Ok? then CaptureAccepted(receipt.value) else Refused(MalformedRequest)
    {
      m, call := scheduler.View(), None;
      if request.key !in registry.entries {
        return Refused(NotRegistered), None, m;
      }
      var entry := registry.entries[request.key];
      if entry.state != R.Armed {
        return Refused(NotArmed), None, m;
      }
      if !entry.claim.allowAllOps || ProbeDaemon.STACK_CAPTURE !in entry.claim.supportedOps {
        return Refused(PolicyDenied), None, m;
      }
      var receipt;
      receipt, m := scheduler.Enqueue(request, deadline, now, draws);
      reply := if receipt.Ok? then CaptureAccepted(receipt.value) else Refused(MalformedRequest);
      call := Some(J.Enqueue(request, deadline, now, receipt));
    }

    /** Only the registration's own connection can withdraw it. */
    method Unregister(key: ProcessKey, conn: nat) returns (reply: ProbeReply)
      modifies registry
      ensures reply == Ack <==> key in old(registry.entries) && old(registry.entries)[key].conn == conn
      ensures reply == Ack ==> registry.View() == R.Next(registry.owner, old(registry.View()), R.DropConn(conn))
                               && key !in registry.entries
      ensures reply != Ack ==> reply == Refused(NotRegistered) && registry.View() == old(registry.View())
    {
      if key !in registry.entries || registry.entries[key].conn != conn {
        return Refused(NotRegistered);
      }
      var dropped := registry.DropByConn(conn);
      reply := Ack;
    }

    /** The state of one job, or that there is none. */
    method GetJobStatus(job: J.JobId, now: nat) returns (reply: ProbeReply, ghost m: J.Inner)
      modifies scheduler
      ensures J.Step(old(scheduler.View()), J.Status(job, now), m, scheduler.View())
      ensures job !in scheduler.jobs ==> reply == Refused(NotRegistered)
      ensures job in scheduler.jobs ==>
                reply.JobStatus? && CaptureScheduler.Reports(reply.status, scheduler.jobs[job].state)
    {
      var status;
      status, m := scheduler.Status(job, now);
      reply := if status.Some? then JobStatus(status.value) else Refused(NotRegistered);
    }

    /** The reply is the specified answer of the query over the registry as it is. */
    ghost predicate Answers(query: LiveQuery.ProcessQuery, host: LiveQuery.Host, reply: ProbeReply)
      reads registry, engine
    {
      reply.Processes? && exists answer ::
        && reply.infos == LiveQuery.ToProtos(answer, query.includeEnv)
        && LiveQuery.IsAnswer(host, registry.View(), if query.includeUnregistered then engine.rows else [], query, answer)
    }

    method AskProcesses(query: LiveQuery.ProcessQuery, context: Context) returns (reply: ProbeReply)
      requires R.Inv(registry.View())
      modifies engine
      ensures Answers(query, context.host, reply)
    {
      LiveQuery.IndexedSlotsDistinct(registry.View());
      var infos;
      ghost var answer;
      infos, answer := engine.Execute(query, registry.View(), context.host, context.now, context.table, context.after);
      reply := Processes(infos);
    }

    /** What a request of the owner does to the registry. */
    ghost function RegistryAfter(r: R.Registry, req: ProbeRequest, peer: R.Peer, conn: nat, verdict: IdentityVerdict, now: nat)
      : R.Registry
    {
      match req
      case Register(request) =>
        R.Perform(registry.owner, r, R.Register(request, peer, conn, now, verdict.verified, verdict.connectionAlive))
      case Heartbeat(key) => R.Next(registry.owner, r, R.Heartbeat(key, conn, now))
      case Unregister(key) =>
        if key in r.entries && r.entries[key].conn == conn then R.Next(registry.owner, r, R.DropConn(conn)) else r
      case _ => r
    }

    /** Every request of a peer other than the owner is refused, before anything else, and
        changes nothing. A request of the owner has its own effect on the registry, makes
        its own call of the scheduler, and touches nothing else. */
    method Dispatch(req: ProbeRequest, peer: R.Peer, conn: nat, verdict: IdentityVerdict, context: Context)
      returns (reply: ProbeReply, ghost call: Option<J.Call>, ghost m: J.Inner)
      requires exists k :: 0 <= k < |context.draws| && context.draws[k] !in scheduler.jobs
      requires R.Inv(registry.View())
      modifies registry, scheduler, engine
      ensures peer.uidOrSid != owner ==> reply == Refused(PeerRejected) && registry.View() == old(registry.View()) && call.None?
      ensures peer.uidOrSid == owner ==>
                registry.View() == RegistryAfter(old(registry.View()), req, peer, conn, verdict, context.now)
      ensures peer.uidOrSid == owner ==> Makes(old(registry.View()), req, conn, context.now, call)
      ensures call.None? ==> scheduler.View() == old(scheduler.View())
      ensures call.Some? ==> J.Step(old(scheduler.View()), call.value, m, scheduler.View())
      ensures peer.uidOrSid != owner || !req.Query? ==> unchanged(engine)
      ensures reply.Armed? ==> req.Register? && verdict == IdentityVerdict(true, true)
      ensures reply.CaptureRequested? ==> req.Heartbeat? && R.Beats(old(registry.View()), req.key, conn)
      ensures reply.CaptureAccepted? ==>
                req.CaptureStack? && ProbeDaemon.Permits(old(registry.View()), req.capture.key)
      ensures peer.uidOrSid == owner && req.Query? ==> Answers(req.query, context.host, reply)
      ensures peer.uidOrSid == owner && (req.QueryCrashes? || req.CrashStats?) ==>
                reply == match context.history
                         case None => CrashRefused(NotRegistered, req.CrashStats?)
                         case Some(Ok(answer)) => Crashes(answer)
                         case Some(Err(failure)) =>
                           CrashRefused(if failure.BadQuery? then MalformedRequest else PolicyDenied, req.CrashStats?)
    {
      m, call := scheduler.View(), None;
      if peer.uidOrSid != owner {
        return Refused(PeerRejected), None, m;
      }
      if req.Heartbeat? || req.CaptureStack? || req.GetJobStatus? {
        reply, call, m := DispatchJob(req, conn, context);
        assert RegistryAfter(old(registry.View()), req, peer, conn, verdict, context.now) == registry.View();
      } else {
        reply := DispatchOther(req, peer, conn, verdict, context);
      }
    }

    /** The requests that use the scheduler. */
    method DispatchJob(req: ProbeRequest, conn: nat, context: Context)
      returns (reply: ProbeReply, ghost call: Option<J.Call>, ghost m: J.Inner)
      requires req.Heartbeat? || req.CaptureStack? || req.GetJobStatus?
      requires exists k :: 0 <= k < |context.draws| && context.draws[k] !in scheduler.jobs
      modifies registry, scheduler
      ensures registry.View() == if req.Heartbeat?
                                 then R.Next(registry.owner, old(registry.View()), R.Heartbeat(req.key, conn, context.now))
                                 else old(registry.View())
      ensures Makes(old(registry.View()), req, conn, context.now, call)
      ensures call.None? ==> scheduler.View() == old(scheduler.View())
      ensures call.Some? ==> J.Step(old(scheduler.View()), call.value, m, scheduler.View())
      ensures reply.Refused? || reply.Ack? || reply.JobStatus?
              || (reply.CaptureRequested? && req.Heartbeat? && R.Beats(old(registry.View()), req.key, conn))
              || (reply.CaptureAccepted? && req.CaptureStack? && ProbeDaemon.Permits(old(registry.View()), req.capture.key))
    {
      match req
      case Heartbeat(key) => reply, call, m := Heartbeat(key, conn, context.now);
      case CaptureStack(capture, deadline) =>
        reply, call, m := CaptureStack(capture, deadline, context.now, context.draws);
      case GetJobStatus(job) =>
        reply, m := GetJobStatus(job, context.now);
        call := Some(J.Status(job, context.now));
    }

    /** The requests that do not. */
    method DispatchOther(req: ProbeRequest, peer: R.Peer, conn: nat, verdict: IdentityVerdict, context: Context)
      returns (reply: ProbeReply)
      requires !req.Heartbeat? && !req.CaptureStack? && !req.GetJobStatus? && R.Inv(registry.View())
      modifies registry, engine
      ensures registry.View() == RegistryAfter(old(registry.View()), req, peer, conn, verdict, context.now)
      ensures !req.Query? ==> unchanged(engine)
      ensures reply.Armed? ==> req.Register? && verdict == IdentityVerdict(true, true)
      ensures !reply.CaptureRequested? && !reply.CaptureAccepted?
      ensures req.Query? ==> Answers(req.query, context.host, reply)
      ensures req.QueryCrashes? || req.CrashStats? ==> reply == CrashReply(context.history, req.CrashStats?)
    {
      match req
      case Register(request) => reply := Register(request, peer, conn, verdict, context.now);
      case Unregister(key) => reply := Unregister(key, conn);
      case CaptureResult => reply := Refused(MalformedRequest);
      case Query(query) => reply := AskProcesses(query, context);
      case QueryCrashes => reply := CrashReply(context.history, false);
      case CrashStats => reply := CrashReply(context.history, true);
    }

    /** So the registry's invariant, which queries rest on, holds between requests. */
    lemma DispatchKeepsInv(r: R.Registry, req: ProbeRequest, peer: R.Peer, conn: nat, verdict: IdentityVerdict, now: nat)
      requires R.Inv(r)
      ensures R.Inv(RegistryAfter(r, req, peer, conn, verdict, now))
    {
      match req
      case Register(request) =>
        var begun := R.Next(registry.owner, r, R.Begin(request, peer, conn, now));
        R.NextKeepsInv(registry.owner, r, R.Begin(request, peer, conn, now));
        R.NextKeepsInv(registry.owner, begun, R.Verify(request.key, verdict.verified, verdict.connectionAlive));
      case Heartbeat(key) => R.NextKeepsInv(registry.owner, r, R.Heartbeat(key, conn, now));
      case Unregister(key) => R.NextKeepsInv(registry.owner, r, R.DropConn(conn));
      case _ =>
    }
  }
}
