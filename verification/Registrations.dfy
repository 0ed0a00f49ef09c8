/**
 Live registrations (crates/running-process-probe-daemon/src/registry.rs) and their
 lifecycle (crates/running-process-probe-daemon/src/state.rs).

 `Registry` holds the entries, an index from pid to the key that holds it, and the
 nonces seen. Every operation is one `Event`, and a run is any sequence of events:
 `begin_register` and `verify_and_arm` interleave freely with each other and with
 everything else. Paths and strings are lists of bytes.
 */
module Registrations {
  import opened Wrappers
  import opened Identity

  const MAX_EXE_PATH_BYTES := 4096
  const MAX_SHORT_FIELD_BYTES := 256
  const MAX_SUPPORTED_OPS := 64
  const MAX_SYMBOL_PATHS := 64
  const MAX_ENV_ALLOWLIST := 256
  const MAX_ENV_FIELD_BYTES := 4096
  const MAX_DISCLOSED_ENV_BYTES := 65536
  const MAX_TRACKED_NONCES := 4096

  // ---------------------------------------------------------- state machine

  datatype RegState = Unregistered | Registering | Armed | Dropped

  datatype StateError =
    | IdentityUnverified
    | NoLiveProbe
    | Illegal(from: RegState, to: RegState)

  predicate CanTransition(from: RegState, to: RegState) {
    || (from == Unregistered && to == Registering)
    || (from == Registering && (to == Armed || to == Dropped))
    || (from == Armed && to == Dropped)
  }

  /** The only way into `Armed`: it takes both guards and a registering entry. */
  function Arm(from: RegState, verified: bool, alive: bool): (r: Result<RegState, StateError>)
    ensures r == Ok(Armed) <==> from == Registering && verified && alive
    ensures r.Ok? ==> r == Ok(Armed)
    ensures r == Err(IdentityUnverified) <==> !verified
    ensures r == Err(NoLiveProbe) <==> verified && !alive
  {
    if !verified then Err(IdentityUnverified)
    else if !alive then Err(NoLiveProbe)
    else if !CanTransition(from, Armed) then Err(Illegal(from, Armed))
    else Ok(Armed)
  }

  // ------------------------------------------------------- requests, entries

  type Nonce = seq<bv8>

  datatype Peer = Peer(pid: nat, uidOrSid: string)

  datatype EnvVar = EnvVar(name: string, value: string)

  /** `disclosedEnv` is listed in key order, as the source's sorted map is read. */
  datatype RegisterRequest = RegisterRequest(
    key: ProcessKey, exePath: string, appClass: string, appName: string, appVersion: string,
    instanceName: string, allowAllOps: bool, envAllowlist: seq<string>,
    exposeExePath: bool, exposeEnvNames: bool, disclosedCwd: Option<string>,
    disclosedEnv: seq<EnvVar>, nonce: Nonce, supportedOps: seq<string>, runtime: int,
    symbolSource: int, symbolManifest: Option<string>, symbolPaths: seq<string>)

  datatype Entry = Entry(
    key: ProcessKey, claim: RegisterRequest, peer: Peer, conn: nat, state: RegState,
    verified: bool, alive: bool, lastHeartbeat: nat, registeredAt: nat)

  datatype RegisterError =
    | OversizeField(field: string, length: nat, max: nat)
    | InvalidSymbolSource(value: int)
    | UndeclaredEnvironment(name: string)
    | NonceReplay
    | PeerRejected(uidOrSid: string)
    | NotRegistered
    | StateRefused(reason: StateError)

  type Verdict = Option<RegisterError>

  function First(a: Verdict, b: Verdict): Verdict {
    if a.Some? then a else b
  }

  function CheckLen(field: string, length: nat, max: nat): Verdict {
    if length > max then Some(OversizeField(field, length, max)) else None
  }

  function CheckSymbolPaths(paths: seq<string>): Verdict {
    if paths == [] then None
    else First(CheckLen("symbol_path", |paths[0]|, MAX_EXE_PATH_BYTES), CheckSymbolPaths(paths[1..]))
  }

  function CheckSymbolSource(req: RegisterRequest): Verdict {
    if || (req.symbolSource in {0, 1} && req.symbolManifest.None? && req.symbolPaths == [])
       || (req.symbolSource == 2 && req.symbolManifest.None?)
       || (req.symbolSource == 3 && req.symbolManifest.Some?)
    then None
    else Some(InvalidSymbolSource(req.symbolSource))
  }

  function CheckEnvVar(v: EnvVar, allowlist: seq<string>): Verdict {
    First(CheckLen("disclosed_env_key", |v.name|, MAX_ENV_FIELD_BYTES),
          First(CheckLen("disclosed_env_value", |v.value|, MAX_ENV_FIELD_BYTES),
                if v.name in allowlist then None else Some(UndeclaredEnvironment(v.name))))
  }

  function CheckEnv(env: seq<EnvVar>, allowlist: seq<string>): Verdict {
    if env == [] then None
    else First(CheckEnvVar(env[0], allowlist), CheckEnv(env[1..], allowlist))
  }

  function EnvBytes(env: seq<EnvVar>): nat {
    if env == [] then 0 else |env[0].name| + |env[0].value| + EnvBytes(env[1..])
  }

  function OptionLength(s: Option<string>): nat {
    if s.Some? then |s.value| else 0
  }

  /** The length checks of a request that come before its lists are looked into. */
  function ShallowDefect(req: RegisterRequest): Verdict {
    First(CheckLen("exe_path", |req.exePath|, MAX_EXE_PATH_BYTES),
    First(CheckLen("app_class", |req.appClass|, MAX_SHORT_FIELD_BYTES),
    First(CheckLen("app_name", |req.appName|, MAX_SHORT_FIELD_BYTES),
    First(CheckLen("app_version", |req.appVersion|, MAX_SHORT_FIELD_BYTES),
    First(CheckLen("instance_name", |req.instanceName|, MAX_SHORT_FIELD_BYTES),
    First(CheckLen("boot_id", |req.key.bootId|, MAX_SHORT_FIELD_BYTES),
    First(CheckLen("supported_ops", |req.supportedOps|, MAX_SUPPORTED_OPS),
    First(CheckLen("symbol_paths", |req.symbolPaths|, MAX_SYMBOL_PATHS),
          CheckLen("symbol_manifest_path", OptionLength(req.symbolManifest), MAX_EXE_PATH_BYTES)))))))))
  }

  /** The request's first defect, in the order the source looks. */
  function Defect(req: RegisterRequest): Verdict {
    First(ShallowDefect(req),
    First(CheckSymbolPaths(req.symbolPaths),
    First(CheckSymbolSource(req),
    First(CheckLen("env_allowlist", |req.envAllowlist|, MAX_ENV_ALLOWLIST),
    First(CheckLen("disclosed_cwd", OptionLength(req.disclosedCwd), MAX_EXE_PATH_BYTES),
    First(CheckEnv(req.disclosedEnv, req.envAllowlist),
          CheckLen("disclosed_env_bytes", SaturatingAdd(0, EnvBytes(req.disclosedEnv)), MAX_DISCLOSED_ENV_BYTES)))))))
  }

  predicate FieldsWithinBounds(req: RegisterRequest) {
    && |req.exePath| <= 4096
    && |req.appClass| <= 256 && |req.appName| <= 256
    && |req.appVersion| <= 256 && |req.instanceName| <= 256
    && |req.key.bootId| <= 256
    && |req.supportedOps| <= 64 && |req.symbolPaths| <= 64
    && (req.symbolManifest.Some? ==> |req.symbolManifest.value| <= 4096)
  }

  /** No symbols, symbols next to the program, or a manifest, as the source code says. */
  predicate SymbolsConsistent(req: RegisterRequest) {
    match req.symbolSource
    case 0 => req.symbolManifest.None? && req.symbolPaths == []
    case 1 => req.symbolManifest.None? && req.symbolPaths == []
    case 2 => req.symbolManifest.None?
    case 3 => req.symbolManifest.Some?
    case _ => false
  }

  /** Only values whose names are on the allowlist are disclosed, and all of them are short. */
  predicate EnvAuthorised(env: seq<EnvVar>, allowlist: seq<string>) {
    forall v :: v in env ==>
      v.name in allowlist && |v.name| <= 4096 && |v.value| <= 4096
  }

  /** What a registration may claim. */
  predicate WellFormed(req: RegisterRequest) {
    && FieldsWithinBounds(req)
    && (forall path :: path in req.symbolPaths ==> |path| <= 4096)
    && SymbolsConsistent(req)
    && |req.envAllowlist| <= 256
    && (req.disclosedCwd.Some? ==> |req.disclosedCwd.value| <= 4096)
    && EnvAuthorised(req.disclosedEnv, req.envAllowlist)
    && EnvBytes(req.disclosedEnv) <= 65536
  }

  /** The size of an environment is that of its names and values. */
  lemma {:induction false} EnvBytesAdd(env: seq<EnvVar>, v: EnvVar)
    ensures EnvBytes([]) == 0
    ensures EnvBytes(env + [v]) == EnvBytes(env) + |v.name| + |v.value|
  {
    if env == [] {
      assert env + [v] == [v];
    } else {
      EnvBytesAdd(env[1..], v);
      assert (env + [v])[1..] == env[1..] + [v];
    }
  }

  lemma {:induction false} CheckedEnvIsAuthorised(env: seq<EnvVar>, allowlist: seq<string>)
    ensures CheckEnv(env, allowlist) == None <==> EnvAuthorised(env, allowlist)
    ensures CheckEnv(env, allowlist).Some? ==> EnvComplaint(env, allowlist, CheckEnv(env, allowlist).value)
  {
    if env != [] {
      CheckedEnvIsAuthorised(env[1..], allowlist);
      assert env == [env[0]] + env[1..];
    }
  }

  lemma {:induction false} CheckedPathsAreShort(paths: seq<string>)
    ensures CheckSymbolPaths(paths) == None <==> forall path :: path in paths ==> |path| <= MAX_EXE_PATH_BYTES
    ensures CheckSymbolPaths(paths).Some? ==> PathComplaint(paths, CheckSymbolPaths(paths).value)
  {
    if paths != [] {
      CheckedPathsAreShort(paths[1..]);
      assert paths == [paths[0]] + paths[1..];
    }
  }

  /** A request has no defect exactly if it is well-formed. */
  lemma AcceptedExactlyWhenWellFormed(req: RegisterRequest)
    ensures Defect(req) == None <==> WellFormed(req)
  {
    CheckedPathsAreShort(req.symbolPaths);
    CheckedEnvIsAuthorised(req.disclosedEnv, req.envAllowlist);
    assert ShallowDefect(req) == None <==> FieldsWithinBounds(req);
    assert CheckSymbolSource(req) == None <==> SymbolsConsistent(req);
  }

  // What each complaint says of the request.

  predicate EnvComplaint(env: seq<EnvVar>, allowlist: seq<string>, e: RegisterError) {
    exists v :: v in env &&
      (|| (e == UndeclaredEnvironment(v.name) && v.name !in allowlist)
       || (e == OversizeField("disclosed_env_key", |v.name|, MAX_ENV_FIELD_BYTES) && |v.name| > MAX_ENV_FIELD_BYTES)
       || (e == OversizeField("disclosed_env_value", |v.value|, MAX_ENV_FIELD_BYTES) && |v.value| > MAX_ENV_FIELD_BYTES))
  }

  predicate PathComplaint(paths: seq<string>, e: RegisterError) {
    exists path :: path in paths && |path| > MAX_EXE_PATH_BYTES
                && e == OversizeField("symbol_path", |path|, MAX_EXE_PATH_BYTES)
  }

  predicate FieldComplaint(req: RegisterRequest, e: RegisterError) {
    && e.OversizeField? && e.length > e.max
    && (|| (e.field == "exe_path" && e.length == |req.exePath| && e.max == MAX_EXE_PATH_BYTES)
        || (e.field == "app_class" && e.length == |req.appClass| && e.max == MAX_SHORT_FIELD_BYTES)
        || (e.field == "app_name" && e.length == |req.appName| && e.max == MAX_SHORT_FIELD_BYTES)
        || (e.field == "app_version" && e.length == |req.appVersion| && e.max == MAX_SHORT_FIELD_BYTES)
        || (e.field == "instance_name" && e.length == |req.instanceName| && e.max == MAX_SHORT_FIELD_BYTES)
        || (e.field == "boot_id" && e.length == |req.key.bootId| && e.max == MAX_SHORT_FIELD_BYTES)
        || (e.field == "supported_ops" && e.length == |req.supportedOps| && e.max == MAX_SUPPORTED_OPS)
        || (e.field == "symbol_paths" && e.length == |req.symbolPaths| && e.max == MAX_SYMBOL_PATHS)
        || (e.field == "symbol_manifest_path" && e.length == OptionLength(req.symbolManifest) && e.max == MAX_EXE_PATH_BYTES)
        || (e.field == "env_allowlist" && e.length == |req.envAllowlist| && e.max == MAX_ENV_ALLOWLIST)
        || (e.field == "disclosed_cwd" && e.length == OptionLength(req.disclosedCwd) && e.max == MAX_EXE_PATH_BYTES)
        || (e.field == "disclosed_env_bytes" && e.length == SaturatingAdd(0, EnvBytes(req.disclosedEnv))
            && e.max == MAX_DISCLOSED_ENV_BYTES))
  }

  predicate Justified(req: RegisterRequest, e: RegisterError) {
    || FieldComplaint(req, e)
    || PathComplaint(req.symbolPaths, e)
    || (e == InvalidSymbolSource(req.symbolSource) && !SymbolsConsistent(req))
    || EnvComplaint(req.disclosedEnv, req.envAllowlist, e)
  }

  /** A complaint names what is really wrong with the request. */
  lemma DefectIsJustified(req: RegisterRequest)
    requires Defect(req).Some?
    ensures Justified(req, Defect(req).value)
  {
    CheckedPathsAreShort(req.symbolPaths);
    CheckedEnvIsAuthorised(req.disclosedEnv, req.envAllowlist);
    if ShallowDefect(req).Some? {
      assert FieldComplaint(req, ShallowDefect(req).value);
    }
  }

  // --------------------------------------------------------- registry, steps

  datatype Registry = Registry(
    entries: map<ProcessKey, Entry>, byPid: map<nat, ProcessKey>, nonces: set<Nonce>)

  const Empty := Registry(map[], map[], {})

  datatype Event =
    | Begin(req: RegisterRequest, peer: Peer, conn: nat, now: nat)
    | Verify(key: ProcessKey, verified: bool, alive: bool)
    | Heartbeat(key: ProcessKey, conn: nat, now: nat)
    | DropConn(conn: nat)
    | Reap(now: nat, grace: nat)

  function Refusal(owner: string, r: Registry, req: RegisterRequest, peer: Peer): Verdict {
    if peer.uidOrSid != owner then Some(PeerRejected(peer.uidOrSid))
    else if Defect(req).Some? then Defect(req)
    else if |r.nonces| >= MAX_TRACKED_NONCES || req.nonce in r.nonces then Some(NonceReplay)
    else None
  }

  predicate Accepts(owner: string, r: Registry, e: Event) {
    e.Begin? && Refusal(owner, r, e.req, e.peer) == None
  }

  function NewEntry(req: RegisterRequest, peer: Peer, conn: nat, now: nat): Entry {
    Entry(req.key, req, peer, conn, Registering, false, true, now, now)
  }

  /** Entries without the one whose pid another process has taken over. */
  function Superseded(r: Registry, key: ProcessKey): map<ProcessKey, Entry> {
    if key.pid in r.byPid && r.byPid[key.pid] != key then r.entries - {r.byPid[key.pid]} else r.entries
  }

  function Admitted(r: Registry, req: RegisterRequest, peer: Peer, conn: nat, now: nat): Registry {
    Registry(Superseded(r, req.key)[req.key := NewEntry(req, peer, conn, now)],
             r.byPid[req.key.pid := req.key], r.nonces + {req.nonce})
  }

  /** The flags are written before the guards are checked, and stay written. */
  function Verified(entry: Entry, verified: bool, alive: bool): Entry {
    var armed := Arm(entry.state, verified, alive);
    entry.(verified := verified, alive := alive, state := if armed.Ok? then armed.value else entry.state)
  }

  function Without(r: Registry, doomed: set<ProcessKey>): Registry {
    r.(entries := r.entries - doomed,
       byPid := map p | p in r.byPid && !(r.byPid[p] in doomed && r.byPid[p].pid == p) :: r.byPid[p])
  }

  function OnConnection(r: Registry, conn: nat): set<ProcessKey> {
    set k | k in r.entries && r.entries[k].conn == conn
  }

  function Lapsed(r: Registry, now: nat, grace: nat): set<ProcessKey> {
    set k | k in r.entries && SaturatingSub(now, r.entries[k].lastHeartbeat) > grace
  }

  predicate Beats(r: Registry, key: ProcessKey, conn: nat) {
    key in r.entries && r.entries[key].state != Dropped && r.entries[key].conn == conn
  }

  function Next(owner: string, r: Registry, e: Event): Registry {
    match e
    case Begin(req, peer, conn, now) =>
      if Refusal(owner, r, req, peer) == None then Admitted(r, req, peer, conn, now) else r
    case Verify(key, verified, alive) =>
      if key in r.entries then r.(entries := r.entries[key := Verified(r.entries[key], verified, alive)]) else r
    case Heartbeat(key, conn, now) =>
      if Beats(r, key, conn) then r.(entries := r.entries[key := r.entries[key].(lastHeartbeat := now)]) else r
    case DropConn(conn) => Without(r, OnConnection(r, conn))
    case Reap(now, grace) => Without(r, Lapsed(r, now, grace))
  }

  /** The registry after a run. */
  function After(owner: string, events: seq<Event>): Registry {
    if events == [] then Empty
    else
      var n := |events| - 1;
      Next(owner, After(owner, events[..n]), events[n])
  }

  predicate AcceptedAt(owner: string, events: seq<Event>, i: nat)
    requires i < |events|
  {
    Accepts(owner, After(owner, events[..i]), events[i])
  }

  // -------------------------------------------------------------- invariants

  /** The entries and the index are inverse to each other: one entry per pid. */
  ghost predicate Indexed(r: Registry) {
    && (forall k :: k in r.entries ==> k.pid in r.byPid && r.byPid[k.pid] == k)
    && (forall p :: p in r.byPid ==> r.byPid[p] in r.entries && r.byPid[p].pid == p)
  }

  predicate EntrySound(k: ProcessKey, e: Entry) {
    && e.key == k && e.claim.key == k
    && e.state in {Registering, Armed}
    && Defect(e.claim) == None
  }

  ghost predicate Inv(r: Registry) {
    && Indexed(r)
    && (forall k :: k in r.entries ==> EntrySound(k, r.entries[k]))
    && |r.nonces| <= MAX_TRACKED_NONCES
  }

  lemma AdmittedKeepsIndex(r: Registry, req: RegisterRequest, peer: Peer, conn: nat, now: nat)
    requires Indexed(r)
    ensures Indexed(Admitted(r, req, peer, conn, now))
  {
  }

  lemma WithoutKeepsIndex(r: Registry, doomed: set<ProcessKey>)
    requires Indexed(r)
    ensures Indexed(Without(r, doomed))
  {
  }

  lemma NextKeepsIndex(owner: string, r: Registry, e: Event)
    requires Indexed(r)
    ensures Indexed(Next(owner, r, e))
  {
    match e
    case Begin(req, peer, conn, now) => AdmittedKeepsIndex(r, req, peer, conn, now);
    case DropConn(conn) => WithoutKeepsIndex(r, OnConnection(r, conn));
    case Reap(now, grace) => WithoutKeepsIndex(r, Lapsed(r, now, grace));
    case _ =>
  }

  lemma NextKeepsEntry(owner: string, r: Registry, e: Event, k: ProcessKey)
    requires k in Next(owner, r, e).entries
    requires k in r.entries ==> EntrySound(k, r.entries[k])
    ensures EntrySound(k, Next(owner, r, e).entries[k])
  {
    if !(Accepts(owner, r, e) && e.req.key == k) {
      PresentBefore(owner, r, e, k);
    }
  }

  lemma NextKeepsInv(owner: string, r: Registry, e: Event)
    requires Inv(r)
    ensures Inv(Next(owner, r, e))
  {
    NextKeepsIndex(owner, r, e);
    var s := Next(owner, r, e);
    forall k | k in s.entries ensures EntrySound(k, s.entries[k]) {
      NextKeepsEntry(owner, r, e, k);
    }
  }

  /** In every reachable state the entries and the index agree, stored states are
      only `Registering` and `Armed`, and disclosed values are authorised. */
  lemma {:induction false} ReachableIsSound(owner: string, events: seq<Event>)
    ensures Inv(After(owner, events))
  {
    if events != [] {
      var n := |events| - 1;
      ReachableIsSound(owner, events[..n]);
      NextKeepsInv(owner, After(owner, events[..n]), events[n]);
    }
  }

  lemma SoundEntryIsWellFormed(k: ProcessKey, e: Entry)
    requires EntrySound(k, e)
    ensures WellFormed(e.claim)
  {
    AcceptedExactlyWhenWellFormed(e.claim);
  }

  /** What an accepted registration leaves: an entry of its own that nothing has verified,
      no other entry of that pid, all other entries as they were, and its nonce seen. */
  ghost predicate Enters(r: Registry, req: RegisterRequest, peer: Peer, conn: nat, now: nat, after: Registry) {
    && req.key in after.entries && IsNew(after.entries[req.key], req, peer, conn, now)
    && (forall k :: k in after.entries && k != req.key ==> k.pid != req.key.pid)
    && (forall k: ProcessKey :: k.pid != req.key.pid ==>
          (k in after.entries <==> k in r.entries) && (k in r.entries ==> after.entries[k] == r.entries[k]))
    && after.nonces == r.nonces + {req.nonce}
  }

  predicate IsNew(e: Entry, req: RegisterRequest, peer: Peer, conn: nat, now: nat) {
    && e.key == req.key && e.claim == req && e.peer == peer && e.conn == conn
    && e.state == Registering && !e.verified && e.alive && e.lastHeartbeat == now && e.registeredAt == now
  }

  lemma AdmittedEnters(r: Registry, req: RegisterRequest, peer: Peer, conn: nat, now: nat)
    requires Indexed(r)
    ensures Enters(r, req, peer, conn, now, Admitted(r, req, peer, conn, now))
  {
  }

  /** Every registration is the owner's own. */
  lemma {:induction false} EntriesBelongToOwner(owner: string, events: seq<Event>, key: ProcessKey)
    requires key in After(owner, events).entries
    ensures After(owner, events).entries[key].peer.uidOrSid == owner
  {
    var n := |events| - 1;
    var r, e := After(owner, events[..n]), events[n];
    if !(Accepts(owner, r, e) && e.req.key == key) {
      PresentBefore(owner, r, e, key);
      EntriesBelongToOwner(owner, events[..n], key);
    }
  }

  // -------------------------------------------------------- latest registrant

  /** The key of the last accepted registration for `pid`. */
  function LastRegistrant(owner: string, events: seq<Event>, pid: nat): Option<ProcessKey> {
    if events == [] then None
    else
      var n := |events| - 1;
      if AcceptedAt(owner, events, n) && events[n].req.key.pid == pid then Some(events[n].req.key)
      else LastRegistrant(owner, events[..n], pid)
  }

  /** Whoever holds a pid is its latest registrant, after every run. */
  lemma {:induction false} HolderIsLatest(owner: string, events: seq<Event>, pid: nat)
    requires pid in After(owner, events).byPid
    ensures LastRegistrant(owner, events, pid) == Some(After(owner, events).byPid[pid])
  {
    var n := |events| - 1;
    var r, e := After(owner, events[..n]), events[n];
    if !(Accepts(owner, r, e) && e.req.key.pid == pid) {
      HeldBefore(owner, r, e, pid);
      HolderIsLatest(owner, events[..n], pid);
    }
  }

  lemma HeldBefore(owner: string, r: Registry, e: Event, pid: nat)
    requires pid in Next(owner, r, e).byPid
    requires !(Accepts(owner, r, e) && e.req.key.pid == pid)
    ensures pid in r.byPid && Next(owner, r, e).byPid[pid] == r.byPid[pid]
  {
  }

  // --------------------------------------------------------------- nonces

  lemma {:induction false} AdmittedNonceIsSeen(owner: string, events: seq<Event>, i: nat)
    requires i < |events| && AcceptedAt(owner, events, i)
    ensures events[i].req.nonce in After(owner, events).nonces
    decreases |events|
  {
    var n := |events| - 1;
    if i < n {
      assert events[..n][..i] == events[..i];
      AdmittedNonceIsSeen(owner, events[..n], i);
    }
  }

  /** No nonce is admitted twice in any run. */
  lemma NonceAdmittedOnce(owner: string, events: seq<Event>, i: nat, j: nat)
    requires i < j < |events| && AcceptedAt(owner, events, i) && AcceptedAt(owner, events, j)
    ensures events[i].req.nonce != events[j].req.nonce
  {
    assert events[..j][..i] == events[..i];
    AdmittedNonceIsSeen(owner, events[..j], i);
  }

  // ------------------------------------------------- what being armed means

  /** Whether `key` has been verified with both flags true since it was last begun. */
  predicate CleanSinceBegin(owner: string, events: seq<Event>, key: ProcessKey) {
    events != [] &&
    var n := |events| - 1;
    if AcceptedAt(owner, events, n) && events[n].req.key == key then false
    else if events[n] == Verify(key, true, true) then true
    else CleanSinceBegin(owner, events[..n], key)
  }

  /** The flags of the last verification since `key` was last begun. */
  function LastFlags(owner: string, events: seq<Event>, key: ProcessKey): (bool, bool) {
    if events == [] then (false, true)
    else
      var n := |events| - 1;
      if AcceptedAt(owner, events, n) && events[n].req.key == key then (false, true)
      else if events[n].Verify? && events[n].key == key then (events[n].verified, events[n].alive)
      else LastFlags(owner, events[..n], key)
  }

  /** After any run, with the lock sections interleaved freely: an entry is armed if
      and only if it has had a verification with both flags true since its own
      registration, and its flags are those of the last verification. */
  lemma {:induction false} ArmedExactlyWhenVerified(owner: string, events: seq<Event>, key: ProcessKey)
    requires key in After(owner, events).entries
    ensures After(owner, events).entries[key].state in {Registering, Armed}
    ensures After(owner, events).entries[key].state == Armed <==> CleanSinceBegin(owner, events, key)
    ensures (After(owner, events).entries[key].verified, After(owner, events).entries[key].alive)
         == LastFlags(owner, events, key)
  {
    var n := |events| - 1;
    var r, e := After(owner, events[..n]), events[n];
    if !(Accepts(owner, r, e) && e.req.key == key) {
      PresentBefore(owner, r, e, key);
      ArmedExactlyWhenVerified(owner, events[..n], key);
    }
  }

  lemma PresentBefore(owner: string, r: Registry, e: Event, key: ProcessKey)
    requires key in Next(owner, r, e).entries
    requires !(Accepts(owner, r, e) && e.req.key == key)
    ensures key in r.entries
    ensures Next(owner, r, e).entries[key] ==
              if e.Verify? && e.key == key then Verified(r.entries[key], e.verified, e.alive)
              else if e.Heartbeat? && e.key == key && Beats(r, key, e.conn) then r.entries[key].(lastHeartbeat := e.now)
              else r.entries[key]
  {
  }

  /** What one would like armed to mean at every moment. */
  ghost predicate ArmedMeansVerified(r: Registry) {
    forall k :: k in r.entries && r.entries[k].state == Armed ==> r.entries[k].verified && r.entries[k].alive
  }

  /** A verdict with a false flag reaches an entry that is armed already. */
  predicate FailsOnArmed(r: Registry, e: Event) {
    e.Verify? && e.key in r.entries && r.entries[e.key].state == Armed && !(e.verified && e.alive)
  }

  /** One operation makes an armed entry lose its meaning exactly if it is such a verdict. */
  lemma ArmedLosesMeaningExactly(owner: string, r: Registry, e: Event)
    requires ArmedMeansVerified(r)
    ensures ArmedMeansVerified(Next(owner, r, e)) <==> !FailsOnArmed(r, e)
  {
    var s := Next(owner, r, e);
    if FailsOnArmed(r, e) {
      assert s.entries[e.key].state == Armed;
    } else {
      forall k | k in s.entries && s.entries[k].state == Armed ensures s.entries[k].verified && s.entries[k].alive {
        if !(Accepts(owner, r, e) && e.req.key == k) {
          PresentBefore(owner, r, e, k);
        }
      }
    }
  }

  ghost predicate AlwaysMeaningful(owner: string, events: seq<Event>) {
    forall n :: 0 <= n <= |events| ==> ArmedMeansVerified(After(owner, events[..n]))
  }

  predicate NeverFailsOnArmed(owner: string, events: seq<Event>) {
    forall n :: 0 <= n < |events| ==> !FailsOnArmed(After(owner, events[..n]), events[n])
  }

  lemma AfterNext(owner: string, events: seq<Event>, n: nat)
    requires n < |events|
    ensures After(owner, events[..n + 1]) == Next(owner, After(owner, events[..n]), events[n])
  {
    assert events[..n + 1][..n] == events[..n];
  }

  lemma {:induction false} MeaningfulUpTo(owner: string, events: seq<Event>, n: nat)
    requires NeverFailsOnArmed(owner, events) && n <= |events|
    ensures ArmedMeansVerified(After(owner, events[..n]))
  {
    if n > 0 {
      MeaningfulUpTo(owner, events, n - 1);
      AfterNext(owner, events, n - 1);
      ArmedLosesMeaningExactly(owner, After(owner, events[..n - 1]), events[n - 1]);
    }
  }

  /** Over a whole run, armed entries are verified and alive at every moment if and only
      if no verdict with a false flag ever reaches an armed entry. */
  lemma ArmedMeansVerifiedExactly(owner: string, events: seq<Event>)
    ensures AlwaysMeaningful(owner, events) <==> NeverFailsOnArmed(owner, events)
  {
    if NeverFailsOnArmed(owner, events) {
      forall n | 0 <= n <= |events| ensures ArmedMeansVerified(After(owner, events[..n])) {
        MeaningfulUpTo(owner, events, n);
      }
    }
    if AlwaysMeaningful(owner, events) {
      forall n | 0 <= n < |events| ensures !FailsOnArmed(After(owner, events[..n]), events[n]) {
        AfterNext(owner, events, n);
        assert ArmedMeansVerified(After(owner, events[..n + 1]));
        ArmedLosesMeaningExactly(owner, After(owner, events[..n]), events[n]);
      }
    }
  }

  /** Two requests for one process whose sections overlap: the first one's verdict arms
      the entry of the second, and the second one's failed check leaves it armed. */
  lemma ArmedButUnverified(owner: string, first: RegisterRequest, second: RegisterRequest,
                           peer: Peer, conns: (nat, nat), now: nat)
    requires peer.uidOrSid == owner && Defect(first) == None && Defect(second) == None
    requires first.key == second.key && first.nonce != second.nonce
    ensures var events := [Begin(first, peer, conns.0, now), Begin(second, peer, conns.1, now),
                           Verify(first.key, true, true), Verify(second.key, false, true)];
            var r := After(owner, events);
            && second.key in r.entries
            && r.entries[second.key].claim == second && r.entries[second.key].conn == conns.1
            && r.entries[second.key].state == Armed && !r.entries[second.key].verified
  {
    var events := [Begin(first, peer, conns.0, now), Begin(second, peer, conns.1, now),
                   Verify(first.key, true, true), Verify(second.key, false, true)];
    AfterFour(owner, events);
    SecondReplacesFirst(owner, first, second, peer, conns, now);
  }

  lemma AfterFour(owner: string, events: seq<Event>)
    requires |events| == 4
    ensures After(owner, events) == Next(owner, Next(owner, Next(owner, Next(owner, Empty, events[0]), events[1]), events[2]), events[3])
  {
    assert events[..0] == [] && events[..4] == events;
    AfterNext(owner, events, 0);
    AfterNext(owner, events, 1);
    AfterNext(owner, events, 2);
    AfterNext(owner, events, 3);
  }

  lemma SecondReplacesFirst(owner: string, first: RegisterRequest, second: RegisterRequest,
                            peer: Peer, conns: (nat, nat), now: nat)
    requires peer.uidOrSid == owner && Defect(first) == None && Defect(second) == None
    requires first.key == second.key && first.nonce != second.nonce
    ensures var r := Next(owner, Empty, Begin(first, peer, conns.0, now));
            var s := Next(owner, r, Begin(second, peer, conns.1, now));
            second.key in s.entries && s.entries[second.key] == NewEntry(second, peer, conns.1, now)
  {
  }

  // --------------------------------------------- registration as one operation

  /** The daemon's own operations: `Register` runs both sections back to back. */
  datatype Operation =
    | Register(req: RegisterRequest, peer: Peer, conn: nat, now: nat, verified: bool, alive: bool)
    | Other(event: Event)

  predicate IsOperation(op: Operation) {
    op.Other? ==> op.event.Heartbeat? || op.event.DropConn? || op.event.Reap?
  }

  function Perform(owner: string, r: Registry, op: Operation): Registry {
    match op
    case Register(req, peer, conn, now, verified, alive) =>
      if Refusal(owner, r, req, peer) == None then
        Next(owner, Next(owner, r, Begin(req, peer, conn, now)), Verify(req.key, verified, alive))
      else r
    case Other(event) => Next(owner, r, event)
  }

  function Performed(owner: string, ops: seq<Operation>): Registry {
    if ops == [] then Empty
    else
      var n := |ops| - 1;
      Perform(owner, Performed(owner, ops[..n]), ops[n])
  }

  /** With registration taken as one step, every armed entry is verified and alive. */
  lemma {:induction false} ArmedIsVerifiedAndAlive(owner: string, ops: seq<Operation>, key: ProcessKey)
    requires forall i :: 0 <= i < |ops| ==> IsOperation(ops[i])
    requires key in Performed(owner, ops).entries
    ensures Performed(owner, ops).entries[key].state == Armed
       <==> Performed(owner, ops).entries[key].verified && Performed(owner, ops).entries[key].alive
  {
    var n := |ops| - 1;
    var r, op := Performed(owner, ops[..n]), ops[n];
    if op.Register? {
      if op.req.key != key || Refusal(owner, r, op.req, op.peer) != None {
        assert key in r.entries;
        ArmedIsVerifiedAndAlive(owner, ops[..n], key);
      }
    } else {
      PresentBefore(owner, r, op.event, key);
      ArmedIsVerifiedAndAlive(owner, ops[..n], key);
    }
  }
}
