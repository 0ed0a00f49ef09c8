/**
 The registry object (crates/running-process-probe-daemon/src/registry.rs): two maps
 and a nonce set that its methods change in place. Each method is proved to take
 the step of `Registrations` that its lock section is.
 */
module RegistryService {
  import opened Wrappers
  import opened Identity
  import opened Registrations

  method ValidateSymbolPaths(paths: seq<string>) returns (v: Verdict)
    ensures v == CheckSymbolPaths(paths)
  {
    for k := 0 to |paths|
      invariant CheckSymbolPaths(paths) == CheckSymbolPaths(paths[k..])
    {
      assert paths[k..][1..] == paths[k + 1..];
      if |paths[k]| > MAX_EXE_PATH_BYTES {
        return Some(OversizeField("symbol_path", |paths[k]|, MAX_EXE_PATH_BYTES));
      }
    }
    v := None;
  }

  /** The disclosed environment's first defect and, if it has none, its size. */
  method ValidateEnv(env: seq<EnvVar>, allowlist: seq<string>) returns (v: Verdict, bytes: nat)
    ensures v == CheckEnv(env, allowlist)
    ensures v.None? ==> bytes == SaturatingAdd(0, EnvBytes(env))
  {
    bytes := 0;
    for k := 0 to |env|
      invariant CheckEnv(env, allowlist) == CheckEnv(env[k..], allowlist)
      invariant bytes <= U64_MAX && SaturatingAdd(bytes, EnvBytes(env[k..])) == SaturatingAdd(0, EnvBytes(env))
    {
      assert env[k..][1..] == env[k + 1..];
      var name, value := env[k].name, env[k].value;
      if |name| > MAX_ENV_FIELD_BYTES {
        return Some(OversizeField("disclosed_env_key", |name|, MAX_ENV_FIELD_BYTES)), bytes;
      }
      if |value| > MAX_ENV_FIELD_BYTES {
        return Some(OversizeField("disclosed_env_value", |value|, MAX_ENV_FIELD_BYTES)), bytes;
      }
      if name !in allowlist {
        return Some(UndeclaredEnvironment(name)), bytes;
      }
      bytes := SaturatingAdd(bytes, |name| + |value|);
    }
    v := None;
  }

  /** Accepts exactly the well-formed requests, and otherwise names what is really wrong:
      the first defect in the order of the checks. */
  method Validate(req: RegisterRequest) returns (v: Verdict)
    ensures v.None? <==> WellFormed(req)
    ensures v.Some? ==> Justified(req, v.value)
    ensures v == Defect(req)
  {
    AcceptedExactlyWhenWellFormed(req);
    if Defect(req).Some? {
      DefectIsJustified(req);
    }
    v := ShallowDefect(req);
    if v.Some? { return; }
    v := ValidateSymbolPaths(req.symbolPaths);
    if v.Some? { return; }
    v := CheckSymbolSource(req);
    if v.Some? { return; }
    v := First(CheckLen("env_allowlist", |req.envAllowlist|, MAX_ENV_ALLOWLIST),
               CheckLen("disclosed_cwd", OptionLength(req.disclosedCwd), MAX_EXE_PATH_BYTES));
    if v.Some? { return; }
    var bytes: nat;
    v, bytes := ValidateEnv(req.disclosedEnv, req.envAllowlist);
    if v.Some? { return; }
    v := CheckLen("disclosed_env_bytes", bytes, MAX_DISCLOSED_ENV_BYTES);
  }

  class LiveRegistry {
    const owner: string
    var entries: map<ProcessKey, Entry>
    var byPid: map<nat, ProcessKey>
    var nonces: set<Nonce>

    function View(): Registry
      reads this
    {
      Registry(entries, byPid, nonces)
    }

    constructor (owner: string)
      ensures this.owner == owner && View() == Empty
    {
      this.owner := owner;
      entries, byPid, nonces := map[], map[], {};
    }

    /** Validates a request and creates a registering entry; a refusal changes nothing. */
    method BeginRegister(req: RegisterRequest, peer: Peer, conn: nat, now: nat)
      returns (r: Result<ProcessKey, RegisterError>)
      modifies this
      ensures View() == Next(owner, old(View()), Begin(req, peer, conn, now))
      ensures r == (var refusal := Refusal(owner, old(View()), req, peer);
                    if refusal.None? then Ok(req.key) else Err(refusal.value))
      ensures r.Ok? <==> peer.uidOrSid == owner && WellFormed(req) && |old(nonces)| < 4096 && req.nonce !in old(nonces)
      ensures r.Err? ==> View() == old(View())
      ensures r.Ok? && Indexed(old(View())) ==> Enters(old(View()), req, peer, conn, now, View())
    {
      AcceptedExactlyWhenWellFormed(req);
      if Indexed(View()) {
        AdmittedEnters(View(), req, peer, conn, now);
      }
      if peer.uidOrSid != owner {
        return Err(PeerRejected(peer.uidOrSid));
      }
      var defect := Validate(req);
      if defect.Some? {
        return Err(defect.value);
      }
      if |nonces| >= MAX_TRACKED_NONCES || req.nonce in nonces {
        return Err(NonceReplay);
      }
      nonces := nonces + {req.nonce};
      // Another instance now holds this pid: its previous holder is gone.
      if req.key.pid in byPid && byPid[req.key.pid] != req.key {
        entries := entries - {byPid[req.key.pid]};
      }
      byPid := byPid[req.key.pid := req.key];
      entries := entries[req.key := NewEntry(req, peer, conn, now)];
      r := Ok(req.key);
    }

    method VerifyAndArm(key: ProcessKey, verified: bool, alive: bool) returns (r: Option<RegisterError>)
      modifies this`entries
      ensures View() == Next(owner, old(View()), Verify(key, verified, alive))
      ensures r == None <==>
                key in old(entries) && old(entries)[key].state == Registering && verified && alive
      ensures r == None ==> entries[key].state == Armed
      ensures r != None && key in old(entries) ==> entries[key].state == old(entries)[key].state
      ensures key in old(entries) ==>
                key in entries && entries[key].verified == verified && entries[key].alive == alive
                && entries[key] == old(entries)[key].(verified := verified, alive := alive, state := entries[key].state)
      ensures forall k :: k != key ==>
                (k in entries <==> k in old(entries)) && (k in entries ==> entries[k] == old(entries)[k])
      ensures r == Some(NotRegistered) <==> key !in old(entries)
      ensures r == Some(StateRefused(IdentityUnverified)) <==> key in old(entries) && !verified
      ensures r == Some(StateRefused(NoLiveProbe)) <==> key in old(entries) && verified && !alive
    {
      if key !in entries {
        return Some(NotRegistered);
      }
      var entry := entries[key].(verified := verified, alive := alive);
      var next := Arm(entry.state, entry.verified, entry.alive);
      if next.Err? {
        entries := entries[key := entry];
        return Some(StateRefused(next.error));
      }
      entries := entries[key := entry.(state := next.value)];
      r := None;
    }

    method Heartbeat(key: ProcessKey, conn: nat, now: nat) returns (r: Option<RegisterError>)
      modifies this`entries
      ensures View() == Next(owner, old(View()), Event.Heartbeat(key, conn, now))
      ensures r == if Beats(old(View()), key, conn) then None else Some(NotRegistered)
      ensures r == None <==> key in old(entries) && old(entries)[key].conn == conn && old(entries)[key].state != Dropped
      ensures r == None ==> entries == old(entries)[key := old(entries)[key].(lastHeartbeat := now)]
      ensures r != None ==> r == Some(NotRegistered) && entries == old(entries)
    {
      if key !in entries || entries[key].state == Dropped || entries[key].conn != conn {
        return Some(NotRegistered);
      }
      entries := entries[key := entries[key].(lastHeartbeat := now)];
      r := None;
    }

    /** Removes the doomed keys one by one, from the index too where they hold it. */
    method Remove(doomed: set<ProcessKey>)
      requires doomed <= entries.Keys
      modifies this`entries, this`byPid
      ensures View() == Without(old(View()), doomed)
    {
      var todo := doomed;
      ghost var done: set<ProcessKey> := {};
      while todo != {}
        invariant todo !! done && todo + done == doomed
        invariant entries == old(entries) - done
        invariant View() == Without(old(View()), done)
        decreases todo
      {
        var key :| key in todo;
        entries := entries - {key};
        if key.pid in byPid && byPid[key.pid] == key {
          byPid := byPid - {key.pid};
        }
        todo := todo - {key};
        done := done + {key};
      }
      assert done == doomed;
    }

    /** Removes exactly the entries that the connection owns. */
    method DropByConn(conn: nat) returns (dropped: nat)
      modifies this`entries, this`byPid
      ensures View() == Next(owner, old(View()), DropConn(conn))
      ensures entries == map k | k in old(entries) && old(entries)[k].conn != conn :: old(entries)[k]
      ensures dropped == |OnConnection(old(View()), conn)|
    {
      var doomed := set k | k in entries && entries[k].conn == conn;
      Remove(doomed);
      dropped := |doomed|;
    }

    /** Removes exactly the entries whose last heartbeat is older than `grace`. */
    method ReapExpired(now: nat, grace: nat) returns (reaped: nat)
      modifies this`entries, this`byPid
      ensures View() == Next(owner, old(View()), Reap(now, grace))
      ensures entries == map k | k in old(entries)
                              && now <= old(entries)[k].lastHeartbeat + grace :: old(entries)[k]
      ensures reaped == |Lapsed(old(View()), now, grace)|
    {
      var doomed := set k | k in entries && SaturatingSub(now, entries[k].lastHeartbeat) > grace;
      Remove(doomed);
      reaped := |doomed|;
    }
  }
}
