/**
 Queries over live processes (crates/running-process-probe-daemon/src/query.rs).

 A query sees every armed registration and, if asked, the rows of the OS process
 table whose pid no armed registration holds. The engine gathers candidates in a
 map keyed by pid and start time, without the boot id; that no entry is lost by
 this rests on the registry's index. Glob and regular-expression matchers are
 arbitrary predicates, and so is the taking of a path's last component.
 */
module LiveQuery {
  import opened Wrappers
  import opened Identity
  import opened Registrations

  datatype TextMatcher = Exact(text: string) | Pattern(accepts: string -> bool)

  datatype EnvPredicate = EnvPredicate(name: string, value: Option<TextMatcher>)

  datatype Range = Range(low: nat, high: nat)

  datatype ProcessQuery = ProcessQuery(
    name: Option<TextMatcher>, exe: Option<TextMatcher>, cwd: Option<TextMatcher>,
    appClass: Option<TextMatcher>, pid: Option<nat>, pidRange: Option<Range>,
    startRange: Option<Range>, env: seq<EnvPredicate>,
    includeEnv: bool, includeUnregistered: bool, limit: nat)

  datatype OsProcess = OsProcess(
    pid: nat, startedAt: nat, name: string, exe: Option<string>, cwd: Option<string>)

  datatype Candidate = Candidate(
    key: ProcessKey, name: string, exe: Option<string>, cwd: Option<string>, registered: bool,
    appClass: string, appName: string, appVersion: string, instanceName: string,
    runtime: int, supportedOps: seq<int>, registeredAt: nat, env: seq<EnvVar>, exposeEnvNames: bool)

  datatype ProcessInfo = ProcessInfo(
    key: ProcessKey, exePath: string, appClass: string, appName: string, appVersion: string,
    instanceName: string, runtime: int, supportedOps: seq<int>, registeredAt: nat,
    env: seq<EnvVar>, name: string, cwd: string, registered: bool, envNames: seq<string>)

  /** What the engine takes from its surroundings. */
  datatype Host = Host(bootId: string, fileName: string -> string)

  // -------------------------------------------------------------- candidates

  function OpCodes(ops: seq<string>): seq<int> {
    if ops == [] then []
    else
      (if ops[0] == "stack_capture" then [1]
       else if ops[0] == "cpu_profile" then [2]
       else if ops[0] == "heap_profile" then [3]
       else if ops[0] == "off_cpu_profile" then [4]
       else []) + OpCodes(ops[1..])
  }

  function FromRegistration(host: Host, e: Entry): Option<Candidate> {
    if e.state != Armed then None
    else
      var claim := e.claim;
      var base := host.fileName(claim.exePath);
      Some(Candidate(
        e.key, if base == "" then claim.appName else base,
        if claim.exposeExePath then Some(claim.exePath) else None, claim.disclosedCwd, true,
        claim.appClass, claim.appName, claim.appVersion, claim.instanceName,
        if claim.runtime in {1, 2} then claim.runtime else 0, OpCodes(claim.supportedOps),
        e.registeredAt, claim.disclosedEnv, claim.exposeEnvNames))
  }

  function FromRow(host: Host, row: OsProcess): Candidate {
    Candidate(ProcessKey(row.pid, row.startedAt, host.bootId), row.name, row.exe, row.cwd, false,
              "", "", "", "", 0, [], 0, [], false)
  }

  predicate IsMatch(m: TextMatcher, text: string) {
    match m
    case Exact(expected) => expected == text
    case Pattern(accepts) => accepts(text)
  }

  predicate MatchesText(m: Option<TextMatcher>, text: Option<string>) {
    m.None? || (text.Some? && IsMatch(m.value, text.value))
  }

  predicate InRange(r: Option<Range>, n: nat) {
    r.None? || r.value.low <= n <= r.value.high
  }

  /** The value of an environment variable the process has disclosed. */
  function Lookup(env: seq<EnvVar>, name: string): Option<string> {
    if env == [] then None
    else if env[0].name == name then Some(env[0].value)
    else Lookup(env[1..], name)
  }

  predicate Matches(c: Candidate, q: ProcessQuery) {
    && MatchesText(q.name, Some(c.name))
    && MatchesText(q.exe, c.exe)
    && MatchesText(q.cwd, c.cwd)
    && MatchesText(q.appClass, if c.registered then Some(c.appClass) else None)
    && (q.pid.None? || c.key.pid == q.pid.value)
    && InRange(q.pidRange, c.key.pid)
    && InRange(q.startRange, c.key.startedAt)
    && forall i :: 0 <= i < |q.env| ==>
         c.registered && Lookup(c.env, q.env[i].name).Some? && MatchesText(q.env[i].value, Lookup(c.env, q.env[i].name))
  }

  function Names(env: seq<EnvVar>): seq<string> {
    seq(|env|, i requires 0 <= i < |env| => env[i].name)
  }

  function OrEmpty(s: Option<string>): string {
    if s.Some? then s.value else ""
  }

  function IntoProto(c: Candidate, includeEnv: bool): ProcessInfo {
    var env := if includeEnv then c.env else [];
    ProcessInfo(c.key, OrEmpty(c.exe), c.appClass, c.appName, c.appVersion, c.instanceName, c.runtime,
                c.supportedOps, c.registeredAt, env, c.name, OrEmpty(c.cwd), c.registered,
                if includeEnv && c.exposeEnvNames then Names(env) else [])
  }

  // ---------------------------------------------------------- specification

  datatype Slot = Slot(pid: nat, startedAt: nat)

  function SlotOf(key: ProcessKey): Slot {
    Slot(key.pid, key.startedAt)
  }

  predicate Before(a: Slot, b: Slot) {
    a.pid < b.pid || (a.pid == b.pid && a.startedAt < b.startedAt)
  }

  /** The armed registrations. */
  ghost predicate FromEntry(host: Host, r: Registry, c: Candidate) {
    exists k :: k in r.entries && FromRegistration(host, r.entries[k]) == Some(c)
  }

  ghost predicate PidIsArmed(r: Registry, pid: nat) {
    exists k :: k in r.entries && k.pid == pid && r.entries[k].state == Armed
  }

  predicate FirstOfItsSlot(rows: seq<OsProcess>, i: nat)
    requires i < |rows|
  {
    forall j :: 0 <= j < i ==> Slot(rows[j].pid, rows[j].startedAt) != Slot(rows[i].pid, rows[i].startedAt)
  }

  /** The OS rows, first of each slot, whose pid no armed registration holds. */
  ghost predicate FromOs(host: Host, r: Registry, rows: seq<OsProcess>, c: Candidate) {
    exists i :: 0 <= i < |rows| && FirstOfItsSlot(rows, i) && !PidIsArmed(r, rows[i].pid) && c == FromRow(host, rows[i])
  }

  ghost predicate IsCandidate(host: Host, r: Registry, rows: seq<OsProcess>, c: Candidate) {
    FromEntry(host, r, c) || FromOs(host, r, rows, c)
  }

  /** The first `limit` matching candidates in order of pid and start time. */
  ghost predicate IsAnswer(host: Host, r: Registry, rows: seq<OsProcess>, q: ProcessQuery, answer: seq<Candidate>) {
    && |answer| <= q.limit
    && (forall i, j :: 0 <= i < j < |answer| ==> Before(SlotOf(answer[i].key), SlotOf(answer[j].key)))
    && (forall c :: c in answer ==> IsCandidate(host, r, rows, c) && Matches(c, q))
    && (forall c :: IsCandidate(host, r, rows, c) && Matches(c, q) && c !in answer ==>
          |answer| == q.limit && forall i :: 0 <= i < |answer| ==> Before(SlotOf(answer[i].key), SlotOf(c.key)))
  }

  // ------------------------------------------------------------- the engine

  /** No two entries agree on pid and start time, and each carries its own key. */
  ghost predicate SlotsDistinct(r: Registry) {
    && (forall k :: k in r.entries ==> r.entries[k].key == k)
    && (forall k, l :: k in r.entries && l in r.entries && SlotOf(k) == SlotOf(l) ==> k == l)
  }

  lemma IndexedSlotsDistinct(r: Registry)
    requires Inv(r)
    ensures SlotsDistinct(r)
  {
  }

  /** In every reachable registry, dropping the boot id from the key loses nothing. */
  lemma BootIdIsNotNeeded(owner: string, events: seq<Event>)
    ensures SlotsDistinct(After(owner, events))
  {
    ReachableIsSound(owner, events);
    IndexedSlotsDistinct(After(owner, events));
  }

  /** The candidates gathered so far are exactly those of the entries in `done`. */
  ghost predicate Gathered(host: Host, r: Registry, done: set<ProcessKey>, found: map<Slot, Candidate>) {
    && (forall k :: k in done && k in r.entries && r.entries[k].state == Armed ==>
          SlotOf(k) in found && Some(found[SlotOf(k)]) == FromRegistration(host, r.entries[k]))
    && (forall s :: s in found ==>
          && SlotOf(found[s].key) == s && found[s].key in done && found[s].key in r.entries
          && Some(found[s]) == FromRegistration(host, r.entries[found[s].key]))
  }

  lemma GatherOne(host: Host, r: Registry, done: set<ProcessKey>, found: map<Slot, Candidate>, k: ProcessKey, c: Candidate)
    requires SlotsDistinct(r) && Gathered(host, r, done, found)
    requires k in r.entries && FromRegistration(host, r.entries[k]) == Some(c)
    ensures Gathered(host, r, done + {k}, found[SlotOf(c.key) := c])
  {
    assert c.key == k;
  }

  method GatherEntries(host: Host, r: Registry) returns (found: map<Slot, Candidate>)
    requires SlotsDistinct(r)
    ensures Gathered(host, r, r.entries.Keys, found)
  {
    found := map[];
    var todo := r.entries.Keys;
    while todo != {}
      invariant todo <= r.entries.Keys
      invariant Gathered(host, r, r.entries.Keys - todo, found)
      decreases todo
    {
      var k :| k in todo;
      var candidate := FromRegistration(host, r.entries[k]);
      assert r.entries.Keys - (todo - {k}) == (r.entries.Keys - todo) + {k};
      if candidate.Some? {
        GatherOne(host, r, r.entries.Keys - todo, found, k, candidate.value);
        found := found[Slot(candidate.value.key.pid, candidate.value.key.startedAt) := candidate.value];
      }
      todo := todo - {k};
    }
    assert r.entries.Keys - todo == r.entries.Keys;
  }

  /** The map holds every candidate under its slot, and nothing else. */
  ghost predicate Complete(host: Host, r: Registry, rows: seq<OsProcess>, found: map<Slot, Candidate>) {
    && (forall s :: s in found ==> SlotOf(found[s].key) == s && IsCandidate(host, r, rows, found[s]))
    && (forall c :: IsCandidate(host, r, rows, c) ==> SlotOf(c.key) in found && found[SlotOf(c.key)] == c)
  }

  lemma GatheredIsComplete(host: Host, r: Registry, found: map<Slot, Candidate>)
    requires SlotsDistinct(r) && Gathered(host, r, r.entries.Keys, found)
    ensures Complete(host, r, [], found)
    ensures forall pid :: PidIsArmed(r, pid) <==> exists s :: s in found && s.pid == pid
  {
    forall s | s in found ensures FromEntry(host, r, found[s]) && PidIsArmed(r, s.pid) {
      assert found[s].key in r.entries;
    }
    forall c | IsCandidate(host, r, [], c) ensures SlotOf(c.key) in found && found[SlotOf(c.key)] == c {
      var k :| k in r.entries && FromRegistration(host, r.entries[k]) == Some(c);
    }
    forall pid | PidIsArmed(r, pid) ensures exists s :: s in found && s.pid == pid {
      var k :| k in r.entries && k.pid == pid && r.entries[k].state == Armed;
      assert SlotOf(k) in found;
    }
  }

  /** Adding the next OS row, unless its pid is armed or its slot is taken. */
  lemma AddRow(host: Host, r: Registry, rows: seq<OsProcess>, k: nat, found: map<Slot, Candidate>, more: map<Slot, Candidate>)
    requires SlotsDistinct(r)
    requires k < |rows| && Complete(host, r, rows[..k], found)
    requires var row := rows[k]; var slot := Slot(row.pid, row.startedAt);
             more == if PidIsArmed(r, row.pid) || slot in found then found else found[slot := FromRow(host, row)]
    ensures Complete(host, r, rows[..k + 1], more)
  {
    var row := rows[k];
    var adds := FirstOfItsSlot(rows, k) && !PidIsArmed(r, row.pid);
    if !PidIsArmed(r, row.pid) {
      SlotTakenByEarlierRow(host, r, rows, k, found);
    }
    forall c ensures IsCandidate(host, r, rows[..k + 1], c) <==>
                       IsCandidate(host, r, rows[..k], c) || (adds && c == FromRow(host, row))
    {
      OneMoreRow(host, r, rows, k, c);
    }
    if adds {
      OneMoreCandidate(host, r, rows[..k], rows[..k + 1], found, FromRow(host, row));
    } else {
      NoMoreCandidates(host, r, rows[..k], rows[..k + 1], found);
    }
  }

  lemma NoMoreCandidates(host: Host, r: Registry, rows: seq<OsProcess>, longer: seq<OsProcess>, found: map<Slot, Candidate>)
    requires Complete(host, r, rows, found)
    requires forall c :: IsCandidate(host, r, longer, c) <==> IsCandidate(host, r, rows, c)
    ensures Complete(host, r, longer, found)
  {
  }

  lemma OneMoreCandidate(host: Host, r: Registry, rows: seq<OsProcess>, longer: seq<OsProcess>,
                         found: map<Slot, Candidate>, added: Candidate)
    requires Complete(host, r, rows, found) && SlotOf(added.key) !in found
    requires forall c :: IsCandidate(host, r, longer, c) <==> IsCandidate(host, r, rows, c) || c == added
    ensures Complete(host, r, longer, found[SlotOf(added.key) := added])
  {
  }

  lemma OneMoreRow(host: Host, r: Registry, rows: seq<OsProcess>, k: nat, c: Candidate)
    requires k < |rows|
    ensures FromOs(host, r, rows[..k + 1], c) <==>
              FromOs(host, r, rows[..k], c)
              || (FirstOfItsSlot(rows, k) && !PidIsArmed(r, rows[k].pid) && c == FromRow(host, rows[k]))
  {
    var longer, shorter := rows[..k + 1], rows[..k];
    assert forall i :: 0 <= i < k ==> FirstOfItsSlot(longer, i) == FirstOfItsSlot(shorter, i);
    assert FirstOfItsSlot(longer, k) == FirstOfItsSlot(rows, k);
    if FromOs(host, r, shorter, c) {
      var i :| 0 <= i < |shorter| && FirstOfItsSlot(shorter, i) && !PidIsArmed(r, shorter[i].pid)
               && c == FromRow(host, shorter[i]);
      assert longer[i] == shorter[i];
    }
    if FromOs(host, r, longer, c) {
      var i :| 0 <= i < |longer| && FirstOfItsSlot(longer, i) && !PidIsArmed(r, longer[i].pid)
               && c == FromRow(host, longer[i]);
      if i < k {
        assert shorter[i] == longer[i];
      }
    }
    if FirstOfItsSlot(rows, k) && !PidIsArmed(r, rows[k].pid) && c == FromRow(host, rows[k]) {
      assert longer[k] == rows[k];
    }
  }

  /** The first row of the slot that row `j` has. */
  lemma {:induction false} FirstRowOfSlot(rows: seq<OsProcess>, j: nat) returns (i: nat)
    requires j < |rows|
    ensures i <= j && FirstOfItsSlot(rows, i)
    ensures Slot(rows[i].pid, rows[i].startedAt) == Slot(rows[j].pid, rows[j].startedAt)
  {
    if FirstOfItsSlot(rows, j) {
      return j;
    }
    var l :| 0 <= l < j && Slot(rows[l].pid, rows[l].startedAt) == Slot(rows[j].pid, rows[j].startedAt);
    i := FirstRowOfSlot(rows, l);
  }

  /** A slot whose pid no registration holds is taken exactly if an earlier row has it. */
  lemma SlotTakenByEarlierRow(host: Host, r: Registry, rows: seq<OsProcess>, k: nat, found: map<Slot, Candidate>)
    requires k < |rows| && Complete(host, r, rows[..k], found) && !PidIsArmed(r, rows[k].pid)
    requires SlotsDistinct(r)
    ensures Slot(rows[k].pid, rows[k].startedAt) in found <==> !FirstOfItsSlot(rows, k)
  {
    var slot, earlier := Slot(rows[k].pid, rows[k].startedAt), rows[..k];
    if slot in found {
      var c := found[slot];
      assert FromOs(host, r, earlier, c);
      var i :| 0 <= i < |earlier| && FirstOfItsSlot(earlier, i) && !PidIsArmed(r, earlier[i].pid)
               && c == FromRow(host, earlier[i]);
      assert Slot(rows[i].pid, rows[i].startedAt) == slot;
    }
    if !FirstOfItsSlot(rows, k) {
      var j :| 0 <= j < k && Slot(rows[j].pid, rows[j].startedAt) == slot;
      var i := FirstRowOfSlot(earlier, j);
      assert FromOs(host, r, earlier, FromRow(host, earlier[i]));
      assert IsCandidate(host, r, earlier, FromRow(host, earlier[i]));
    }
  }

  method MinSlot(slots: set<Slot>) returns (least: Slot)
    requires slots != {}
    ensures least in slots && forall s :: s in slots ==> s == least || Before(least, s)
  {
    least :| least in slots;
    var todo := slots - {least};
    while todo != {}
      invariant todo <= slots && least in slots
      invariant forall s :: s in slots && s !in todo ==> s == least || Before(least, s)
      decreases todo
    {
      var s :| s in todo;
      if Before(s, least) {
        least := s;
      }
      todo := todo - {s};
    }
  }

  /** The first `limit` matches of the map in the order of its keys. */
  ghost predicate Selects(found: map<Slot, Candidate>, q: ProcessQuery, answer: seq<Candidate>) {
    && |answer| <= q.limit
    && (forall i, j :: 0 <= i < j < |answer| ==> Before(SlotOf(answer[i].key), SlotOf(answer[j].key)))
    && (forall i :: 0 <= i < |answer| ==>
          SlotOf(answer[i].key) in found && found[SlotOf(answer[i].key)] == answer[i] && Matches(answer[i], q))
    && (forall s :: s in found && Matches(found[s], q) && found[s] !in answer ==>
          |answer| == q.limit && forall i :: 0 <= i < |answer| ==> Before(SlotOf(answer[i].key), s))
  }

  method TakeMatching(found: map<Slot, Candidate>, q: ProcessQuery) returns (answer: seq<Candidate>)
    requires forall s :: s in found ==> SlotOf(found[s].key) == s
    ensures Selects(found, q, answer)
  {
    answer := [];
    var todo := found.Keys;
    while todo != {} && |answer| < q.limit
      invariant todo <= found.Keys && |answer| <= q.limit
      invariant forall i, j :: 0 <= i < j < |answer| ==> Before(SlotOf(answer[i].key), SlotOf(answer[j].key))
      invariant forall i :: 0 <= i < |answer| ==>
                  SlotOf(answer[i].key) in found && found[SlotOf(answer[i].key)] == answer[i] && Matches(answer[i], q)
      invariant forall i, s :: 0 <= i < |answer| && s in todo ==> Before(SlotOf(answer[i].key), s)
      invariant forall s :: s in found && s !in todo && Matches(found[s], q) ==> found[s] in answer
      decreases todo
    {
      var slot := MinSlot(todo);
      todo := todo - {slot};
      if Matches(found[slot], q) {
        answer := answer + [found[slot]];
      }
    }
  }

  lemma SelectionIsAnswer(host: Host, r: Registry, rows: seq<OsProcess>, found: map<Slot, Candidate>,
                          q: ProcessQuery, answer: seq<Candidate>)
    requires Complete(host, r, rows, found) && Selects(found, q, answer)
    ensures IsAnswer(host, r, rows, q, answer)
  {
    forall c | c in answer ensures IsCandidate(host, r, rows, c) && Matches(c, q) {
      var i :| 0 <= i < |answer| && answer[i] == c;
      assert found[SlotOf(answer[i].key)] == answer[i];
    }
  }

  function ToProtos(answer: seq<Candidate>, includeEnv: bool): (infos: seq<ProcessInfo>)
    ensures |infos| == |answer|
    ensures forall i :: 0 <= i < |answer| ==> infos[i] == IntoProto(answer[i], includeEnv)
  {
    seq(|answer|, i requires 0 <= i < |answer| => IntoProto(answer[i], includeEnv))
  }

  class QueryEngine {
    const ttl: nat
    var taken: Option<nat>
    var rows: seq<OsProcess>

    constructor (ttl: nat)
      ensures this.ttl == ttl && taken == None && rows == []
    {
      this.ttl, taken, rows := ttl, None, [];
    }

    predicate Stale(now: nat)
      reads this
    {
      taken.None? || SaturatingSub(now, taken.value) >= ttl
    }

    /** The cached table, read anew when it has reached its age limit. `table` is
        what the OS would answer, and `after` the time once it has. */
    method OsSnapshot(now: nat, table: seq<OsProcess>, after: nat) returns (snapshot: seq<OsProcess>)
      modifies this
      ensures snapshot == rows
      ensures if old(Stale(now)) then rows == table && taken == Some(after) else rows == old(rows) && taken == old(taken)
      ensures old(taken).Some? && ttl != 0 && now < old(taken).value + ttl ==> rows == old(rows) && taken == old(taken)
      ensures old(taken).None? || ttl == 0 || now >= old(taken).value + ttl ==> rows == table && taken == Some(after)
    {
      if taken.None? || SaturatingSub(now, taken.value) >= ttl {
        rows := table;
        taken := Some(after);
      }
      snapshot := rows;
    }

    /** One query. The candidates behind the reply are the first `limit` matches of
        all armed entries and, if asked for, the OS rows no armed entry covers. */
    method Execute(q: ProcessQuery, r: Registry, host: Host, now: nat, table: seq<OsProcess>, after: nat)
      returns (infos: seq<ProcessInfo>, ghost answer: seq<Candidate>)
      requires SlotsDistinct(r)
      modifies this
      ensures infos == ToProtos(answer, q.includeEnv)
      ensures IsAnswer(host, r, if q.includeUnregistered then rows else [], q, answer)
      ensures !q.includeUnregistered ==> rows == old(rows) && taken == old(taken)
    {
      var found := GatherEntries(host, r);
      GatheredIsComplete(host, r, found);
      var added: seq<OsProcess> := [];
      if q.includeUnregistered {
        added := OsSnapshot(now, table, after);
        found := AddRows(host, r, added, found);
      }
      var chosen := TakeMatching(found, q);
      SelectionIsAnswer(host, r, added, found, q, chosen);
      infos := ToProtos(chosen, q.includeEnv);
      answer := chosen;
    }
  }

  method AddRows(host: Host, r: Registry, rows: seq<OsProcess>, entries: map<Slot, Candidate>)
    returns (found: map<Slot, Candidate>)
    requires SlotsDistinct(r) && Complete(host, r, [], entries)
    requires forall pid :: PidIsArmed(r, pid) <==> exists s :: s in entries && s.pid == pid
    ensures Complete(host, r, rows, found)
  {
    found := entries;
    var registeredPids := set s | s in entries :: s.pid;
    assert rows[..0] == [];
    for k := 0 to |rows|
      invariant Complete(host, r, rows[..k], found)
    {
      ghost var before := found;
      var row := rows[k];
      if row.pid !in registeredPids {
        var slot := Slot(row.pid, row.startedAt);
        if slot !in found {
          found := found[slot := FromRow(host, row)];
        }
      }
      AddRow(host, r, rows, k, before, found);
    }
    assert rows[..|rows|] == rows;
  }

  // ---------------------------------------------------------------- disclosure

  /** What a reply discloses of a candidate comes from a registration of its own. */
  lemma DisclosedIsRegistered(host: Host, r: Registry, rows: seq<OsProcess>, c: Candidate, includeEnv: bool, v: EnvVar)
    returns (k: ProcessKey)
    requires IsCandidate(host, r, rows, c) && v in IntoProto(c, includeEnv).env
    ensures includeEnv && c.registered
    ensures k in r.entries && FromRegistration(host, r.entries[k]) == Some(c) && v in r.entries[k].claim.disclosedEnv
  {
    k :| k in r.entries && FromRegistration(host, r.entries[k]) == Some(c);
  }

  /** Over any run of the registry, a reply discloses values only under names its
      own registrant allowed, and none at all for an unregistered process. */
  lemma RepliesStayWithinAllowlist(owner: string, events: seq<Event>, host: Host, rows: seq<OsProcess>,
                                   q: ProcessQuery, answer: seq<Candidate>, i: nat, v: EnvVar)
    requires IsAnswer(host, After(owner, events), rows, q, answer) && i < |answer|
    requires v in IntoProto(answer[i], q.includeEnv).env
    ensures q.includeEnv && answer[i].registered
    ensures answer[i].key in After(owner, events).entries
    ensures v.name in After(owner, events).entries[answer[i].key].claim.envAllowlist
  {
    var r := After(owner, events);
    var k := DisclosedIsRegistered(host, r, rows, answer[i], q.includeEnv, v);
    ReachableIsSound(owner, events);
    assert EntrySound(k, r.entries[k]);
    SoundEntryIsWellFormed(k, r.entries[k]);
  }
}
