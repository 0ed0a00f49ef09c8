/**
 What a reply to a live query shows, said of registrations and rows of the OS table alone
 (crates/running-process-probe-daemon/src/query.rs): which of them it contains, and that of
 a registered process it discloses what the registrant exposes and nothing more.
 */
module QueryReplies {
  import opened Wrappers
  import opened Identity
  import opened Registrations
  import opened LiveQuery

  /** A matcher that is given accepts the text. */
  predicate Asks(m: Option<TextMatcher>, text: string) {
    && (m.Some? && m.value.Exact? ==> text == m.value.text)
    && (m.Some? && m.value.Pattern? ==> m.value.accepts(text))
  }

  predicate KeyFits(key: ProcessKey, q: ProcessQuery) {
    && (q.pid.Some? ==> key.pid == q.pid.value)
    && (q.pidRange.Some? ==> q.pidRange.value.low <= key.pid <= q.pidRange.value.high)
    && (q.startRange.Some? ==> q.startRange.value.low <= key.startedAt <= q.startRange.value.high)
  }

  /** The first disclosed variable of this name has an accepted value. */
  ghost predicate EnvFits(env: seq<EnvVar>, p: EnvPredicate) {
    exists i :: 0 <= i < |env| && env[i].name == p.name && Asks(p.value, env[i].value)
             && forall j :: 0 <= j < i ==> env[j].name != p.name
  }

  /** The name shown: the last component of the path, or the application's name. */
  predicate IsShownName(host: Host, claim: RegisterRequest, name: string) {
    && (host.fileName(claim.exePath) != "" ==> name == host.fileName(claim.exePath))
    && (host.fileName(claim.exePath) == "" ==> name == claim.appName)
  }

  /** A registration the query asks for. The path counts only if it is exposed, the working
      directory only if it is disclosed, variables only if they are. */
  ghost predicate EntryFits(host: Host, e: Entry, q: ProcessQuery) {
    && (forall name :: IsShownName(host, e.claim, name) ==> Asks(q.name, name))
    && (q.exe.Some? ==> e.claim.exposeExePath && Asks(q.exe, e.claim.exePath))
    && (q.cwd.Some? ==> e.claim.disclosedCwd.Some? && Asks(q.cwd, e.claim.disclosedCwd.value))
    && Asks(q.appClass, e.claim.appClass)
    && KeyFits(e.key, q)
    && forall i :: 0 <= i < |q.env| ==> EnvFits(e.claim.disclosedEnv, q.env[i])
  }

  /** An unregistered process the query asks for: it has no class and no variables. */
  predicate RowFits(row: OsProcess, q: ProcessQuery) {
    && Asks(q.name, row.name)
    && (q.exe.Some? ==> row.exe.Some? && Asks(q.exe, row.exe.value))
    && (q.cwd.Some? ==> row.cwd.Some? && Asks(q.cwd, row.cwd.value))
    && q.appClass.None? && q.env == []
    && KeyFits(ProcessKey(row.pid, row.startedAt, ""), q)
  }

  /** What is shown of a registration. */
  predicate ShowsEntry(host: Host, e: Entry, includeEnv: bool, info: ProcessInfo) {
    && info.registered && info.key == e.key && IsShownName(host, e.claim, info.name)
    && info.exePath == (if e.claim.exposeExePath then e.claim.exePath else "")
    && (e.claim.disclosedCwd == Some(info.cwd) || (e.claim.disclosedCwd == None && info.cwd == ""))
    && info.appClass == e.claim.appClass && info.appName == e.claim.appName
    && info.appVersion == e.claim.appVersion && info.instanceName == e.claim.instanceName
    && info.registeredAt == e.registeredAt
    && (info.runtime == e.claim.runtime || (info.runtime == 0 && e.claim.runtime != 1 && e.claim.runtime != 2))
    && ShowsOps(e.claim.supportedOps, info.supportedOps)
    && (if includeEnv then info.env == e.claim.disclosedEnv else info.env == [])
    && (if includeEnv && e.claim.exposeEnvNames
        then |info.envNames| == |e.claim.disclosedEnv|
             && forall i :: 0 <= i < |info.envNames| ==> info.envNames[i] == e.claim.disclosedEnv[i].name
        else info.envNames == [])
  }

  /** The codes shown are those of the known operations offered. */
  predicate ShowsOps(ops: seq<string>, codes: seq<int>) {
    && (1 in codes <==> "stack_capture" in ops) && (2 in codes <==> "cpu_profile" in ops)
    && (3 in codes <==> "heap_profile" in ops) && (4 in codes <==> "off_cpu_profile" in ops)
    && forall code :: code in codes ==> 1 <= code <= 4
  }

  /** What is shown of a process that nobody has registered. */
  predicate ShowsRow(host: Host, row: OsProcess, info: ProcessInfo) {
    && !info.registered && info.key == ProcessKey(row.pid, row.startedAt, host.bootId) && info.name == row.name
    && (row.exe == Some(info.exePath) || (row.exe == None && info.exePath == ""))
    && (row.cwd == Some(info.cwd) || (row.cwd == None && info.cwd == ""))
    && info.appClass == "" && info.appName == "" && info.appVersion == "" && info.instanceName == ""
    && info.runtime == 0 && info.supportedOps == [] && info.registeredAt == 0 && info.env == [] && info.envNames == []
  }

  // ----------------------------------------------------------- the building blocks

  lemma TextMeans(m: Option<TextMatcher>, text: string)
    ensures MatchesText(m, Some(text)) <==> Asks(m, text)
    ensures MatchesText(m, None) <==> m.None?
  {
  }

  lemma {:induction false} LookupMeans(env: seq<EnvVar>, p: EnvPredicate)
    ensures Lookup(env, p.name).Some? && MatchesText(p.value, Lookup(env, p.name)) <==> EnvFits(env, p)
  {
    if env != [] {
      if env[0].name == p.name {
        TextMeans(p.value, env[0].value);
        assert EnvFits(env, p) <==> Asks(p.value, env[0].value);
      } else {
        LookupMeans(env[1..], p);
        if EnvFits(env[1..], p) {
          var i :| 0 <= i < |env[1..]| && env[1..][i].name == p.name && Asks(p.value, env[1..][i].value)
                   && forall j :: 0 <= j < i ==> env[1..][j].name != p.name;
          FirstMoves(env, p, i);
        }
        if EnvFits(env, p) {
          var i :| 0 <= i < |env| && env[i].name == p.name && Asks(p.value, env[i].value)
                   && forall j :: 0 <= j < i ==> env[j].name != p.name;
          assert env[1..][i - 1] == env[i];
        }
      }
    }
  }

  lemma FirstMoves(env: seq<EnvVar>, p: EnvPredicate, i: nat)
    requires env != [] && env[0].name != p.name && i < |env| - 1
    requires env[i + 1].name == p.name && Asks(p.value, env[i + 1].value)
    requires forall j :: 0 <= j < i ==> env[1..][j].name != p.name
    ensures EnvFits(env, p)
  {
    forall j | 0 <= j < i + 1 ensures env[j].name != p.name {
      if j > 0 {
        assert env[1..][j - 1] == env[j];
      }
    }
  }

  lemma {:induction false} OpCodesMean(ops: seq<string>)
    ensures ShowsOps(ops, OpCodes(ops))
  {
    if ops != [] {
      OpCodesMean(ops[1..]);
      assert ops == [ops[0]] + ops[1..];
    }
  }

  // ------------------------------------------------------------------- meaning

  /** A candidate made of a registration matches exactly if the registration is asked for. */
  lemma RegistrationMatches(host: Host, e: Entry, q: ProcessQuery)
    requires e.state == Armed
    ensures FromRegistration(host, e).Some?
    ensures Matches(FromRegistration(host, e).value, q) <==> EntryFits(host, e, q)
  {
    var c := FromRegistration(host, e).value;
    TextMeans(q.name, c.name);
    TextMeans(q.appClass, c.appClass);
    TextMeans(q.exe, e.claim.exePath);
    assert IsShownName(host, e.claim, c.name);
    forall i | 0 <= i < |q.env|
      ensures Lookup(c.env, q.env[i].name).Some? && MatchesText(q.env[i].value, Lookup(c.env, q.env[i].name))
         <==> EnvFits(e.claim.disclosedEnv, q.env[i])
    {
      LookupMeans(c.env, q.env[i]);
    }
  }

  lemma RowMatches(host: Host, row: OsProcess, q: ProcessQuery)
    ensures Matches(FromRow(host, row), q) <==> RowFits(row, q)
  {
    TextMeans(q.name, row.name);
    if q.env != [] {
      assert Lookup(FromRow(host, row).env, q.env[0].name).None?;
    }
  }

  lemma RegistrationShows(host: Host, e: Entry, includeEnv: bool)
    requires e.state == Armed
    ensures FromRegistration(host, e).Some?
    ensures ShowsEntry(host, e, includeEnv, IntoProto(FromRegistration(host, e).value, includeEnv))
  {
    OpCodesMean(e.claim.supportedOps);
  }

  lemma RowShows(host: Host, row: OsProcess, includeEnv: bool)
    ensures ShowsRow(host, row, IntoProto(FromRow(host, row), includeEnv))
  {
  }

  // --------------------------------------------------------------- main results

  predicate ArmedHolds(r: Registry, pid: nat) {
    exists k :: k in r.entries && k.pid == pid && r.entries[k].state == Armed
  }

  /** What an info of a reply is: an armed registration that the query asks for, shown as
      its registrant allows; or, if the query wants them, a row of the OS table that it asks
      for, of a process no armed registration holds. */
  ghost predicate Describes(host: Host, r: Registry, rows: seq<OsProcess>, q: ProcessQuery, info: ProcessInfo) {
    if info.registered then
      && info.key in r.entries && r.entries[info.key].state == Armed
      && EntryFits(host, r.entries[info.key], q)
      && ShowsEntry(host, r.entries[info.key], q.includeEnv, info)
    else
      exists i :: 0 <= i < |rows| && ShowsRow(host, rows[i], info) && RowFits(rows[i], q) && !ArmedHolds(r, rows[i].pid)
  }

  lemma AnswerDescribes(host: Host, r: Registry, rows: seq<OsProcess>, q: ProcessQuery, c: Candidate)
    requires Inv(r) && IsCandidate(host, r, rows, c) && Matches(c, q)
    ensures Describes(host, r, rows, q, IntoProto(c, q.includeEnv))
  {
    if FromEntry(host, r, c) {
      var k :| k in r.entries && FromRegistration(host, r.entries[k]) == Some(c);
      assert EntrySound(k, r.entries[k]);
      RegistrationMatches(host, r.entries[k], q);
      RegistrationShows(host, r.entries[k], q.includeEnv);
    } else {
      var i :| 0 <= i < |rows| && FirstOfItsSlot(rows, i) && !PidIsArmed(r, rows[i].pid) && c == FromRow(host, rows[i]);
      RowMatches(host, rows[i], q);
      RowShows(host, rows[i], q.includeEnv);
    }
  }

  /** Over any run of the registry: every info of a reply is such a description. */
  lemma RepliesDescribe(owner: string, events: seq<Event>, host: Host, rows: seq<OsProcess>, q: ProcessQuery,
                        answer: seq<Candidate>, i: nat)
    requires IsAnswer(host, After(owner, events), rows, q, answer) && i < |answer|
    ensures Describes(host, After(owner, events), rows, q, ToProtos(answer, q.includeEnv)[i])
  {
    ReachableIsSound(owner, events);
    AnswerDescribes(host, After(owner, events), rows, q, answer[i]);
  }

  lemma FittingIsCandidate(host: Host, r: Registry, rows: seq<OsProcess>, q: ProcessQuery, k: ProcessKey) returns (c: Candidate)
    requires Inv(r) && k in r.entries && r.entries[k].state == Armed && EntryFits(host, r.entries[k], q)
    ensures c.key == k && c.registered && IsCandidate(host, r, rows, c) && Matches(c, q)
  {
    assert EntrySound(k, r.entries[k]);
    RegistrationMatches(host, r.entries[k], q);
    c := FromRegistration(host, r.entries[k]).value;
    assert FromEntry(host, r, c);
  }

  lemma CandidateNotMissed(host: Host, r: Registry, rows: seq<OsProcess>, q: ProcessQuery, answer: seq<Candidate>, c: Candidate)
    requires IsAnswer(host, r, rows, q, answer) && IsCandidate(host, r, rows, c) && Matches(c, q)
    ensures var infos := ToProtos(answer, q.includeEnv);
            || (exists i :: 0 <= i < |infos| && infos[i] == IntoProto(c, q.includeEnv))
            || (|infos| == q.limit && forall i :: 0 <= i < |infos| ==> Earlier(infos[i].key, c.key))
  {
    if c in answer {
      var i :| 0 <= i < |answer| && answer[i] == c;
      assert ToProtos(answer, q.includeEnv)[i] == IntoProto(c, q.includeEnv);
    }
  }

  /** And none is missing: an armed registration that the query asks for is in the reply, or
      the reply is full and ends before it in the order of pid and start time. */
  lemma NoRegistrationMissed(owner: string, events: seq<Event>, host: Host, rows: seq<OsProcess>, q: ProcessQuery,
                             answer: seq<Candidate>, k: ProcessKey)
    requires IsAnswer(host, After(owner, events), rows, q, answer)
    requires k in After(owner, events).entries && After(owner, events).entries[k].state == Armed
    requires EntryFits(host, After(owner, events).entries[k], q)
    ensures var infos := ToProtos(answer, q.includeEnv);
            || (exists i :: 0 <= i < |infos| && infos[i].key == k && infos[i].registered)
            || (|infos| == q.limit && forall i :: 0 <= i < |infos| ==> Earlier(infos[i].key, k))
  {
    ReachableIsSound(owner, events);
    var c := FittingIsCandidate(host, After(owner, events), rows, q, k);
    CandidateNotMissed(host, After(owner, events), rows, q, answer, c);
  }

  predicate Earlier(a: ProcessKey, b: ProcessKey) {
    a.pid < b.pid || (a.pid == b.pid && a.startedAt < b.startedAt)
  }

  /** The same for rows of the OS table: the first row of a process that no armed
      registration holds. */
  lemma NoRowMissed(owner: string, events: seq<Event>, host: Host, rows: seq<OsProcess>, q: ProcessQuery,
                    answer: seq<Candidate>, n: nat)
    requires IsAnswer(host, After(owner, events), rows, q, answer)
    requires n < |rows| && RowFits(rows[n], q) && !ArmedHolds(After(owner, events), rows[n].pid)
    requires forall m :: 0 <= m < n ==> rows[m].pid != rows[n].pid || rows[m].startedAt != rows[n].startedAt
    ensures var infos := ToProtos(answer, q.includeEnv);
            || (exists i :: 0 <= i < |infos| && ShowsRow(host, rows[n], infos[i]))
            || (|infos| == q.limit
                && forall i :: 0 <= i < |infos| ==> Earlier(infos[i].key, ProcessKey(rows[n].pid, rows[n].startedAt, host.bootId)))
  {
    var r, c := After(owner, events), FromRow(host, rows[n]);
    RowMatches(host, rows[n], q);
    RowShows(host, rows[n], q.includeEnv);
    assert FromOs(host, r, rows, c);
    CandidateNotMissed(host, r, rows, q, answer, c);
  }

  lemma RepliesWithinLimit(host: Host, r: Registry, rows: seq<OsProcess>, q: ProcessQuery, answer: seq<Candidate>)
    requires IsAnswer(host, r, rows, q, answer)
    ensures |ToProtos(answer, q.includeEnv)| <= q.limit
  {
  }

  /** A reply is in the order of pid and start time. */
  lemma RepliesInOrder(host: Host, r: Registry, rows: seq<OsProcess>, q: ProcessQuery, answer: seq<Candidate>, i: nat, j: nat)
    requires IsAnswer(host, r, rows, q, answer) && i < j < |answer|
    ensures Earlier(ToProtos(answer, q.includeEnv)[i].key, ToProtos(answer, q.includeEnv)[j].key)
  {
  }
}
