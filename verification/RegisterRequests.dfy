/**
 Registration requests with an identity of their own
 (crates/running-process-probe-daemon/src/probe_ops.rs, `register`).

 Every request first enters its registration and later delivers its own verdict, once,
 to whatever entry its key has by then. The nonce tells requests apart, and an entry
 carries the nonce of the request that made it. So it can be asked whether an armed
 entry was armed by its own request, and the answer is exact: it is unless two requests
 for one key overlap in a particular way.
 */
module RegisterRequests {
  import opened Wrappers
  import opened Identity
  import opened Registrations

  datatype Outcome = Outcome(verified: bool, alive: bool)

  const Clean := Outcome(true, true)

  /** `waiting` are the requests that have not delivered their verdict, with their key;
      `verdicts` are the verdicts delivered. */
  datatype Desk = Desk(registry: Registry, waiting: map<Nonce, ProcessKey>, verdicts: map<Nonce, Outcome>)

  const Opening := Desk(Empty, map[], map[])

  datatype Action =
    | Open(req: RegisterRequest, peer: Peer, conn: nat, now: nat)
    | Judge(nonce: Nonce, outcome: Outcome)
    | Other(event: Event)

  predicate IsAction(a: Action) {
    a.Other? ==> !a.event.Begin? && !a.event.Verify?
  }

  function Act(owner: string, d: Desk, a: Action): Desk {
    match a
    case Open(req, peer, conn, now) =>
      if Refusal(owner, d.registry, req, peer) == None then
        d.(registry := Admitted(d.registry, req, peer, conn, now), waiting := d.waiting[req.nonce := req.key])
      else d
    case Judge(n, outcome) =>
      if n in d.waiting then
        Desk(Judged(d.registry, d.waiting[n], outcome), d.waiting - {n}, d.verdicts[n := outcome])
      else d
    case Other(event) => d.(registry := Next(owner, d.registry, event))
  }

  function Judged(r: Registry, key: ProcessKey, outcome: Outcome): Registry {
    if key in r.entries then
      r.(entries := r.entries[key := Verified(r.entries[key], outcome.verified, outcome.alive)])
    else r
  }

  function Acted(owner: string, actions: seq<Action>): Desk {
    if actions == [] then Opening
    else
      var n := |actions| - 1;
      Act(owner, Acted(owner, actions[..n]), actions[n])
  }

  predicate AreActions(actions: seq<Action>) {
    forall i :: 0 <= i < |actions| ==> IsAction(actions[i])
  }

  // --------------------------------------------------- runs of the registry

  /** The registry's events of a run. */
  function AsEvents(owner: string, actions: seq<Action>): seq<Event> {
    if actions == [] then []
    else
      var n := |actions| - 1;
      AsEvents(owner, actions[..n]) + Contribution(Acted(owner, actions[..n]), actions[n])
  }

  function Contribution(d: Desk, a: Action): (events: seq<Event>)
    ensures |events| <= 1
  {
    match a
    case Open(req, peer, conn, now) => [Begin(req, peer, conn, now)]
    case Judge(n, outcome) => if n in d.waiting then [Verify(d.waiting[n], outcome.verified, outcome.alive)] else []
    case Other(event) => [event]
  }

  lemma ActIsNext(owner: string, d: Desk, a: Action)
    ensures var events := Contribution(d, a);
            Act(owner, d, a).registry == if events == [] then d.registry else Next(owner, d.registry, events[0])
  {
  }

  /** What is known of the registry after its own runs holds here. */
  lemma {:induction false} DeskFollowsRegistry(owner: string, actions: seq<Action>)
    ensures Acted(owner, actions).registry == After(owner, AsEvents(owner, actions))
  {
    if actions != [] {
      var n := |actions| - 1;
      var d := Acted(owner, actions[..n]);
      DeskFollowsRegistry(owner, actions[..n]);
      ActIsNext(owner, d, actions[n]);
      var before, more := AsEvents(owner, actions[..n]), Contribution(d, actions[n]);
      if more == [] {
        assert before + more == before;
      } else {
        assert (before + more)[..|before|] == before;
      }
    }
  }

  // -------------------------------------------------------------- invariant

  /** Each entry's request is waiting, or has delivered its verdict; a clean verdict of its
      own would have armed a registering entry. */
  predicate Accounted(d: Desk, k: ProcessKey, e: Entry) {
    && e.claim.key == k && e.claim.nonce in d.registry.nonces
    && (e.claim.nonce in d.waiting || e.claim.nonce in d.verdicts)
    && (e.claim.nonce in d.waiting ==> d.waiting[e.claim.nonce] == k)
    && (e.state == Registering && e.claim.nonce in d.verdicts ==> d.verdicts[e.claim.nonce] != Clean)
    && e.state in {Registering, Armed}
  }

  ghost predicate Inv(d: Desk) {
    && d.waiting.Keys <= d.registry.nonces && d.verdicts.Keys <= d.registry.nonces
    && d.waiting.Keys !! d.verdicts.Keys
    && (forall k, l :: k in d.registry.entries && l in d.registry.entries && k != l ==>
          d.registry.entries[k].claim.nonce != d.registry.entries[l].claim.nonce)
    && (forall k :: k in d.registry.entries ==> Accounted(d, k, d.registry.entries[k]))
  }

  lemma OpenKeepsInv(owner: string, d: Desk, a: Action)
    requires Inv(d) && a.Open? && Refusal(owner, d.registry, a.req, a.peer) == None
    ensures Inv(Act(owner, d, a))
  {
    var e := Act(owner, d, a);
    assert a.req.nonce !in d.registry.nonces;
    forall k | k in e.registry.entries ensures Accounted(e, k, e.registry.entries[k]) {
      if k != a.req.key {
        assert Accounted(d, k, d.registry.entries[k]);
      }
    }
  }

  lemma JudgeKeepsEntry(owner: string, d: Desk, a: Action, k: ProcessKey)
    requires Inv(d) && a.Judge? && a.nonce in d.waiting && k in d.registry.entries
    ensures k in Act(owner, d, a).registry.entries
    ensures Act(owner, d, a).registry.entries[k].claim == d.registry.entries[k].claim
    ensures Accounted(Act(owner, d, a), k, Act(owner, d, a).registry.entries[k])
  {
    assert Accounted(d, k, d.registry.entries[k]);
  }

  lemma JudgeKeepsInv(owner: string, d: Desk, a: Action)
    requires Inv(d) && a.Judge? && a.nonce in d.waiting
    ensures Inv(Act(owner, d, a))
  {
    var e := Act(owner, d, a);
    assert e.registry.entries.Keys == d.registry.entries.Keys && e.registry.nonces == d.registry.nonces;
    forall k | k in d.registry.entries
      ensures e.registry.entries[k].claim == d.registry.entries[k].claim && Accounted(e, k, e.registry.entries[k])
    {
      JudgeKeepsEntry(owner, d, a, k);
    }
  }

  /** Heartbeats and removals neither add entries nor change their claims and states. */
  lemma OtherKeepsEntries(owner: string, d: Desk, a: Action, k: ProcessKey)
    requires IsAction(a) && a.Other? && k in Act(owner, d, a).registry.entries
    ensures k in d.registry.entries
    ensures var e, f := d.registry.entries[k], Act(owner, d, a).registry.entries[k];
            f == e.(lastHeartbeat := f.lastHeartbeat)
  {
  }

  lemma OtherKeepsInv(owner: string, d: Desk, a: Action)
    requires Inv(d) && IsAction(a) && a.Other?
    ensures Inv(Act(owner, d, a))
  {
    var e := Act(owner, d, a);
    forall k | k in e.registry.entries
      ensures k in d.registry.entries && e.registry.entries[k].claim == d.registry.entries[k].claim
      ensures Accounted(e, k, e.registry.entries[k])
    {
      OtherKeepsEntries(owner, d, a, k);
      assert Accounted(d, k, d.registry.entries[k]);
    }
  }

  lemma ActKeepsInv(owner: string, d: Desk, a: Action)
    requires Inv(d) && IsAction(a)
    ensures Inv(Act(owner, d, a))
  {
    match a
    case Open(req, peer, _, _) =>
      if Refusal(owner, d.registry, req, peer) == None {
        OpenKeepsInv(owner, d, a);
      }
    case Judge(n, _) =>
      if n in d.waiting {
        JudgeKeepsInv(owner, d, a);
      }
    case Other(_) => OtherKeepsInv(owner, d, a);
  }

  lemma {:induction false} RunKeepsInv(owner: string, actions: seq<Action>)
    requires AreActions(actions)
    ensures Inv(Acted(owner, actions))
  {
    if actions != [] {
      var n := |actions| - 1;
      RunKeepsInv(owner, actions[..n]);
      ActKeepsInv(owner, Acted(owner, actions[..n]), actions[n]);
    }
  }

  // -------------------------------------------- armed by the own verdict

  /** The entry's own request delivered a clean verdict. */
  predicate OwnVerdictClean(d: Desk, e: Entry) {
    e.claim.nonce in d.verdicts && d.verdicts[e.claim.nonce] == Clean
  }

  ghost predicate ArmedByOwn(d: Desk) {
    forall k :: k in d.registry.entries && d.registry.entries[k].state == Armed ==>
      OwnVerdictClean(d, d.registry.entries[k])
  }

  /** A clean verdict reaches a registering entry that another request has made. */
  predicate ArmsAnother(d: Desk, a: Action) {
    && a.Judge? && a.nonce in d.waiting && a.outcome == Clean
    && d.waiting[a.nonce] in d.registry.entries
    && var e := d.registry.entries[d.waiting[a.nonce]];
       e.state == Registering && e.claim.nonce != a.nonce
  }

  lemma JudgeArmsOwnExactly(owner: string, d: Desk, a: Action)
    requires Inv(d) && ArmedByOwn(d) && a.Judge? && a.nonce in d.waiting
    ensures ArmedByOwn(Act(owner, d, a)) <==> !ArmsAnother(d, a)
  {
    var e, key := Act(owner, d, a), d.waiting[a.nonce];
    assert e.registry.entries.Keys == d.registry.entries.Keys;
    if ArmsAnother(d, a) {
      var entry := d.registry.entries[key];
      assert Accounted(d, key, entry);
      assert e.registry.entries[key].state == Armed && !OwnVerdictClean(e, e.registry.entries[key]);
    } else {
      forall k | k in e.registry.entries && e.registry.entries[k].state == Armed
        ensures OwnVerdictClean(e, e.registry.entries[k])
      {
        assert Accounted(d, k, d.registry.entries[k]);
      }
    }
  }

  /** One action arms an entry by another request's verdict exactly if it is such a verdict. */
  lemma ArmsOwnExactly(owner: string, d: Desk, a: Action)
    requires Inv(d) && ArmedByOwn(d) && IsAction(a)
    ensures ArmedByOwn(Act(owner, d, a)) <==> !ArmsAnother(d, a)
  {
    if a.Judge? {
      if a.nonce in d.waiting {
        JudgeArmsOwnExactly(owner, d, a);
      }
    } else if a.Other? {
      forall k | k in Act(owner, d, a).registry.entries
        ensures k in d.registry.entries
        ensures Act(owner, d, a).registry.entries[k].state == d.registry.entries[k].state
        ensures Act(owner, d, a).registry.entries[k].claim == d.registry.entries[k].claim
      {
        OtherKeepsEntries(owner, d, a, k);
      }
    }
  }

  ghost predicate AlwaysArmedByOwn(owner: string, actions: seq<Action>) {
    forall n :: 0 <= n <= |actions| ==> ArmedByOwn(Acted(owner, actions[..n]))
  }

  predicate NeverArmsAnother(owner: string, actions: seq<Action>) {
    forall n :: 0 <= n < |actions| ==> !ArmsAnother(Acted(owner, actions[..n]), actions[n])
  }

  lemma ActedNext(owner: string, actions: seq<Action>, n: nat)
    requires n < |actions| && AreActions(actions)
    ensures Acted(owner, actions[..n + 1]) == Act(owner, Acted(owner, actions[..n]), actions[n])
    ensures Inv(Acted(owner, actions[..n])) && IsAction(actions[n])
  {
    assert actions[..n + 1][..n] == actions[..n];
    RunKeepsInv(owner, actions[..n]);
  }

  lemma {:induction false} ArmedByOwnUpTo(owner: string, actions: seq<Action>, n: nat)
    requires AreActions(actions) && NeverArmsAnother(owner, actions) && n <= |actions|
    ensures ArmedByOwn(Acted(owner, actions[..n]))
  {
    if n > 0 {
      ArmedByOwnUpTo(owner, actions, n - 1);
      ActedNext(owner, actions, n - 1);
      ArmsOwnExactly(owner, Acted(owner, actions[..n - 1]), actions[n - 1]);
    }
  }

  /** Over a whole run, every armed entry has its own request's clean verdict at every
      moment if and only if no clean verdict ever reaches a registering entry that
      another request has made. */
  lemma ArmedByOwnExactly(owner: string, actions: seq<Action>)
    requires AreActions(actions)
    ensures AlwaysArmedByOwn(owner, actions) <==> NeverArmsAnother(owner, actions)
  {
    if NeverArmsAnother(owner, actions) {
      forall n | 0 <= n <= |actions| ensures ArmedByOwn(Acted(owner, actions[..n])) {
        ArmedByOwnUpTo(owner, actions, n);
      }
    }
    if AlwaysArmedByOwn(owner, actions) {
      forall n | 0 <= n < |actions| ensures !ArmsAnother(Acted(owner, actions[..n]), actions[n]) {
        ActedNext(owner, actions, n);
        assert ArmedByOwn(Acted(owner, actions[..n + 1]));
        ArmsOwnExactly(owner, Acted(owner, actions[..n]), actions[n]);
      }
    }
  }

  // ------------------------------------------------ one request at a time

  /** No request is accepted while another for its key waits. */
  predicate Overlaps(owner: string, d: Desk, a: Action) {
    && a.Open? && Refusal(owner, d.registry, a.req, a.peer) == None
    && exists n :: n in d.waiting && d.waiting[n] == a.req.key
  }

  predicate NeverOverlaps(owner: string, actions: seq<Action>) {
    forall n :: 0 <= n < |actions| ==> !Overlaps(owner, Acted(owner, actions[..n]), actions[n])
  }

  /** A waiting request finds its own entry, or none. */
  ghost predicate FindsOwn(d: Desk) {
    forall n :: n in d.waiting && d.waiting[n] in d.registry.entries ==>
      d.registry.entries[d.waiting[n]].claim.nonce == n
  }

  lemma ActFindsOwn(owner: string, d: Desk, a: Action)
    requires Inv(d) && FindsOwn(d) && IsAction(a) && !Overlaps(owner, d, a)
    ensures FindsOwn(Act(owner, d, a))
  {
    var e := Act(owner, d, a);
    forall n | n in e.waiting && e.waiting[n] in e.registry.entries
      ensures e.registry.entries[e.waiting[n]].claim.nonce == n
    {
      if a.Other? {
        OtherKeepsEntries(owner, d, a, e.waiting[n]);
      }
    }
  }

  lemma {:induction false} FindsOwnUpTo(owner: string, actions: seq<Action>, n: nat)
    requires AreActions(actions) && NeverOverlaps(owner, actions) && n <= |actions|
    ensures FindsOwn(Acted(owner, actions[..n]))
  {
    if n > 0 {
      FindsOwnUpTo(owner, actions, n - 1);
      ActedNext(owner, actions, n - 1);
      ActFindsOwn(owner, Acted(owner, actions[..n - 1]), actions[n - 1]);
    }
  }

  /** As long as requests for one key do not overlap, every armed entry was armed by its
      own request. */
  lemma OneAtATimeArmsItsOwn(owner: string, actions: seq<Action>)
    requires AreActions(actions) && NeverOverlaps(owner, actions)
    ensures AlwaysArmedByOwn(owner, actions)
  {
    forall n | 0 <= n < |actions| ensures !ArmsAnother(Acted(owner, actions[..n]), actions[n]) {
      FindsOwnUpTo(owner, actions, n);
    }
    ArmedByOwnExactly(owner, actions);
  }

  /** And every armed entry is verified and alive. */
  lemma {:induction false} OneAtATimeKeepsMeaning(owner: string, actions: seq<Action>, n: nat)
    requires AreActions(actions) && NeverOverlaps(owner, actions) && n <= |actions|
    ensures ArmedMeansVerified(Acted(owner, actions[..n]).registry)
  {
    if n > 0 {
      var d, a := Acted(owner, actions[..n - 1]), actions[n - 1];
      OneAtATimeKeepsMeaning(owner, actions, n - 1);
      ActedNext(owner, actions, n - 1);
      FindsOwnUpTo(owner, actions, n - 1);
      OneAtATimeArmsItsOwn(owner, actions);
      assert ArmedByOwn(d);
      ActKeepsMeaning(owner, d, a);
    }
  }

  lemma ActKeepsMeaning(owner: string, d: Desk, a: Action)
    requires Inv(d) && ArmedByOwn(d) && FindsOwn(d) && ArmedMeansVerified(d.registry) && IsAction(a)
    ensures ArmedMeansVerified(Act(owner, d, a).registry)
  {
    ActIsNext(owner, d, a);
    var events := Contribution(d, a);
    if events != [] {
      ArmedLosesMeaningExactly(owner, d.registry, events[0]);
      if a.Judge? && d.waiting[a.nonce] in d.registry.entries {
        assert d.registry.entries[d.waiting[a.nonce]].claim.nonce == a.nonce;
      }
    }
  }

  /** The desk with both requests open. */
  lemma BothOpen(owner: string, first: RegisterRequest, second: RegisterRequest,
                 peer: Peer, conns: (nat, nat), now: nat) returns (d: Desk)
    requires peer.uidOrSid == owner && Defect(first) == None && Defect(second) == None
    requires first.key == second.key && first.nonce != second.nonce
    ensures d == Act(owner, Act(owner, Opening, Open(first, peer, conns.0, now)), Open(second, peer, conns.1, now))
    ensures d.waiting == map[first.nonce := first.key, second.nonce := second.key] && d.verdicts == map[]
    ensures second.key in d.registry.entries
    ensures d.registry.entries[second.key] == NewEntry(second, peer, conns.1, now)
  {
    var one := Act(owner, Opening, Open(first, peer, conns.0, now));
    assert one.registry.nonces == {first.nonce};
    d := Act(owner, one, Open(second, peer, conns.1, now));
  }

  /** Two requests that do overlap: the first one's verdict arms the second one's entry,
      and it stays armed though its own check fails. */
  lemma OverlapArmsAnother(owner: string, first: RegisterRequest, second: RegisterRequest,
                           peer: Peer, conns: (nat, nat), now: nat)
    requires peer.uidOrSid == owner && Defect(first) == None && Defect(second) == None
    requires first.key == second.key && first.nonce != second.nonce
    ensures var one := Act(owner, Opening, Open(first, peer, conns.0, now));
            var two := Act(owner, one, Open(second, peer, conns.1, now));
            var three := Act(owner, two, Judge(first.nonce, Clean));
            var d := Act(owner, three, Judge(second.nonce, Outcome(false, true)));
            && ArmsAnother(two, Judge(first.nonce, Clean))
            && second.key in d.registry.entries && d.registry.entries[second.key].claim == second
            && d.registry.entries[second.key].state == Armed && d.verdicts[second.nonce] != Clean
  {
    var two := BothOpen(owner, first, second, peer, conns, now);
  }
}
