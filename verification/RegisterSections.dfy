/**
 `begin_register` takes its two locks one after the other
 (crates/running-process-probe-daemon/src/registry.rs): it admits the nonce first and
 enters the registration later, and other threads run in between, or the thread never
 gets to its second section. `Registrations` has both as one step; here they are two,
 and every run of the two is proved to be a run of the one.
 */
module RegisterSections {
  import opened Wrappers
  import opened Identity
  import opened Registrations
  import Sets

  datatype Admission = Admission(req: RegisterRequest, peer: Peer, conn: nat)

  /** `admitted` are the registrations between their two sections, by nonce. */
  datatype Split = Split(registry: Registry, admitted: map<Nonce, Admission>)

  datatype Section =
    | Admit(req: RegisterRequest, peer: Peer, conn: nat)
    | Enter(nonce: Nonce, now: nat)
    | Whole(event: Event)

  predicate IsSection(s: Section) {
    s.Whole? ==> !s.event.Begin?
  }

  function Take(owner: string, d: Split, s: Section): Split {
    match s
    case Admit(req, peer, conn) =>
      if Refusal(owner, d.registry, req, peer) == None then
        Split(d.registry.(nonces := d.registry.nonces + {req.nonce}),
              d.admitted[req.nonce := Admission(req, peer, conn)])
      else d
    case Enter(nonce, now) =>
      if nonce in d.admitted then
        var a := d.admitted[nonce];
        var entered := Admitted(d.registry, a.req, a.peer, a.conn, now);
        Split(d.registry.(entries := entered.entries, byPid := entered.byPid), d.admitted - {nonce})
      else d
    case Whole(event) => d.(registry := Next(owner, d.registry, event))
  }

  function Taken(owner: string, sections: seq<Section>): Split {
    if sections == [] then Split(Empty, map[])
    else
      var n := |sections| - 1;
      Take(owner, Taken(owner, sections[..n]), sections[n])
  }

  /** The same run in whole registrations, each at the moment it is entered. */
  function AsEvents(owner: string, sections: seq<Section>): seq<Event> {
    if sections == [] then []
    else
      var n := |sections| - 1;
      AsEvents(owner, sections[..n]) + Contribution(Taken(owner, sections[..n]), sections[n])
  }

  function Contribution(d: Split, s: Section): seq<Event> {
    match s
    case Admit(_, _, _) => []
    case Enter(nonce, now) =>
      if nonce in d.admitted then
        [Begin(d.admitted[nonce].req, d.admitted[nonce].peer, d.admitted[nonce].conn, now)]
      else []
    case Whole(event) => [event]
  }

  /** Entries and index are the same; only the nonces in flight are ahead. */
  ghost predicate Refines(owner: string, d: Split, r: Registry) {
    && d.registry.entries == r.entries && d.registry.byPid == r.byPid
    && Ahead(d.registry.nonces, d.admitted.Keys, r.nonces)
    && AllWait(owner, d.admitted)
  }

  ghost predicate Ahead(nonces: set<Nonce>, waiting: set<Nonce>, entered: set<Nonce>) {
    waiting <= nonces && entered == nonces - waiting && |nonces| <= MAX_TRACKED_NONCES
  }

  predicate AllWait(owner: string, admitted: map<Nonce, Admission>) {
    forall n :: n in admitted ==> Waits(owner, n, admitted[n])
  }

  predicate Waits(owner: string, n: Nonce, a: Admission) {
    a.req.nonce == n && a.peer.uidOrSid == owner && Defect(a.req) == None
  }

  function Apply(owner: string, r: Registry, events: seq<Event>): Registry
    requires |events| <= 1
  {
    if events == [] then r else Next(owner, r, events[0])
  }

  /** A registration that waits to be entered would be accepted as a whole. */
  lemma WaitingIsAcceptable(owner: string, d: Split, r: Registry, nonce: Nonce)
    requires Refines(owner, d, r) && nonce in d.admitted
    ensures Refusal(owner, r, d.admitted[nonce].req, d.admitted[nonce].peer) == None
    ensures d.admitted[nonce].req.nonce == nonce
  {
    assert Waits(owner, nonce, d.admitted[nonce]);
    Sets.SubsetSize(r.nonces + {nonce}, d.registry.nonces);
    assert |r.nonces + {nonce}| == |r.nonces| + 1;
  }

  lemma EnterRefines(owner: string, d: Split, r: Registry, nonce: Nonce, now: nat)
    requires Refines(owner, d, r) && nonce in d.admitted
    ensures Refines(owner, Take(owner, d, Enter(nonce, now)), Apply(owner, r, Contribution(d, Enter(nonce, now))))
  {
    WaitingIsAcceptable(owner, d, r, nonce);
    var a := d.admitted[nonce];
    assert Apply(owner, r, Contribution(d, Enter(nonce, now))) == Admitted(r, a.req, a.peer, a.conn, now);
  }

  lemma OneMoreAhead(nonces: set<Nonce>, waiting: set<Nonce>, entered: set<Nonce>, nonce: Nonce)
    requires Ahead(nonces, waiting, entered) && nonce !in nonces && |nonces| < MAX_TRACKED_NONCES
    ensures Ahead(nonces + {nonce}, waiting + {nonce}, entered)
  {
  }

  lemma OneMoreWaits(owner: string, admitted: map<Nonce, Admission>, nonce: Nonce, a: Admission)
    requires AllWait(owner, admitted) && Waits(owner, nonce, a)
    ensures AllWait(owner, admitted[nonce := a]) && admitted[nonce := a].Keys == admitted.Keys + {nonce}
  {
  }

  lemma AdmitRefines(owner: string, d: Split, r: Registry, req: RegisterRequest, peer: Peer, conn: nat)
    requires Refines(owner, d, r) && Refusal(owner, d.registry, req, peer) == None
    ensures Refines(owner, Take(owner, d, Admit(req, peer, conn)), r)
  {
    OneMoreAhead(d.registry.nonces, d.admitted.Keys, r.nonces, req.nonce);
    OneMoreWaits(owner, d.admitted, req.nonce, Admission(req, peer, conn));
  }

  /** The other operations do not look at the nonces. */
  lemma WholeRefines(owner: string, d: Split, r: Registry, event: Event)
    requires Refines(owner, d, r) && !event.Begin?
    ensures Refines(owner, Take(owner, d, Whole(event)), Next(owner, r, event))
  {
  }

  lemma SectionRefines(owner: string, d: Split, r: Registry, s: Section)
    requires Refines(owner, d, r) && IsSection(s)
    ensures Refines(owner, Take(owner, d, s), Apply(owner, r, Contribution(d, s)))
  {
    match s
    case Admit(req, peer, conn) =>
      if Refusal(owner, d.registry, req, peer) == None {
        AdmitRefines(owner, d, r, req, peer, conn);
      }
    case Enter(nonce, now) =>
      if nonce in d.admitted {
        EnterRefines(owner, d, r, nonce, now);
      }
    case Whole(event) => WholeRefines(owner, d, r, event);
  }

  lemma AfterApply(owner: string, events: seq<Event>, more: seq<Event>)
    requires |more| <= 1
    ensures After(owner, events + more) == Apply(owner, After(owner, events), more)
  {
    if more == [] {
      assert events + more == events;
    } else {
      assert (events + more)[..|events|] == events;
    }
  }

  /** Every interleaving of the two sections, with each other and with everything else,
      leaves the entries and the index of a run of whole registrations, so what holds of
      those after every run holds here; and the nonces of that run, plus those in flight. */
  lemma {:induction false} SectionsRefineRegistrations(owner: string, sections: seq<Section>)
    requires forall i :: 0 <= i < |sections| ==> IsSection(sections[i])
    ensures Refines(owner, Taken(owner, sections), After(owner, AsEvents(owner, sections)))
  {
    if sections != [] {
      var n := |sections| - 1;
      SectionsRefineRegistrations(owner, sections[..n]);
      var d := Taken(owner, sections[..n]);
      SectionRefines(owner, d, After(owner, AsEvents(owner, sections[..n])), sections[n]);
      AfterApply(owner, AsEvents(owner, sections[..n]), Contribution(d, sections[n]));
    }
  }

  /** So, however the sections interleave, entries and index are inverse to each other,
      and an entry is armed only after a clean verification since it was entered. */
  lemma SplitRegistryIsSound(owner: string, sections: seq<Section>, key: ProcessKey)
    requires forall i :: 0 <= i < |sections| ==> IsSection(sections[i])
    ensures Indexed(Taken(owner, sections).registry)
    ensures var entries := Taken(owner, sections).registry.entries;
            key in entries ==>
              && EntrySound(key, entries[key])
              && entries[key].peer.uidOrSid == owner
              && (entries[key].state == Armed <==> CleanSinceBegin(owner, AsEvents(owner, sections), key))
  {
    var events := AsEvents(owner, sections);
    SectionsRefineRegistrations(owner, sections);
    ReachableIsSound(owner, events);
    if key in After(owner, events).entries {
      ArmedExactlyWhenVerified(owner, events, key);
      EntriesBelongToOwner(owner, events, key);
    }
  }
}
