/**
 What the store object does without interruption (`CrashStore`) is what a process can do in
 the protocol (`CrashProtocol`): each operation is a sequence of the protocol's steps. So
 the protocol's results, which allow everything else to happen in between, are about these
 operations.
 */
module StoreRuns {
  import opened Wrappers
  import opened CrashDb
  import opened CrashProtocol
  import CrashStore

  /** The steps can be taken one after the other, and lead from one world to another. */
  ghost predicate Leads(w: World, steps: seq<Step>, t: World)
    decreases |steps|
  {
    if steps == [] then t == w
    else Enabled(w, steps[0]) && Leads(Apply(w, steps[0]), steps[1..], t)
  }

  lemma {:induction false} LeadsOn(w: World, steps: seq<Step>, t: World, more: seq<Step>, u: World)
    requires Leads(w, steps, t) && Leads(t, more, u)
    ensures Leads(w, steps + more, u)
    decreases |steps|
  {
    if steps == [] {
      assert steps + more == more;
    } else {
      LeadsOn(Apply(w, steps[0]), steps[1..], t, more, u);
      assert (steps + more)[1..] == steps[1..] + more;
    }
  }

  lemma LeadsOne(w: World, step: Step)
    requires Enabled(w, step)
    ensures Leads(w, [step], Apply(w, step))
  {
    assert [step][1..] == [];
    assert Leads(Apply(w, step), [], Apply(w, step));
  }

  /** One file after the other, all that no row names go. */
  lemma {:induction false} SweepIsARun(w: World, a: Actor, orphans: set<File>) returns (steps: seq<Step>)
    requires Runs(w, a) && w.lock.Sweeping? && w.lock.actor == a && orphans <= w.files
    requires forall f :: f in orphans ==> !Referenced(w.lock.tx, f)
    ensures Leads(w, steps, w.(files := w.files - orphans))
    decreases orphans
  {
    if orphans == {} {
      steps := [];
      assert w.files - orphans == w.files;
    } else {
      var f :| f in orphans;
      var t := Apply(w, Sweep(a, f));
      var rest := SweepIsARun(t, a, orphans - {f});
      assert t.files - (orphans - {f}) == w.files - orphans;
      LeadsOne(w, Sweep(a, f));
      LeadsOn(w, [Sweep(a, f)], t, rest, w.(files := w.files - orphans));
      steps := [Sweep(a, f)] + rest;
    }
  }

  /** Reconciling, also at an open, is a transaction that sweeps file by file. */
  lemma ReconcileIsARun(w: World, a: Actor, opening: bool, dead: set<Session>, after: Db, left: set<File>)
    returns (steps: seq<Step>)
    requires Runs(w, a) && w.lock.Free? && dead !! w.alive
    requires Reconciles(if opening then Opened(w.db, a.session, dead) else w.db, w.files, after, left)
    ensures Leads(w, steps, w.(db := after, files := left))
  {
    var begin := BeginReconcile(a, opening, dead);
    var t := Apply(w, begin);
    LeadsOne(w, begin);
    var orphans := set f | f in w.files && !Referenced(after, f);
    var sweeps := SweepIsARun(t, a, orphans);
    var u := t.(files := t.files - orphans);
    assert u.files == left;
    LeadsOn(w, [begin], t, sweeps, u);
    var commit := CommitReconcile(a);
    LeadsOne(u, commit);
    assert Apply(u, commit) == w.(db := after, files := left);
    LeadsOn(w, [begin] + sweeps, u, [commit], Apply(u, commit));
    steps := [begin] + sweeps + [commit];
  }

  lemma {:induction false} UnlinkIsARun(w: World, a: Actor, names: set<Name>) returns (steps: seq<Step>)
    requires Runs(w, a) && a in w.unlinks && w.unlinks[a] == names
    ensures Leads(w, steps, w.(files := w.files - (set n | n in names :: Artifact(n)), unlinks := w.unlinks[a := {}]))
    decreases names
  {
    var goal := w.(files := w.files - (set n | n in names :: Artifact(n)), unlinks := w.unlinks[a := {}]);
    if names == {} {
      steps := [];
      assert goal.files == w.files && goal.unlinks == w.unlinks;
    } else {
      var n :| n in names;
      var unlink := Unlink(a, n, true);
      var t := Apply(w, unlink);
      var rest := UnlinkIsARun(t, a, names - {n});
      assert t.files - (set m | m in names - {n} :: Artifact(m)) == goal.files;
      assert t.unlinks[a := {}] == goal.unlinks;
      LeadsOne(w, unlink);
      LeadsOn(w, [unlink], t, rest, goal);
      steps := [unlink] + rest;
    }
  }

  /** A collection commits its deletions, unlinks outside the lock, and reconciles. */
  lemma CollectionIsARun(w: World, a: Actor, selected: set<RowId>, after: Db, left: set<File>) returns (steps: seq<Step>)
    requires Runs(w, a) && w.lock.Free? && a !in w.unlinks
    requires forall id :: id in selected ==> id in w.db.rows && w.db.rows[id].refcount == 0
    requires CrashStore.Collects(w.db, w.files, selected, after, left)
    ensures Leads(w, steps, w.(db := after, files := left, unlinks := w.unlinks[a := {}]))
  {
    var collect := Collect(a, selected);
    var t := Apply(w, collect);
    LeadsOne(w, collect);
    var names := ArtifactNames(w.db, selected);
    assert t.unlinks[a] == names;
    var unlinks := UnlinkIsARun(t, a, names);
    var u := t.(files := t.files - (set n | n in names :: Artifact(n)), unlinks := t.unlinks[a := {}]);
    LeadsOn(w, [collect], t, unlinks, u);
    var rest := ReconcileIsARun(u, a, false, {}, after, left);
    var goal := w.(db := after, files := left, unlinks := w.unlinks[a := {}]);
    assert u.(db := after, files := left) == goal by {
      assert t.unlinks[a := {}] == w.unlinks[a := {}];
    }
    LeadsOn(w, [collect] + unlinks, u, rest, goal);
    steps := [collect] + unlinks + rest;
  }

  /** A recording writes, publishes and commits under the lock. */
  lemma RecordIsARun(w: World, a: Actor, ingesting: bool, row: Row, name: Name) returns (steps: seq<Step>)
    requires Runs(w, a) && w.lock.Free? && name !in w.used && Temp(name) !in w.files
    requires ingesting ==> a in w.ingests && w.ingests[a].HasRead?
    requires row.artifact == Some(name) && row.source == SourceOf(w, a, ingesting) && row.refcount == 0
    requires !HasSource(w.db, row.source)
    ensures Leads(w, steps, w.(db := Inserted(w.db, row), files := w.files + {Artifact(name)}, used := w.used + {name},
                               committed := Note(w.committed, row.source), ingests := Finished(w.ingests, a, row.source)))
  {
    var begin, write, publish, commit := BeginRecord(a, ingesting), WriteTemp(a, name), Publish(a), CommitRecord(a, row);
    var t := Apply(w, begin);
    var u := Apply(t, write);
    var v := Apply(u, publish);
    var goal := w.(db := Inserted(w.db, row), files := w.files + {Artifact(name)}, used := w.used + {name},
                   committed := Note(w.committed, row.source), ingests := Finished(w.ingests, a, row.source));
    assert v.files == goal.files;
    assert Apply(v, commit) == goal;
    LeadsOne(w, begin);
    LeadsOne(t, write);
    LeadsOne(u, publish);
    LeadsOne(v, commit);
    LeadsOn(w, [begin], t, [write], u);
    LeadsOn(w, [begin] + [write], u, [publish], v);
    LeadsOn(w, [begin] + [write] + [publish], v, [commit], goal);
    steps := [begin] + [write] + [publish] + [commit];
  }

  /** A complete spool file gets its row, or has it, and is then removed from the spool. */
  lemma IngestIsARun(w: World, a: Actor, source: Source, row: Row, name: Name) returns (steps: seq<Step>, t: World)
    requires Runs(w, a) && w.lock.Free? && source in w.spool && name !in w.used && Temp(name) !in w.files
    requires row.artifact == Some(name) && row.source == Some(source) && row.refcount == 0
    ensures Leads(w, steps, t) && t.spool == w.spool - {source}
    ensures exists id :: id in t.db.rows && t.db.rows[id].source == Some(source)
    ensures forall id :: id in w.db.rows && id != w.db.nextId ==> id in t.db.rows && t.db.rows[id] == w.db.rows[id]
    ensures w.lock == t.lock && w.unlinks == t.unlinks && w.guards == t.guards
  {
    var read := ReadSpool(a, source);
    LeadsOne(w, read);
    var u := Apply(w, read);
    var v, middle := RecordedInSpool(u, a, source, row, name);
    var remove := RemoveSpool(a);
    t := Apply(v, remove);
    LeadsOne(v, remove);
    LeadsOn(w, [read], u, middle, v);
    LeadsOn(w, [read] + middle, v, [remove], t);
    steps := [read] + middle + [remove];
  }

  lemma RecordedInSpool(u: World, a: Actor, source: Source, row: Row, name: Name) returns (v: World, steps: seq<Step>)
    requires Runs(u, a) && u.lock.Free? && a in u.ingests && u.ingests[a] == HasRead(source)
    requires name !in u.used && Temp(name) !in u.files
    requires row.artifact == Some(name) && row.source == Some(source) && row.refcount == 0
    ensures Leads(u, steps, v) && Runs(v, a) && a in v.ingests && v.ingests[a] == HasRecorded(source)
    ensures v.spool == u.spool && v.lock == u.lock && v.unlinks == u.unlinks && v.guards == u.guards
    ensures exists id :: id in v.db.rows && v.db.rows[id].source == Some(source)
    ensures forall id :: id in u.db.rows && id != u.db.nextId ==> id in v.db.rows && v.db.rows[id] == u.db.rows[id]
  {
    if HasSource(u.db, Some(source)) {
      var begin := BeginRecord(a, true);
      LeadsOne(u, begin);
      v, steps := Apply(u, begin), [begin];
    } else {
      steps := RecordIsARun(u, a, true, row, name);
      v := u.(db := Inserted(u.db, row), files := u.files + {Artifact(name)}, used := u.used + {name},
              committed := Note(u.committed, row.source), ingests := Finished(u.ingests, a, row.source));
      assert v.db.rows[u.db.nextId].source == Some(source);
    }
  }

  ghost predicate CanFetch(w: World, a: Actor, id: RowId) {
    && Runs(w, a) && w.lock.Free? && a.session in w.db.sessions && id in w.db.rows && id in w.db.pins
    && w.db.rows[id].artifact.Some? && Artifact(w.db.rows[id].artifact.value) in w.files
  }

  /** Ending a fetch undoes its beginning, in the tables and for the guards. */
  lemma EndUndoesBegin(w: World, a: Actor, id: RowId)
    requires CanFetch(w, a, id) && (a.session in w.db.pins[id] ==> w.db.pins[id][a.session] > 0)
    ensures var t := w.(db := Pinned(w.db, id, a.session), guards := w.guards + multiset{(a.session, id)});
            && Enabled(w, BeginFetch(a, id)) && Apply(w, BeginFetch(a, id)) == t
            && Enabled(t, EndFetch(a, id)) && Apply(t, EndFetch(a, id)) == w
  {
    FetchRoundTrip(w.db, id, a.session);
    assert w.guards + multiset{(a.session, id)} - multiset{(a.session, id)} == w.guards;
  }

  /** A fetch that succeeds, and its end, are one step each. */
  lemma FetchIsARun(w: World, a: Actor, id: RowId)
    requires CanFetch(w, a, id) && (a.session in w.db.pins[id] ==> w.db.pins[id][a.session] > 0)
    ensures Leads(w, [BeginFetch(a, id)] + [EndFetch(a, id)], w)
  {
    EndUndoesBegin(w, a, id);
    var t := Apply(w, BeginFetch(a, id));
    LeadsOne(w, BeginFetch(a, id));
    LeadsOne(t, EndFetch(a, id));
    LeadsOn(w, [BeginFetch(a, id)], t, [EndFetch(a, id)], w);
  }
}
