/**
 The crash store as a protocol between processes
 (crates/running-process-probe-daemon/src/crash_store.rs).

 Any number of processes share one database and one artifacts directory. A write
 transaction holds the database's writer lock; what it does to the tables appears
 only when it commits, what it does to files appears at once. Steps that touch
 files are steps of their own, and between any two steps a process may die, which
 rolls its transaction back and forgets what it still meant to do. The collector's
 unlinking happens after its commit, outside the lock.

 Artifact names are random; a name is assumed never to be drawn twice, and so is a
 session id. Spool files are never reused under the same name.
 */
module CrashProtocol {
  import opened Wrappers
  import opened CrashDb

  /** One thread of one process. */
  datatype Actor = Actor(session: Session, thread: nat)

  datatype Stage = Started | Written(name: Name) | Published(name: Name)

  datatype Lock =
    | Free
    | Recording(actor: Actor, source: Option<Source>, stage: Stage)
    | Sweeping(actor: Actor, tx: Db)

  /** An ingesting thread has read a spool file, or has its crash in the database. */
  datatype Ingest = HasRead(source: Source) | HasRecorded(source: Source)

  /** `guards` counts fetch guards held; `used`, `born`, `committed` and `spooled` are
      histories: names drawn, sessions started, sources ever committed, spool files
      ever completed. */
  datatype World = World(
    db: Db, files: set<File>, lock: Lock, unlinks: map<Actor, set<Name>>,
    alive: set<Session>, guards: multiset<(Session, RowId)>,
    spool: set<Source>, ingests: map<Actor, Ingest>,
    used: set<Name>, born: set<Session>, committed: set<Source>, spooled: set<Source>)

  ghost predicate IsInit(w: World) {
    && w.db == EmptyDb && w.lock == Free && w.unlinks == map[] && w.alive == {} && w.guards == multiset{}
    && w.spool == {} && w.ingests == map[] && w.used == {} && w.born == {} && w.committed == {} && w.spooled == {}
    && forall f :: f in w.files ==> f.Foreign?
  }

  datatype Step =
    | Start(session: Session)
    | Die(session: Session)
    | SpoolCompleted(source: Source)
    | ReadSpool(actor: Actor, source: Source)
    | RemoveSpool(actor: Actor)
    | BeginRecord(actor: Actor, ingesting: bool)
    | WriteTemp(actor: Actor, name: Name)
    | Publish(actor: Actor)
    | CommitRecord(actor: Actor, row: Row)
    | UndoRecord(actor: Actor)
    | Abort(actor: Actor)
    | Collect(actor: Actor, selected: set<RowId>)
    | Unlink(actor: Actor, name: Name, removed: bool)
    | BeginReconcile(actor: Actor, opening: bool, dead: set<Session>)
    | Sweep(actor: Actor, file: File)
    | CommitReconcile(actor: Actor)
    | BeginFetch(actor: Actor, id: RowId)
    | EndFetch(actor: Actor, id: RowId)
    | LoseFetch(actor: Actor, id: RowId)

  predicate Runs(w: World, a: Actor) {
    a.session in w.alive
  }

  function SourceOf(w: World, a: Actor, ingesting: bool): Option<Source> {
    if ingesting && a in w.ingests && w.ingests[a].HasRead? then Some(w.ingests[a].source) else None
  }

  ghost predicate Enabled(w: World, step: Step) {
    match step
    case Start(s) => s !in w.born
    case Die(s) => s in w.alive
    case SpoolCompleted(source) => source !in w.spooled
    case ReadSpool(a, source) => Runs(w, a) && source in w.spool
    case RemoveSpool(a) => Runs(w, a) && a in w.ingests && w.ingests[a].HasRecorded?
    case BeginRecord(a, ingesting) =>
      Runs(w, a) && w.lock.Free? && (ingesting ==> a in w.ingests && w.ingests[a].HasRead?)
    case WriteTemp(a, name) =>
      Runs(w, a) && w.lock.Recording? && w.lock.actor == a && w.lock.stage.Started? && name !in w.used
    case Publish(a) => Runs(w, a) && w.lock.Recording? && w.lock.actor == a && w.lock.stage.Written?
    case CommitRecord(a, row) =>
      Runs(w, a) && w.lock.Recording? && w.lock.actor == a && w.lock.stage.Published?
      && row.artifact == Some(w.lock.stage.name) && row.source == w.lock.source && row.refcount == 0
    case UndoRecord(a) => Runs(w, a) && w.lock.Recording? && w.lock.actor == a
    case Abort(a) => Runs(w, a) && !w.lock.Free? && w.lock.actor == a
    case Collect(a, selected) =>
      Runs(w, a) && w.lock.Free? && forall id :: id in selected ==> id in w.db.rows && w.db.rows[id].refcount == 0
    case Unlink(a, name, _) => Runs(w, a) && a in w.unlinks && name in w.unlinks[a]
    // Only sessions that are really dead are judged dead.
    case BeginReconcile(a, opening, dead) => Runs(w, a) && w.lock.Free? && dead !! w.alive
    case Sweep(a, file) =>
      Runs(w, a) && w.lock.Sweeping? && w.lock.actor == a && file in w.files && !Referenced(w.lock.tx, file)
    case CommitReconcile(a) =>
      Runs(w, a) && w.lock.Sweeping? && w.lock.actor == a && forall f :: f in w.files ==> Referenced(w.lock.tx, f)
    case BeginFetch(a, id) =>
      Runs(w, a) && w.lock.Free? && a.session in w.db.sessions && id in w.db.rows && id in w.db.pins
      && w.db.rows[id].artifact.Some? && Artifact(w.db.rows[id].artifact.value) in w.files
    case EndFetch(a, id) => Runs(w, a) && w.lock.Free? && w.guards[(a.session, id)] > 0
    case LoseFetch(a, id) => Runs(w, a) && w.guards[(a.session, id)] > 0
  }

  function StageFiles(stage: Stage): set<File> {
    match stage
    case Started => {}
    case Written(n) => {Temp(n)}
    case Published(n) => {Artifact(n)}
  }

  ghost function Reconciling(w: World, a: Actor, opening: bool, dead: set<Session>): Db {
    Cleared(if opening then Opened(w.db, a.session, dead) else w.db, w.files)
  }

  function PendingUnlinks(w: World, a: Actor): set<Name> {
    if a in w.unlinks then w.unlinks[a] else {}
  }

  function Note(sources: set<Source>, source: Option<Source>): set<Source> {
    if source.Some? then sources + {source.value} else sources
  }

  /** The ingesting thread goes on to remove the spool file. */
  function Finished(ingests: map<Actor, Ingest>, a: Actor, source: Option<Source>): map<Actor, Ingest> {
    if source.Some? then ingests[a := HasRecorded(source.value)] else ingests
  }

  ghost function Apply(w: World, step: Step): World
    requires Enabled(w, step)
  {
    match step
    case Start(s) => w.(alive := w.alive + {s}, born := w.born + {s})
    case Die(s) =>
      w.(alive := w.alive - {s},
         lock := if !w.lock.Free? && w.lock.actor.session == s then Free else w.lock,
         unlinks := map a | a in w.unlinks && a.session != s :: w.unlinks[a],
         ingests := map a | a in w.ingests && a.session != s :: w.ingests[a])
    case SpoolCompleted(source) => w.(spool := w.spool + {source}, spooled := w.spooled + {source})
    case ReadSpool(a, source) => w.(ingests := w.ingests[a := HasRead(source)])
    case RemoveSpool(a) => w.(spool := w.spool - {w.ingests[a].source}, ingests := w.ingests - {a})
    case BeginRecord(a, ingesting) =>
      var source := SourceOf(w, a, ingesting);
      if HasSource(w.db, source) then w.(ingests := Finished(w.ingests, a, source))
      else w.(lock := Recording(a, source, Started))
    case WriteTemp(a, name) =>
      w.(files := w.files + {Temp(name)}, used := w.used + {name}, lock := w.lock.(stage := Written(name)))
    case Publish(a) =>
      var name := w.lock.stage.name;
      w.(files := w.files - {Temp(name)} + {Artifact(name)}, lock := w.lock.(stage := Published(name)))
    case CommitRecord(a, row) =>
      w.(db := Inserted(w.db, row), lock := Free, committed := Note(w.committed, row.source),
         ingests := Finished(w.ingests, a, row.source))
    case UndoRecord(a) => w.(files := w.files - StageFiles(w.lock.stage), lock := Free)
    case Abort(a) => w.(lock := Free)
    case Collect(a, selected) =>
      w.(db := Deleted(w.db, selected),
         unlinks := w.unlinks[a := PendingUnlinks(w, a) + ArtifactNames(w.db, selected)])
    case Unlink(a, name, removed) =>
      w.(files := if removed then w.files - {Artifact(name)} else w.files,
         unlinks := w.unlinks[a := w.unlinks[a] - {name}])
    case BeginReconcile(a, opening, dead) => w.(lock := Sweeping(a, Reconciling(w, a, opening, dead)))
    case Sweep(a, file) => w.(files := w.files - {file})
    case CommitReconcile(a) => w.(db := w.lock.tx, lock := Free)
    case BeginFetch(a, id) =>
      w.(db := Pinned(w.db, id, a.session), guards := w.guards + multiset{(a.session, id)})
    case EndFetch(a, id) =>
      w.(db := Unpinned(w.db, id, a.session), guards := w.guards - multiset{(a.session, id)})
    case LoseFetch(a, id) => w.(guards := w.guards - multiset{(a.session, id)})
  }

  ghost predicate IsRun(worlds: seq<World>, steps: seq<Step>) {
    && |worlds| == |steps| + 1
    && IsInit(worlds[0])
    && forall i :: 0 <= i < |steps| ==> Enabled(worlds[i], steps[i]) && worlds[i + 1] == Apply(worlds[i], steps[i])
  }

  // ---------------------------------------------------- files and rows agree

  /** A name nothing in the database or in a collector's list refers to. */
  ghost predicate Unclaimed(w: World, n: Name) {
    && n in w.used
    && !Names(w.db, n)
    && forall a :: a in w.unlinks ==> n !in w.unlinks[a]
  }

  /** The same rows, up to their reference counts. */
  ghost predicate SameRows(a: Db, b: Db) {
    && a.rows.Keys == b.rows.Keys && a.nextId == b.nextId
    && forall id :: id in a.rows ==> b.rows[id] == a.rows[id].(refcount := b.rows[id].refcount)
  }

  ghost predicate FilesInv(w: World) {
    && ArtifactsPresent(w.db, w.files)
    && ArtifactsDistinct(w.db)
    && RowsFresh(w.db)
    && (forall id :: id in w.db.rows && w.db.rows[id].artifact.Some? ==> w.db.rows[id].artifact.value in w.used)
    && (forall a, n :: a in w.unlinks && n in w.unlinks[a] ==> n in w.used && !Names(w.db, n))
    && (w.lock.Recording? && !w.lock.stage.Started? ==> Unclaimed(w, w.lock.stage.name))
    && (w.lock.Recording? && w.lock.stage.Published? ==> Artifact(w.lock.stage.name) in w.files)
    && (w.lock.Sweeping? ==> SameRows(w.db, w.lock.tx))
  }

  lemma CommitRecordKeepsFiles(w: World, a: Actor, row: Row)
    requires FilesInv(w) && Enabled(w, CommitRecord(a, row))
    ensures FilesInv(Apply(w, CommitRecord(a, row)))
  {
    var t := Apply(w, CommitRecord(a, row));
    assert forall n :: Names(t.db, n) ==> Names(w.db, n) || n == w.lock.stage.name;
  }

  lemma CollectKeepsFiles(w: World, a: Actor, selected: set<RowId>)
    requires FilesInv(w) && Enabled(w, Collect(a, selected))
    ensures FilesInv(Apply(w, Collect(a, selected)))
  {
    var t := Apply(w, Collect(a, selected));
    assert forall n :: Names(t.db, n) ==> Names(w.db, n);
    forall n | n in ArtifactNames(w.db, selected) ensures n in w.used && !Names(t.db, n) {
      var id :| id in selected && id in w.db.rows && w.db.rows[id].artifact == Some(n);
    }
  }

  lemma ReconcileKeepsFiles(w: World, a: Actor, opening: bool, dead: set<Session>)
    requires FilesInv(w) && Enabled(w, BeginReconcile(a, opening, dead))
    ensures FilesInv(Apply(w, BeginReconcile(a, opening, dead)))
  {
  }

  lemma SameRowsSameNames(a: Db, b: Db)
    requires SameRows(a, b)
    ensures forall n :: Names(a, n) <==> Names(b, n)
  {
    forall n ensures Names(a, n) <==> Names(b, n) {
      if Names(a, n) {
        var id :| id in a.rows && a.rows[id].artifact == Some(n);
        assert b.rows[id].artifact == Some(n);
      }
      if Names(b, n) {
        var id :| id in b.rows && b.rows[id].artifact == Some(n);
        assert a.rows[id].artifact == Some(n);
      }
    }
  }

  lemma SweepKeepsFiles(w: World, a: Actor, file: File)
    requires FilesInv(w) && Enabled(w, Sweep(a, file))
    ensures FilesInv(Apply(w, Sweep(a, file)))
  {
    SameRowsSameNames(w.db, w.lock.tx);
    forall id | id in w.db.rows && w.db.rows[id].artifact.Some?
      ensures Artifact(w.db.rows[id].artifact.value) != file
    {
      assert Names(w.db, w.db.rows[id].artifact.value);
    }
  }

  lemma CommitReconcileKeepsFiles(w: World, a: Actor)
    requires FilesInv(w) && Enabled(w, CommitReconcile(a))
    ensures FilesInv(Apply(w, CommitReconcile(a)))
  {
    SameRowsSameNames(w.db, w.lock.tx);
    assert forall id :: id in w.lock.tx.rows ==> w.lock.tx.rows[id].artifact == w.db.rows[id].artifact;
  }

  lemma UnlinkKeepsFiles(w: World, a: Actor, name: Name, removed: bool)
    requires FilesInv(w) && Enabled(w, Unlink(a, name, removed))
    ensures FilesInv(Apply(w, Unlink(a, name, removed)))
  {
    forall id | id in w.db.rows && w.db.rows[id].artifact.Some? ensures w.db.rows[id].artifact.value != name {
      assert Names(w.db, w.db.rows[id].artifact.value);
    }
  }

  /** Pinning changes reference counts and nothing else. */
  lemma RecountKeepsFiles(w: World, t: World)
    requires FilesInv(w) && !w.lock.Sweeping?
    requires SameRows(w.db, t.db) && t == w.(db := t.db, guards := t.guards)
    ensures FilesInv(t)
  {
    SameRowsSameNames(w.db, t.db);
    assert forall id :: id in t.db.rows ==> t.db.rows[id].artifact == w.db.rows[id].artifact;
  }

  predicate IsQuiet(step: Step) {
    || step.Start? || step.Die? || step.SpoolCompleted? || step.ReadSpool? || step.RemoveSpool?
    || step.BeginRecord? || step.Abort? || step.LoseFetch?
  }

  /** Steps that leave the database and the files alone. */
  lemma QuietStepKeepsFiles(w: World, step: Step)
    requires FilesInv(w) && Enabled(w, step) && IsQuiet(step)
    ensures FilesInv(Apply(w, step))
  {
    SameFilesKeep(w, Apply(w, step));
  }

  lemma SameFilesKeep(w: World, t: World)
    requires FilesInv(w) && t.db == w.db && t.files == w.files && t.used == w.used
    requires forall a :: a in t.unlinks ==> a in w.unlinks && t.unlinks[a] == w.unlinks[a]
    requires t.lock == w.lock || t.lock == Free || (t.lock.Recording? && t.lock.stage == Started)
    ensures FilesInv(t)
  {
  }

  lemma WritingKeepsFiles(w: World, step: Step)
    requires FilesInv(w) && Enabled(w, step) && (step.WriteTemp? || step.Publish?)
    ensures FilesInv(Apply(w, step))
  {
    if step.WriteTemp? {
      FreshNameIsUnclaimed(w, step.name);
    }
  }

  lemma FetchKeepsFiles(w: World, step: Step)
    requires FilesInv(w) && Enabled(w, step) && (step.BeginFetch? || step.EndFetch?)
    ensures FilesInv(Apply(w, step))
  {
    RecountKeepsFiles(w, Apply(w, step));
  }

  lemma StepKeepsFiles(w: World, step: Step)
    requires FilesInv(w) && Enabled(w, step)
    ensures FilesInv(Apply(w, step))
  {
    if IsQuiet(step) {
      QuietStepKeepsFiles(w, step);
    } else if step.BeginFetch? || step.EndFetch? {
      FetchKeepsFiles(w, step);
    } else {
      match step
      case CommitRecord(a, row) => CommitRecordKeepsFiles(w, a, row);
      case Collect(a, selected) => CollectKeepsFiles(w, a, selected);
      case BeginReconcile(a, opening, dead) => ReconcileKeepsFiles(w, a, opening, dead);
      case Sweep(a, file) => SweepKeepsFiles(w, a, file);
      case CommitReconcile(a) => CommitReconcileKeepsFiles(w, a);
      case Unlink(a, name, removed) => UnlinkKeepsFiles(w, a, name, removed);
      case UndoRecord(a) => UndoKeepsFiles(w, a);
      case _ => WritingKeepsFiles(w, step);
    }
  }

  lemma FreshNameIsUnclaimed(w: World, name: Name)
    requires FilesInv(w) && name !in w.used
    ensures !Names(w.db, name) && forall a :: a in w.unlinks ==> name !in w.unlinks[a]
  {
  }

  lemma UndoKeepsFiles(w: World, a: Actor)
    requires FilesInv(w) && Enabled(w, UndoRecord(a))
    ensures FilesInv(Apply(w, UndoRecord(a)))
  {
    forall id | id in w.db.rows && w.db.rows[id].artifact.Some?
      ensures Artifact(w.db.rows[id].artifact.value) !in StageFiles(w.lock.stage)
    {
      assert Names(w.db, w.db.rows[id].artifact.value);
    }
  }

  // -------------------------------------------------- pins and counts agree

  /** Every guard of a live session is backed by that session's pins. */
  ghost predicate Covered(db: Db, guards: multiset<(Session, RowId)>, alive: set<Session>) {
    forall s, id :: s in alive && guards[(s, id)] > 0 ==>
      && id in db.rows && id in db.pins && db.rows[id].artifact.Some?
      && s in db.pins[id] && db.pins[id][s] >= guards[(s, id)]
  }

  ghost predicate PinsInv(w: World) {
    && CountsAgree(w.db)
    && Covered(w.db, w.guards, w.alive)
    && (w.lock.Sweeping? ==> CountsAgree(w.lock.tx) && Covered(w.lock.tx, w.guards, w.alive))
    && w.alive <= w.born
    && (forall s, id :: w.guards[(s, id)] > 0 ==> s in w.born)
  }

  lemma CommitRecordKeepsPins(w: World, a: Actor, row: Row)
    requires RowsFresh(w.db) && PinsInv(w) && Enabled(w, CommitRecord(a, row))
    ensures PinsInv(Apply(w, CommitRecord(a, row)))
  {
  }

  lemma CollectKeepsPins(w: World, a: Actor, selected: set<RowId>)
    requires PinsInv(w) && Enabled(w, Collect(a, selected))
    ensures PinsInv(Apply(w, Collect(a, selected)))
  {
    forall s, id | s in w.alive && w.guards[(s, id)] > 0 ensures id !in selected {
      PinnedRowIsCounted(w.db, id, s);
    }
  }

  /** Removing dead sessions takes nothing from a live one. */
  lemma OpenedCovers(db: Db, s: Session, dead: set<Session>, guards: multiset<(Session, RowId)>, alive: set<Session>)
    requires Covered(db, guards, alive) && dead !! alive
    ensures Covered(Opened(db, s, dead), guards, alive)
  {
    var after := Opened(db, s, dead);
    forall t, id | t in alive && guards[(t, id)] > 0
      ensures id in after.rows && id in after.pins && after.rows[id].artifact.Some?
      ensures t in after.pins[id] && after.pins[id][t] >= guards[(t, id)]
    {
      assert after.pins[id] == db.pins[id] - dead;
    }
  }

  lemma ReconcileKeepsPins(w: World, a: Actor, opening: bool, dead: set<Session>)
    requires ArtifactsPresent(w.db, w.files) && PinsInv(w) && Enabled(w, BeginReconcile(a, opening, dead))
    ensures PinsInv(Apply(w, BeginReconcile(a, opening, dead)))
  {
    if opening {
      OpenedCounts(w.db, a.session, dead);
      OpenedCovers(w.db, a.session, dead, w.guards, w.alive);
      NothingToClear(Opened(w.db, a.session, dead), w.files);
    } else {
      NothingToClear(w.db, w.files);
    }
  }

  lemma PinnedCovers(db: Db, id: RowId, s: Session, guards: multiset<(Session, RowId)>, alive: set<Session>)
    requires Covered(db, guards, alive) && id in db.rows && id in db.pins && db.rows[id].artifact.Some?
    ensures Covered(Pinned(db, id, s), guards + multiset{(s, id)}, alive)
  {
    var after, more := Pinned(db, id, s), guards + multiset{(s, id)};
    forall t, j | t in alive && more[(t, j)] > 0
      ensures j in after.rows && j in after.pins && after.rows[j].artifact.Some?
      ensures t in after.pins[j] && after.pins[j][t] >= more[(t, j)]
    {
      assert (t, j) != (s, id) ==> guards[(t, j)] == more[(t, j)];
    }
  }

  lemma BeginFetchKeepsPins(w: World, a: Actor, id: RowId)
    requires PinsInv(w) && Enabled(w, BeginFetch(a, id))
    ensures PinsInv(Apply(w, BeginFetch(a, id)))
  {
    PinnedKeepsCounts(w.db, id, a.session);
    PinnedCovers(w.db, id, a.session, w.guards, w.alive);
  }

  /** Giving a guard back with its pin leaves the other guards covered. */
  lemma UnpinnedCovers(db: Db, id: RowId, s: Session, guards: multiset<(Session, RowId)>, alive: set<Session>)
    requires Covered(db, guards, alive) && s in alive && guards[(s, id)] > 0
    ensures Covered(Unpinned(db, id, s), guards - multiset{(s, id)}, alive)
  {
    var after, fewer := Unpinned(db, id, s), guards - multiset{(s, id)};
    forall t, j | t in alive && fewer[(t, j)] > 0
      ensures j in after.rows && j in after.pins && after.rows[j].artifact.Some?
      ensures t in after.pins[j] && after.pins[j][t] >= fewer[(t, j)]
    {
      assert guards[(t, j)] == fewer[(t, j)] + if (t, j) == (s, id) then 1 else 0;
    }
  }

  lemma EndFetchKeepsPins(w: World, a: Actor, id: RowId)
    requires PinsInv(w) && Enabled(w, EndFetch(a, id))
    ensures PinsInv(Apply(w, EndFetch(a, id)))
  {
    UnpinnedKeepsCounts(w.db, id, a.session);
    UnpinnedCovers(w.db, id, a.session, w.guards, w.alive);
  }

  /** Fewer guards of fewer sessions are covered too. */
  lemma FewerGuards(w: World, t: World)
    requires PinsInv(w) && t.db == w.db && (t.lock == w.lock || !t.lock.Sweeping?)
    requires t.guards <= w.guards && w.born <= t.born && t.alive <= t.born
    requires forall s :: s in t.alive ==> s in w.alive || s !in w.born
    ensures PinsInv(t)
  {
    forall s, id | t.guards[(s, id)] > 0 ensures w.guards[(s, id)] >= t.guards[(s, id)] && s in w.born {
    }
  }

  /** Steps that leave the tables alone and hand out no guard. */
  lemma QuietStepKeepsPins(w: World, step: Step)
    requires PinsInv(w) && Enabled(w, step)
    requires IsQuiet(step) || step.WriteTemp? || step.Publish? || step.UndoRecord? || step.Unlink? || step.Sweep?
    ensures PinsInv(Apply(w, step))
  {
    FewerGuards(w, Apply(w, step));
  }

  lemma StepKeepsPins(w: World, step: Step)
    requires FilesInv(w) && PinsInv(w) && Enabled(w, step)
    ensures PinsInv(Apply(w, step))
  {
    match step
    case CommitRecord(a, row) => CommitRecordKeepsPins(w, a, row);
    case Collect(a, selected) => CollectKeepsPins(w, a, selected);
    case BeginReconcile(a, opening, dead) => ReconcileKeepsPins(w, a, opening, dead);
    case CommitReconcile(a) =>
    case BeginFetch(a, id) => BeginFetchKeepsPins(w, a, id);
    case EndFetch(a, id) => EndFetchKeepsPins(w, a, id);
    case _ => QuietStepKeepsPins(w, step);
  }

  // ----------------------------------------- no pin without a guard, if none is lost

  function PinCount(db: Db, id: RowId, s: Session): nat {
    if id in db.pins && s in db.pins[id] then db.pins[id][s] else 0
  }

  /** Live sessions hold exactly as many pins as guards, and no empty pin rows. */
  ghost predicate Exact(db: Db, guards: multiset<(Session, RowId)>, alive: set<Session>) {
    forall s, id :: s in alive ==>
      && PinCount(db, id, s) == guards[(s, id)]
      && (id in db.pins && s in db.pins[id] ==> db.pins[id][s] > 0)
  }

  ghost predicate ExactInv(w: World) {
    && Exact(w.db, w.guards, w.alive) && w.db.sessions <= w.born
    && (w.lock.Sweeping? ==> Exact(w.lock.tx, w.guards, w.alive) && w.lock.tx.sessions <= w.born)
  }

  /** The tables stay as they are, and so do the guards of those who live on. */
  lemma SamePinsStayExact(w: World, t: World)
    requires PinsInv(w) && ExactInv(w) && t.db == w.db && (t.lock == w.lock || !t.lock.Sweeping?)
    requires t.guards == w.guards && w.born <= t.born
    requires forall s :: s in t.alive ==> s in w.alive || s !in w.born
    ensures ExactInv(t)
  {
    forall s, id | s in t.alive && s !in w.alive
      ensures w.guards[(s, id)] == 0 && (id in w.db.pins ==> s !in w.db.pins[id])
      ensures w.lock.Sweeping? && id in w.lock.tx.pins ==> s !in w.lock.tx.pins[id]
    {
    }
  }

  lemma QuietStepStaysExact(w: World, step: Step)
    requires PinsInv(w) && ExactInv(w) && Enabled(w, step) && !step.LoseFetch?
    requires IsQuiet(step) || step.WriteTemp? || step.Publish? || step.UndoRecord? || step.Unlink? || step.Sweep?
    ensures ExactInv(Apply(w, step))
  {
    SamePinsStayExact(w, Apply(w, step));
  }

  lemma InsertedStaysExact(db: Db, row: Row, guards: multiset<(Session, RowId)>, alive: set<Session>)
    requires Exact(db, guards, alive) && CountsAgree(db) && RowsFresh(db)
    ensures Exact(Inserted(db, row), guards, alive)
  {
    var after := Inserted(db, row);
    forall s, id | s in alive
      ensures PinCount(after, id, s) == guards[(s, id)] && (id in after.pins && s in after.pins[id] ==> after.pins[id][s] > 0)
    {
      assert PinCount(db, id, s) == guards[(s, id)];
    }
  }

  lemma DeletedStaysExact(db: Db, selected: set<RowId>, guards: multiset<(Session, RowId)>, alive: set<Session>)
    requires Exact(db, guards, alive) && CountsAgree(db)
    requires forall id :: id in selected ==> id in db.rows && db.rows[id].refcount == 0
    ensures Exact(Deleted(db, selected), guards, alive)
  {
    var after := Deleted(db, selected);
    forall s, id | s in alive
      ensures PinCount(after, id, s) == guards[(s, id)] && (id in after.pins && s in after.pins[id] ==> after.pins[id][s] > 0)
    {
      assert PinCount(db, id, s) == guards[(s, id)];
      if id in selected && s in db.pins[id] {
        PinnedRowIsCounted(db, id, s);
      }
    }
  }

  lemma OpenedStaysExact(db: Db, s: Session, dead: set<Session>, guards: multiset<(Session, RowId)>, alive: set<Session>)
    requires Exact(db, guards, alive) && dead !! alive
    ensures Exact(Opened(db, s, dead), guards, alive)
  {
    var after := Opened(db, s, dead);
    forall t, id | t in alive
      ensures PinCount(after, id, t) == guards[(t, id)] && (id in after.pins && t in after.pins[id] ==> after.pins[id][t] > 0)
    {
      assert PinCount(db, id, t) == guards[(t, id)];
    }
  }

  lemma PinnedStaysExact(db: Db, id: RowId, s: Session, guards: multiset<(Session, RowId)>, alive: set<Session>)
    requires Exact(db, guards, alive) && id in db.rows && id in db.pins
    ensures Exact(Pinned(db, id, s), guards + multiset{(s, id)}, alive)
  {
    var after, more := Pinned(db, id, s), guards + multiset{(s, id)};
    forall t, j | t in alive
      ensures PinCount(after, j, t) == more[(t, j)] && (j in after.pins && t in after.pins[j] ==> after.pins[j][t] > 0)
    {
      assert PinCount(db, j, t) == guards[(t, j)];
    }
  }

  lemma UnpinnedStaysExact(db: Db, id: RowId, s: Session, guards: multiset<(Session, RowId)>, alive: set<Session>)
    requires Exact(db, guards, alive) && s in alive && guards[(s, id)] > 0
    ensures Exact(Unpinned(db, id, s), guards - multiset{(s, id)}, alive)
  {
    var after, fewer := Unpinned(db, id, s), guards - multiset{(s, id)};
    forall t, j | t in alive
      ensures PinCount(after, j, t) == fewer[(t, j)] && (j in after.pins && t in after.pins[j] ==> after.pins[j][t] > 0)
    {
      assert PinCount(db, j, t) == guards[(t, j)] && PinCount(db, id, s) == guards[(s, id)];
    }
  }

  lemma ReconcileStaysExact(w: World, a: Actor, opening: bool, dead: set<Session>)
    requires ArtifactsPresent(w.db, w.files) && PinsInv(w) && ExactInv(w) && Enabled(w, BeginReconcile(a, opening, dead))
    ensures ExactInv(Apply(w, BeginReconcile(a, opening, dead)))
  {
    if opening {
      OpenedStaysExact(w.db, a.session, dead, w.guards, w.alive);
      NothingToClear(Opened(w.db, a.session, dead), w.files);
    } else {
      NothingToClear(w.db, w.files);
    }
  }

  lemma StepStaysExact(w: World, step: Step)
    requires FilesInv(w) && PinsInv(w) && ExactInv(w) && Enabled(w, step) && !step.LoseFetch?
    ensures ExactInv(Apply(w, step))
  {
    match step
    case CommitRecord(a, row) => InsertedStaysExact(w.db, row, w.guards, w.alive);
    case Collect(a, selected) => DeletedStaysExact(w.db, selected, w.guards, w.alive);
    case BeginReconcile(a, opening, dead) => ReconcileStaysExact(w, a, opening, dead);
    case CommitReconcile(a) =>
    case BeginFetch(a, id) => PinnedStaysExact(w.db, id, a.session, w.guards, w.alive);
    case EndFetch(a, id) => UnpinnedStaysExact(w.db, id, a.session, w.guards, w.alive);
    case _ => QuietStepStaysExact(w, step);
  }

  // ------------------------------------------------------- sources and spool

  ghost predicate SourcesInv(w: World) {
    && SourcesDistinct(w.db)
    && (w.lock.Recording? ==> !HasSource(w.db, w.lock.source))
    && (forall id :: id in w.db.rows && w.db.rows[id].source.Some? ==> w.db.rows[id].source.value in w.committed)
    && (forall a :: a in w.ingests && w.ingests[a].HasRecorded? ==> w.ingests[a].source in w.committed)
    && w.spooled <= w.spool + w.committed
  }

  lemma CommitRecordKeepsSources(w: World, a: Actor, row: Row)
    requires RowsFresh(w.db) && SourcesInv(w) && Enabled(w, CommitRecord(a, row))
    ensures SourcesInv(Apply(w, CommitRecord(a, row)))
  {
  }

  lemma FewerRowsKeepSources(w: World, t: World)
    requires SourcesInv(w) && !t.lock.Recording?
    requires t.committed == w.committed && t.ingests == w.ingests && t.spool == w.spool && t.spooled == w.spooled
    requires forall id :: id in t.db.rows ==> id in w.db.rows && t.db.rows[id].source == w.db.rows[id].source
    ensures SourcesInv(t)
  {
  }

  /** Steps that change rows and add none. */
  lemma OtherStepKeepsSources(w: World, step: Step)
    requires FilesInv(w) && SourcesInv(w) && Enabled(w, step)
    requires step.Collect? || step.CommitReconcile? || step.BeginFetch? || step.EndFetch?
    ensures SourcesInv(Apply(w, step))
  {
    FewerRowsKeepSources(w, Apply(w, step));
  }

  lemma QuietStepKeepsSources(w: World, step: Step)
    requires SourcesInv(w) && Enabled(w, step)
    requires IsQuiet(step) || step.WriteTemp? || step.Publish? || step.UndoRecord? || step.Unlink? || step.Sweep?
             || step.BeginReconcile?
    ensures SourcesInv(Apply(w, step))
  {
    if step.BeginRecord? {
      var source := SourceOf(w, step.actor, step.ingesting);
      assert HasSource(w.db, source) ==> source.value in w.committed;
    }
  }

  lemma StepKeepsSources(w: World, step: Step)
    requires FilesInv(w) && SourcesInv(w) && Enabled(w, step)
    ensures SourcesInv(Apply(w, step))
  {
    if step.CommitRecord? {
      CommitRecordKeepsSources(w, step.actor, step.row);
    } else if step.Collect? || step.CommitReconcile? || step.BeginFetch? || step.EndFetch? {
      OtherStepKeepsSources(w, step);
    } else {
      QuietStepKeepsSources(w, step);
    }
  }

  // ----------------------------------------------------------- main results

  ghost predicate Inv(w: World) {
    FilesInv(w) && PinsInv(w) && SourcesInv(w)
  }

  lemma {:induction false} RunKeepsInv(worlds: seq<World>, steps: seq<Step>, i: nat)
    requires IsRun(worlds, steps) && i <= |steps|
    ensures Inv(worlds[i])
  {
    if i > 0 {
      RunKeepsInv(worlds, steps, i - 1);
      StepKeepsFiles(worlds[i - 1], steps[i - 1]);
      StepKeepsPins(worlds[i - 1], steps[i - 1]);
      StepKeepsSources(worlds[i - 1], steps[i - 1]);
    }
  }

  /** Whatever the interleaving and whoever dies when: no committed row names an
      artifact that is missing. */
  lemma NoRowNamesAMissingArtifact(worlds: seq<World>, steps: seq<Step>, i: nat, id: RowId)
    requires IsRun(worlds, steps) && i <= |steps|
    requires id in worlds[i].db.rows && worlds[i].db.rows[id].artifact.Some?
    ensures Artifact(worlds[i].db.rows[id].artifact.value) in worlds[i].files
  {
    RunKeepsInv(worlds, steps, i);
  }

  /** Right after an open, or a collector's own sweep, the store's files on disk are
      exactly the artifacts that rows name: no orphan and no half-written file. */
  lemma SweptDirectoryIsExact(worlds: seq<World>, steps: seq<Step>, i: nat, f: File)
    requires IsRun(worlds, steps) && i < |steps| && steps[i].CommitReconcile?
    requires !f.Foreign?
    ensures f in worlds[i + 1].files <==> f.Artifact? && Names(worlds[i + 1].db, f.name)
  {
    RunKeepsInv(worlds, steps, i);
    RunKeepsInv(worlds, steps, i + 1);
  }

  /** Files the store does not own are never touched. */
  lemma {:induction false} ForeignFilesUntouched(worlds: seq<World>, steps: seq<Step>, i: nat, f: File)
    requires IsRun(worlds, steps) && i <= |steps| && f.Foreign?
    ensures f in worlds[i].files <==> f in worlds[0].files
  {
    if i > 0 {
      ForeignFilesUntouched(worlds, steps, i - 1, f);
    }
  }

  /** In every reachable state each reference count is the sum of the row's pins. */
  lemma CountsAlwaysAgree(worlds: seq<World>, steps: seq<Step>, i: nat, id: RowId)
    requires IsRun(worlds, steps) && i <= |steps| && id in worlds[i].db.rows
    ensures id in worlds[i].db.pins && worlds[i].db.rows[id].refcount == PinTotal(worlds[i].db.pins[id])
  {
    RunKeepsInv(worlds, steps, i);
  }

  /** As long as a live session holds a fetch guard, the row stays, it is pinned, and
      the artifact it names stays on disk: no collection can take it. */
  lemma GuardedRowSurvives(worlds: seq<World>, steps: seq<Step>, i: nat, s: Session, id: RowId)
    requires IsRun(worlds, steps) && i <= |steps|
    requires s in worlds[i].alive && worlds[i].guards[(s, id)] > 0
    ensures id in worlds[i].db.rows && worlds[i].db.rows[id].refcount > 0
    ensures worlds[i].db.rows[id].artifact.Some? && Artifact(worlds[i].db.rows[id].artifact.value) in worlds[i].files
    ensures i < |steps| && steps[i].Collect? ==> id !in steps[i].selected && id in worlds[i + 1].db.rows
  {
    RunKeepsInv(worlds, steps, i);
    PinnedRowIsCounted(worlds[i].db, id, s);
  }

  lemma {:induction false} RunStaysExact(worlds: seq<World>, steps: seq<Step>, i: nat)
    requires IsRun(worlds, steps) && i <= |steps| && forall j :: 0 <= j < i ==> !steps[j].LoseFetch?
    ensures ExactInv(worlds[i])
  {
    if i > 0 {
      RunStaysExact(worlds, steps, i - 1);
      RunKeepsInv(worlds, steps, i - 1);
      StepStaysExact(worlds[i - 1], steps[i - 1]);
    }
  }

  /** As long as no release has been lost, a live session has a pin on a row exactly if it
      holds a guard, and as many; so a row that nobody reads, and that no dead session still
      pins, is unpinned and can be collected. */
  lemma UnguardedRowIsUnpinned(worlds: seq<World>, steps: seq<Step>, i: nat, id: RowId)
    requires IsRun(worlds, steps) && i <= |steps| && forall j :: 0 <= j < i ==> !steps[j].LoseFetch?
    requires id in worlds[i].db.rows
    ensures id in worlds[i].db.pins
    ensures forall s :: s in worlds[i].alive ==>
              && (s in worlds[i].db.pins[id] <==> worlds[i].guards[(s, id)] > 0)
              && (s in worlds[i].db.pins[id] ==> worlds[i].db.pins[id][s] == worlds[i].guards[(s, id)])
    ensures worlds[i].db.sessions <= worlds[i].alive && (forall s :: worlds[i].guards[(s, id)] == 0) ==>
              worlds[i].db.rows[id].refcount == 0
  {
    RunStaysExact(worlds, steps, i);
    RunKeepsInv(worlds, steps, i);
    NoPinsMeansZero(worlds[i], id);
  }

  lemma NoPinsMeansZero(w: World, id: RowId)
    requires PinsInv(w) && ExactInv(w) && id in w.db.rows
    ensures forall s :: s in w.alive ==>
              && (s in w.db.pins[id] <==> w.guards[(s, id)] > 0)
              && (s in w.db.pins[id] ==> w.db.pins[id][s] == w.guards[(s, id)])
    ensures w.db.sessions <= w.alive && (forall s :: w.guards[(s, id)] == 0) ==> w.db.rows[id].refcount == 0
  {
    forall s | s in w.alive ensures PinCount(w.db, id, s) == w.guards[(s, id)] {
    }
    if w.db.sessions <= w.alive && (forall s :: w.guards[(s, id)] == 0) {
      forall s | s in w.db.sessions ensures s !in w.db.pins[id] {
        assert PinCount(w.db, id, s) == w.guards[(s, id)];
      }
      assert w.db.pins[id] == map[];
    }
  }

  /** A completed spool record is never lost: it is still in the spool, or its row was
      committed; and no two live rows ever come from the same spool file. */
  lemma SpoolRecordNeverLost(worlds: seq<World>, steps: seq<Step>, i: nat, source: Source)
    requires IsRun(worlds, steps) && i <= |steps| && source in worlds[i].spooled
    ensures source in worlds[i].spool || source in worlds[i].committed
    ensures forall x, y :: x in worlds[i].db.rows && y in worlds[i].db.rows ==>
              worlds[i].db.rows[x].source == Some(source) && worlds[i].db.rows[y].source == Some(source) ==> x == y
  {
    RunKeepsInv(worlds, steps, i);
  }

  /** A spool file is only removed once its row has been committed. */
  lemma RemovedOnlyAfterCommit(worlds: seq<World>, steps: seq<Step>, i: nat, source: Source)
    requires IsRun(worlds, steps) && i < |steps|
    requires source in worlds[i].spool && source !in worlds[i + 1].spool
    ensures steps[i].RemoveSpool? && source in worlds[i].committed
  {
    RunKeepsInv(worlds, steps, i);
    SpoolShrinks(worlds[i], steps[i], source);
  }

  lemma SpoolShrinks(w: World, step: Step, source: Source)
    requires SourcesInv(w) && Enabled(w, step) && source in w.spool && source !in Apply(w, step).spool
    ensures step.RemoveSpool? && source in w.committed
  {
  }

  lemma NewlyCommitted(w: World, step: Step, source: Source)
    requires Enabled(w, step) && source !in w.committed && source in Apply(w, step).committed
    ensures w.db.nextId in Apply(w, step).db.rows && Apply(w, step).db.rows[w.db.nextId].source == Some(source)
  {
  }

  /** What `committed` records: a row with that source was in the database. */
  lemma {:induction false} CommittedHadARow(worlds: seq<World>, steps: seq<Step>, i: nat, source: Source)
    returns (j: nat, id: RowId)
    requires IsRun(worlds, steps) && i <= |steps| && source in worlds[i].committed
    ensures j <= i && id in worlds[j].db.rows && worlds[j].db.rows[id].source == Some(source)
  {
    if source in worlds[i - 1].committed {
      j, id := CommittedHadARow(worlds, steps, i - 1, source);
    } else {
      NewlyCommitted(worlds[i - 1], steps[i - 1], source);
      j, id := i, worlds[i - 1].db.nextId;
    }
  }
}
