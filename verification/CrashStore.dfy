/**
 The crash store object (crates/running-process-probe-daemon/src/crash_store.rs): one
 process's handle on the tables and on the artifacts directory. Its methods run
 without interruption here and start from any state of tables and directory, also
 one that something else has damaged; each is proved to have the effect of the
 transactions of `CrashDb` that `CrashProtocol` interleaves.
 */
module CrashStore {
  import opened Wrappers
  import opened CrashDb
  import Insertion
  import RetentionGc

  /** A parsed crash report and the size of its JSON artifact. */
  datatype Report = Report(appClass: string, appName: string, startedAt: nat, crashedAt: nat, bytes: nat)

  /** What recording gives back: the row, and the artifact it names. */
  datatype Stored = Stored(id: RowId, artifact: Option<Name>)

  datatype RecordError = ArtifactTooLarge(actual: nat, maximum: nat) | IntegerRange

  function ToGcRow(id: RowId, row: Row): RetentionGc.GcRow {
    RetentionGc.GcRow(id, row.appClass, row.appName, row.crashedAt, row.bytes, row.refcount)
  }

  /** The collector's query: every row once, newest first. */
  ghost predicate ListsRows(list: seq<RetentionGc.GcRow>, rows: map<RowId, Row>) {
    && RetentionGc.NewestFirst(list) && RetentionGc.DistinctIds(list)
    && (forall g :: g in list ==> g.id >= 0 && g.id in rows && g == ToGcRow(g.id, rows[g.id]))
    && (forall id :: id in rows ==> ToGcRow(id, rows[id]) in list)
  }

  /** What the collector sees of a row is the row's own. */
  lemma ListedRowIsRow(list: seq<RetentionGc.GcRow>, rows: map<RowId, Row>, id: RowId) returns (i: nat)
    requires ListsRows(list, rows) && id in rows
    ensures i < |list| && list[i].id == id && list[i].appClass == rows[id].appClass && list[i].appName == rows[id].appName
    ensures list[i].crashedAt == rows[id].crashedAt && list[i].bytes == rows[id].bytes && list[i].refcount == rows[id].refcount
  {
    i :| 0 <= i < |list| && list[i] == ToGcRow(id, rows[id]);
  }

  predicate Newer(a: RetentionGc.GcRow, b: RetentionGc.GcRow) {
    a.crashedAt > b.crashedAt || (a.crashedAt == b.crashedAt && a.id > b.id)
  }

  predicate OtherId(a: RetentionGc.GcRow, b: RetentionGc.GcRow) {
    a.id != b.id
  }

  method SumPins(pins: map<Session, nat>) returns (total: nat)
    ensures total == PinTotal(pins)
  {
    total := 0;
    var todo := pins;
    while todo != map[]
      invariant total + PinTotal(todo) == PinTotal(pins)
      decreases |todo|
    {
      var s :| s in todo;
      PinTotalSplit(todo, s);
      total := total + todo[s];
      todo := todo - {s};
    }
  }

  method InsertNewestFirst(list: seq<RetentionGc.GcRow>, g: RetentionGc.GcRow) returns (longer: seq<RetentionGc.GcRow>)
    requires RetentionGc.NewestFirst(list) && RetentionGc.DistinctIds(list)
    requires forall x :: x in list ==> x.id != g.id
    ensures RetentionGc.NewestFirst(longer) && RetentionGc.DistinctIds(longer)
    ensures forall x :: x in longer <==> x in list || x == g
  {
    ghost var at: nat;
    longer, at := Insertion.Insert(list, g, Newer);
    Insertion.InsertKeepsSorted(list, g, at, OtherId);
    Insertion.InsertedMembers(list, g, at);
  }

  method ListRows(rows: map<RowId, Row>) returns (list: seq<RetentionGc.GcRow>)
    ensures ListsRows(list, rows)
  {
    list := [];
    var todo := rows.Keys;
    while todo != {}
      invariant todo <= rows.Keys
      invariant RetentionGc.NewestFirst(list) && RetentionGc.DistinctIds(list)
      invariant forall g :: g in list ==> g.id >= 0 && g.id in rows && g.id !in todo && g == ToGcRow(g.id, rows[g.id])
      invariant forall id :: id in rows && id !in todo ==> ToGcRow(id, rows[id]) in list
      decreases todo
    {
      var id :| id in todo;
      list := InsertNewestFirst(list, ToGcRow(id, rows[id]));
      todo := todo - {id};
    }
  }

  /** The ids, as row ids. */
  function AsRowIds(ids: set<int>): set<RowId> {
    set id: RowId | id in ids
  }

  /** What the collector selects is in the database and unpinned, so removing it is a
      `Collect` step of the protocol. */
  lemma SelectedAreUnpinned(list: seq<RetentionGc.GcRow>, rows: map<RowId, Row>, policy: RetentionGc.Policy, now: nat, id: int)
    requires ListsRows(list, rows) && id in RetentionGc.Selected(list, policy, now)
    ensures id >= 0 && id in rows && rows[id].refcount == 0
  {
    var i := RetentionGc.SelectedIsRow(list, policy, now, id);
    RetentionGc.SelectsOldestUnpinned(list, policy, now, i);
    assert list[i] in list;
  }

  /** One collection: the selected rows and their files go, then tables and directory
      are reconciled. */
  ghost predicate Collects(db: Db, files: set<File>, selected: set<RowId>, after: Db, left: set<File>) {
    Reconciles(Deleted(db, selected), files - (set n | n in ArtifactNames(db, selected) :: Artifact(n)), after, left)
  }

  /** On a store whose rows name files of their own, a collection removes exactly the
      selected rows, and leaves every other row and its artifact untouched. */
  lemma CollectionIsExact(db: Db, files: set<File>, selected: set<RowId>, after: Db, left: set<File>)
    requires ArtifactsPresent(db, files) && ArtifactsDistinct(db)
    requires Collects(db, files, selected, after, left)
    ensures after.rows == map id | id in db.rows && id !in selected :: db.rows[id]
    ensures after.pins == map id | id in db.pins && id !in selected :: db.pins[id]
    ensures after.sessions == db.sessions && after.nextId == db.nextId
    ensures ArtifactsPresent(after, left) && ArtifactsDistinct(after)
    ensures forall f :: f in left && !f.Foreign? ==> f.Artifact? && Names(after, f.name)
  {
    var deleted := Deleted(db, selected);
    var rest := files - (set n | n in ArtifactNames(db, selected) :: Artifact(n));
    forall id | id in deleted.rows && deleted.rows[id].artifact.Some?
      ensures Artifact(deleted.rows[id].artifact.value) in rest
    {
      assert id in db.rows && id !in selected;
    }
    NothingToClear(deleted, rest);
    ReconciledIsExact(deleted, rest, after, left);
  }

  /** A row that is not selected and whose artifact is its own comes through unchanged. */
  lemma UnselectedStays(db: Db, files: set<File>, selected: set<RowId>, after: Db, left: set<File>, id: RowId)
    requires Collects(db, files, selected, after, left) && id in db.rows && id !in selected
    requires db.rows[id].artifact.Some? && Artifact(db.rows[id].artifact.value) in files
    requires db.rows[id].artifact.value !in ArtifactNames(db, selected)
    ensures id in after.rows && after.rows[id] == db.rows[id]
  {
  }

  /** The tables hold signed 64-bit integers. */
  predicate OutOfRange(report: Report) {
    report.startedAt > RetentionGc.I64_MAX || report.crashedAt > RetentionGc.I64_MAX || report.bytes > RetentionGc.I64_MAX
  }

  /** A file of the spool: still growing, ill-formed, or a complete crash record. */
  datatype SpoolFile =
    | Growing(path: string)
    | Malformed(path: string)
    | Complete(path: string, report: Report, source: Source)

  datatype Kind = Growing | Malformed | Complete

  predicate IsOf(f: SpoolFile, kind: Kind) {
    match kind
    case Growing => f.Growing?
    case Malformed => f.Malformed?
    case Complete => f.Complete?
  }

  function Only(spool: seq<SpoolFile>, kind: Kind): seq<SpoolFile> {
    if spool == [] then []
    else
      var n := |spool| - 1;
      if IsOf(spool[n], kind) then Only(spool[..n], kind) + [spool[n]] else Only(spool[..n], kind)
  }

  /** One call of `Record` that succeeded, with the store before and after it, and whether
      the collection at its end went through. */
  datatype Recording = Recording(
    report: Report, source: Option<Source>, collected: bool, stored: Stored,
    db: Db, files: set<File>, after: Db, left: set<File>)

  /** The recordings lead from one state of the store to another, one after the other. */
  ghost predicate LeadTo(db: Db, files: set<File>, trail: seq<Recording>, after: Db, left: set<File>) {
    if trail == [] then after == db && left == files
    else
      var n := |trail| - 1;
      && trail[n].after == after && trail[n].left == left
      && LeadTo(db, files, trail[..n], trail[n].db, trail[n].files)
  }

  /** The files, the artifacts returned for them and the recordings correspond. */
  ghost predicate AreRecorded(complete: seq<SpoolFile>, written: seq<Option<Name>>, trail: seq<Recording>) {
    && |complete| == |written| == |trail|
    && forall i :: 0 <= i < |trail| ==>
         && complete[i].Complete?
         && trail[i].report == complete[i].report && trail[i].source == Some(complete[i].source)
         && trail[i].stored.artifact == written[i]
  }

  /** Every file of the spool is where its kind says: growing ones are left, malformed
      ones set aside and complete ones recorded, in the order they were read. */
  ghost predicate Sorted(
    spool: seq<SpoolFile>, growing: seq<SpoolFile>, aside: seq<SpoolFile>, written: seq<Option<Name>>, trail: seq<Recording>)
  {
    && growing == Only(spool, Kind.Growing)
    && aside == Only(spool, Kind.Malformed)
    && AreRecorded(Only(spool, Kind.Complete), written, trail)
  }

  /** The files of one kind, and no others. */
  lemma {:induction false} OnlyExactly(spool: seq<SpoolFile>, f: SpoolFile)
    ensures f in Only(spool, Kind.Growing) <==> f in spool && f.Growing?
    ensures f in Only(spool, Kind.Malformed) <==> f in spool && f.Malformed?
    ensures f in Only(spool, Kind.Complete) <==> f in spool && f.Complete?
  {
    if spool != [] {
      var n := |spool| - 1;
      OnlyExactly(spool[..n], f);
      assert spool == spool[..n] + [spool[n]];
    }
  }

  lemma OnlyExtended(spool: seq<SpoolFile>, f: SpoolFile, kind: Kind)
    ensures Only(spool + [f], kind) == if IsOf(f, kind) then Only(spool, kind) + [f] else Only(spool, kind)
  {
    assert (spool + [f])[..|spool|] == spool;
  }

  lemma OneMoreRecorded(complete: seq<SpoolFile>, f: SpoolFile, written: seq<Option<Name>>, trail: seq<Recording>, step: Recording)
    requires AreRecorded(complete, written, trail)
    requires f.Complete? && step.report == f.report && step.source == Some(f.source)
    ensures AreRecorded(complete + [f], written + [step.stored.artifact], trail + [step])
  {
  }

  lemma SortedGrowing(spool: seq<SpoolFile>, f: SpoolFile, growing: seq<SpoolFile>, aside: seq<SpoolFile>,
                      written: seq<Option<Name>>, trail: seq<Recording>)
    requires Sorted(spool, growing, aside, written, trail) && f.Growing?
    ensures Sorted(spool + [f], growing + [f], aside, written, trail)
  {
    OnlyExtended(spool, f, Kind.Growing);
    OnlyExtended(spool, f, Kind.Malformed);
    OnlyExtended(spool, f, Kind.Complete);
  }

  lemma SortedMalformed(spool: seq<SpoolFile>, f: SpoolFile, growing: seq<SpoolFile>, aside: seq<SpoolFile>,
                        written: seq<Option<Name>>, trail: seq<Recording>)
    requires Sorted(spool, growing, aside, written, trail) && f.Malformed?
    ensures Sorted(spool + [f], growing, aside + [f], written, trail)
  {
    OnlyExtended(spool, f, Kind.Growing);
    OnlyExtended(spool, f, Kind.Malformed);
    OnlyExtended(spool, f, Kind.Complete);
  }

  lemma SortedComplete(spool: seq<SpoolFile>, f: SpoolFile, growing: seq<SpoolFile>, aside: seq<SpoolFile>,
                       written: seq<Option<Name>>, trail: seq<Recording>, step: Recording)
    requires Sorted(spool, growing, aside, written, trail)
    requires f.Complete? && step.report == f.report && step.source == Some(f.source)
    ensures Sorted(spool + [f], growing, aside, written + [step.stored.artifact], trail + [step])
  {
    OnlyExtended(spool, f, Kind.Growing);
    OnlyExtended(spool, f, Kind.Malformed);
    OnlyExtended(spool, f, Kind.Complete);
    OneMoreRecorded(Only(spool, Kind.Complete), f, written, trail, step);
  }

  /** The names from `k` on belong to no file. */
  predicate Unused(names: seq<Name>, k: nat, files: set<File>) {
    forall i :: k <= i < |names| ==> Temp(names[i]) !in files && Artifact(names[i]) !in files
  }

  class Store {
    const session: Session
    const policy: RetentionGc.Policy
    const maxSingleBytes: nat
    var db: Db
    var files: set<File>

    constructor (session: Session, policy: RetentionGc.Policy, maxSingleBytes: nat, db: Db, files: set<File>)
      ensures this.session == session && this.policy == policy && this.maxSingleBytes == maxSingleBytes
      ensures this.db == db && this.files == files
    {
      this.session, this.policy, this.maxSingleBytes, this.db, this.files := session, policy, maxSingleBytes, db, files;
    }

    /** Clears the rows whose artifact is gone, then removes the files no row names. */
    method ReconcileArtifacts()
      modifies this
      ensures Clears(old(db), old(files), db) && Sweeps(db, old(files), files)
      ensures Reconciles(old(db), old(files), db, files)
    {
      var referenced: set<File> := {};
      var todo := db.rows.Keys;
      while todo != {}
        invariant todo <= db.rows.Keys == old(db).rows.Keys && files == old(files)
        invariant db == old(db).(rows := db.rows)
        invariant forall id :: id in todo ==> db.rows[id] == old(db).rows[id]
        invariant forall id :: id in db.rows && id !in todo ==> db.rows[id] == Cleared(old(db), files).rows[id]
        invariant forall f :: f in referenced <==>
                    exists id :: id in db.rows && id !in todo && db.rows[id].artifact.Some? && f == Artifact(db.rows[id].artifact.value)
        decreases todo
      {
        var id :| id in todo;
        var row := db.rows[id];
        if row.artifact.Some? {
          if Artifact(row.artifact.value) in files {
            referenced := referenced + {Artifact(row.artifact.value)};
          } else {
            db := db.(rows := db.rows[id := row.(artifact := None, bytes := 0)]);
          }
        }
        todo := todo - {id};
      }
      assert db.rows == ClearedRows(old(db).rows, old(files));
      SweepFiles(referenced);
      ReconciledMeans(old(db), old(files), db, files);
    }

    method SweepFiles(referenced: set<File>)
      requires forall f :: f in referenced <==>
                 exists id :: id in db.rows && db.rows[id].artifact.Some? && f == Artifact(db.rows[id].artifact.value)
      modifies this`files
      ensures files == Swept(db, old(files))
    {
      var todo := files;
      while todo != {}
        invariant todo <= files <= old(files)
        invariant forall f :: f in old(files) && f !in todo ==> (f in files <==> f.Foreign? || f in referenced)
        invariant forall f :: f in todo ==> f in files
        decreases todo
      {
        var file :| file in todo;
        if file !in referenced && !file.Foreign? {
          files := files - {file};
        }
        todo := todo - {file};
      }
      forall f | f in old(files) ensures f in files <==> Referenced(db, f) {
        if f.Artifact? && Names(db, f.name) {
          var id :| id in db.rows && db.rows[id].artifact == Some(f.name);
          assert f in referenced;
        }
      }
    }

    /** Opening: sessions not in `alive` go with their pins, this one is entered, every
        reference count is recomputed, and tables and directory are reconciled. */
    method ReconcileOnOpen(alive: set<Session>) returns (ghost dead: set<Session>, ghost counted: Db)
      modifies this
      ensures forall s :: s in db.sessions <==> s == session || (s in old(db).sessions && s in alive)
      ensures forall s, id :: s in alive && id in old(db).pins && s in old(db).pins[id] ==>
                id in db.pins && s in db.pins[id] && db.pins[id][s] == old(db).pins[id][s]
      ensures forall s, id :: s in old(db).sessions && s !in alive && s != session && id in db.pins ==> s !in db.pins[id]
      ensures forall id :: id in db.rows ==> db.rows[id].refcount == if id in db.pins then PinTotal(db.pins[id]) else 0
      ensures dead !! alive && session !in dead && dead <= old(db).sessions
      ensures Opens(old(db), session, dead, counted) && counted == Opened(old(db), session, dead)
      ensures Clears(counted, old(files), db) && Sweeps(db, old(files), files)
      ensures Reconciles(counted, old(files), db, files)
    {
      var gone := SessionsToDrop(db, alive);
      dead := gone;
      var pins := map id | id in db.pins :: db.pins[id] - gone;
      var rows := db.rows;
      var todo := rows.Keys;
      while todo != {}
        invariant todo <= rows.Keys == db.rows.Keys && db == old(db) && files == old(files)
        invariant forall id :: id in todo ==> rows[id] == db.rows[id]
        invariant forall id :: id in rows && id !in todo ==> rows[id] == Opened(db, session, gone).rows[id]
        decreases todo
      {
        var id :| id in todo;
        var count: nat := 0;
        if id in pins {
          count := SumPins(pins[id]);
        }
        rows := rows[id := rows[id].(refcount := count)];
        todo := todo - {id};
      }
      assert rows == Opened(db, session, gone).rows;
      db := Db(rows, db.nextId, db.sessions - gone + {session}, pins);
      counted := db;
      OpenedOpens(old(db), session, gone);
      ReconcileArtifacts();
    }

    function SessionsToDrop(db: Db, alive: set<Session>): set<Session> {
      set s | s in db.sessions && s !in alive && s != session
    }

    /** Pins a row's artifact for reading, if both are there. */
    method BeginFetch(id: RowId, sizeMatches: bool) returns (pinned: bool)
      requires session in db.sessions && db.pins.Keys == db.rows.Keys
      modifies this`db
      ensures pinned <==> id in old(db).rows && old(db).rows[id].artifact.Some?
                          && Artifact(old(db).rows[id].artifact.value) in files && sizeMatches
      ensures !pinned ==> db == old(db)
      ensures pinned ==> Takes(old(db), id, session, db) && db == Pinned(old(db), id, session)
    {
      if id !in db.rows || db.rows[id].artifact.None? || Artifact(db.rows[id].artifact.value) !in files || !sizeMatches {
        return false;
      }
      var row := db.rows[id];
      var pins := db.pins[id];
      if session in pins {
        pins := pins[session := pins[session] + 1];
      } else {
        pins := pins[session := 1];
      }
      db := db.(rows := db.rows[id := row.(refcount := row.refcount + 1)], pins := db.pins[id := pins]);
      pinned := true;
    }

    /** Releases one pin of this session. */
    method EndFetch(id: RowId)
      modifies this`db
      ensures Releases(old(db), id, session, db) && db == Unpinned(old(db), id, session)
    {
      var pins := db.pins;
      if id in pins && session in pins[id] {
        var count := pins[id][session];
        if count > 0 {
          count := count - 1;
        }
        pins := pins[id := if count <= 0 then pins[id] - {session} else pins[id][session := count]];
      }
      var rows := db.rows;
      if id in rows {
        var refcount := rows[id].refcount;
        rows := rows[id := rows[id].(refcount := if refcount > 0 then refcount - 1 else 0)];
      }
      db := db.(rows := rows, pins := pins);
    }

    /** Deletes the rows the policy selects, then their files, then reconciles. */
    method Gc(now: nat) returns (deleted: nat, ghost list: seq<RetentionGc.GcRow>)
      modifies this
      ensures ListsRows(list, old(db).rows)
      ensures var selected := AsRowIds(RetentionGc.Selected(list, policy, now));
              && (forall id :: id in selected ==> id in old(db).rows && old(db).rows[id].refcount == 0)
              && deleted == |selected|
              && Collects(old(db), old(files), selected, db, files)
    {
      var rows := ListRows(db.rows);
      list := rows;
      var selected := RetentionGc.SelectForGc(rows, policy, now);
      forall id | id in selected ensures id >= 0 && id in db.rows && db.rows[id].refcount == 0 {
        SelectedAreUnpinned(rows, db.rows, policy, now, id);
      }
      var ids: set<RowId> := AsRowIds(selected);
      var paths := DeleteRows(ids);
      files := files - (set n | n in paths :: Artifact(n));
      ReconcileArtifacts();
      deleted := |ids|;
    }

    method DeleteRows(ids: set<RowId>) returns (paths: set<Name>)
      requires forall id :: id in ids ==> id in db.rows && db.rows[id].refcount == 0
      modifies this`db
      ensures db == Deleted(old(db), ids) && paths == ArtifactNames(old(db), ids)
    {
      paths := {};
      var todo := ids;
      ghost var done: set<RowId> := {};
      while todo != {}
        invariant todo !! done && todo + done == ids
        invariant db == Deleted(old(db), done)
        invariant paths == ArtifactNames(old(db), done)
        decreases todo
      {
        var id :| id in todo;
        if id in db.rows && db.rows[id].refcount == 0 {
          if db.rows[id].artifact.Some? {
            paths := paths + {db.rows[id].artifact.value};
          }
          db := Deleted(db, {id});
        }
        todo := todo - {id};
        done := done + {id};
      }
      assert done == ids;
    }

    predicate TooLarge(report: Report) {
      maxSingleBytes != 0 && report.bytes > maxSingleBytes
    }

    /** A spool file that has a row gives that row; otherwise there is a new row, its
        artifact is written, and a collection follows. */
    ghost predicate Records(c: Recording, name: Name, now: nat, list: seq<RetentionGc.GcRow>) {
      if HasSource(c.db, c.source) then
        && c.after == c.db && c.left == c.files
        && c.stored.id in c.db.rows && c.db.rows[c.stored.id].source == c.source
        && c.stored.artifact == c.db.rows[c.stored.id].artifact
      else
        var inserted := Inserted(c.db, NewRow(c.report, c.source, name));
        && c.stored == Stored(c.db.nextId, Some(name))
        && if c.collected then
             && ListsRows(list, inserted.rows)
             && Collects(inserted, c.files + {Artifact(name)}, AsRowIds(RetentionGc.Selected(list, policy, now)), c.after, c.left)
           else
             c.after == inserted && c.left == c.files + {Artifact(name)}
    }

    function NewRow(report: Report, source: Option<Source>, name: Name): Row {
      Row(report.appClass, report.appName, report.crashedAt, Some(name), report.bytes, 0, source)
    }

    /** The new row holds the report's own fields, names the new artifact and is unpinned. */
    lemma RecordedRowHolds(c: Recording, name: Name, now: nat, list: seq<RetentionGc.GcRow>)
      requires Records(c, name, now, list) && !HasSource(c.db, c.source)
      requires RowsFresh(c.db) && !Names(c.db, name)
      ensures c.stored.id !in c.db.rows && c.stored.artifact == Some(name)
      ensures c.stored.id in c.after.rows ==>
                var row := c.after.rows[c.stored.id];
                && row.appClass == c.report.appClass && row.appName == c.report.appName
                && row.crashedAt == c.report.crashedAt && row.bytes == c.report.bytes
                && row.source == c.source && row.refcount == 0 && row.artifact == Some(name)
      ensures c.stored.id !in c.after.rows ==> c.collected && c.stored.id in RetentionGc.Selected(list, policy, now)
    {
      var inserted, id := Inserted(c.db, NewRow(c.report, c.source, name)), c.db.nextId;
      var selected := AsRowIds(RetentionGc.Selected(list, policy, now));
      if c.collected && id !in selected {
        assert name !in ArtifactNames(inserted, selected);
        UnselectedStays(inserted, c.files + {Artifact(name)}, selected, c.after, c.left, id);
      }
    }

    /** A recording takes no row away but those its collection selects, which are unpinned,
        and changes no row's source or reference count. */
    lemma RecordingKeepsOthers(c: Recording, name: Name, now: nat, list: seq<RetentionGc.GcRow>, id: RowId)
      requires Records(c, name, now, list) && RowsFresh(c.db) && id in c.db.rows
      ensures id in c.after.rows ==>
                c.after.rows[id].source == c.db.rows[id].source && c.after.rows[id].refcount == c.db.rows[id].refcount
      ensures id !in c.after.rows ==>
                c.collected && id in RetentionGc.Selected(list, policy, now) && c.db.rows[id].refcount == 0
    {
      if !HasSource(c.db, c.source) && c.collected && id !in c.after.rows {
        SelectedAreUnpinned(list, Inserted(c.db, NewRow(c.report, c.source, name)).rows, policy, now, id);
      }
    }

    /** Writes the artifact, inserts its row, and collects, unless the collection fails, which
        it may. A report from a spool file that already has a row gives that row, and an
        error changes nothing. */
    method Record(report: Report, source: Option<Source>, name: Name, now: nat, collects: bool)
      returns (r: Result<Stored, RecordError>, ghost list: seq<RetentionGc.GcRow>)
      requires Temp(name) !in files && Artifact(name) !in files
      modifies this
      ensures r.Err? && r.error.ArtifactTooLarge? <==> maxSingleBytes != 0 && report.bytes > maxSingleBytes
      ensures r.Err? && r.error.ArtifactTooLarge? ==> r.error == ArtifactTooLarge(report.bytes, maxSingleBytes)
      ensures r == Err(IntegerRange) <==>
                && !(maxSingleBytes != 0 && report.bytes > maxSingleBytes)
                && !(source.Some? && exists id :: id in old(db).rows && old(db).rows[id].source == source)
                && (report.startedAt >= 0x8000_0000_0000_0000 || report.crashedAt >= 0x8000_0000_0000_0000
                    || report.bytes >= 0x8000_0000_0000_0000)
      ensures r.Err? ==> db == old(db) && files == old(files)
      ensures r.Ok? ==> Records(Recording(report, source, collects, r.value, old(db), old(files), db, files), name, now, list)
    {
      list := [];
      if TooLarge(report) {
        return Err(ArtifactTooLarge(report.bytes, maxSingleBytes)), list;
      }
      if source.Some? {
        if id :| id in db.rows && db.rows[id].source == source {
          return Ok(Stored(id, db.rows[id].artifact)), list;
        }
      }
      files := files + {Temp(name)};
      files := files - {Temp(name)} + {Artifact(name)};
      if OutOfRange(report) {
        files := files - {Artifact(name)};
        return Err(IntegerRange), list;
      }
      var id := db.nextId;
      db := Inserted(db, NewRow(report, source, name));
      if collects {
        var deleted;
        deleted, list := Gc(now);
      }
      r := Ok(Stored(id, Some(name)));
    }

    ghost predicate RecordsSome(c: Recording, names: seq<Name>, now: nat) {
      exists k, list :: 0 <= k < |names| && Records(c, names[k], now, list)
    }

    /** Recordings of this store, with the given names, that lead from one state to another. */
    ghost predicate Trails(
      db: Db, files: set<File>, trail: seq<Recording>, after: Db, left: set<File>, names: seq<Name>, now: nat)
    {
      && LeadTo(db, files, trail, after, left)
      && forall i :: 0 <= i < |trail| ==> RecordsSome(trail[i], names, now)
    }

    lemma TrailGrows(db: Db, files: set<File>, trail: seq<Recording>, step: Recording, names: seq<Name>, now: nat)
      requires Trails(db, files, trail, step.db, step.files, names, now) && RecordsSome(step, names, now)
      ensures Trails(db, files, trail + [step], step.after, step.left, names, now)
    {
      assert (trail + [step])[..|trail|] == trail;
    }

    /** Records every complete spool file and removes it afterwards. A file that is
        still being written stays, a malformed one is set aside, and the first error
        leaves its own file and all that follow where they are. */
    method IngestPending(spool: seq<SpoolFile>, names: seq<Name>, now: nat, collects: seq<bool>)
      returns (left: seq<SpoolFile>, aside: seq<SpoolFile>, written: seq<Option<Name>>, error: Option<RecordError>,
               ghost handled: nat, ghost trail: seq<Recording>)
      requires |names| == |spool| == |collects|
      requires Unused(names, 0, files)
      requires forall i, j :: 0 <= i < j < |names| ==> names[i] != names[j]
      modifies this
      ensures handled <= |spool| && (error.None? <==> handled == |spool|)
      ensures exists growing :: left == growing + spool[handled..] && Sorted(spool[..handled], growing, aside, written, trail)
      ensures Trails(old(db), old(files), trail, db, files, names, now)
      ensures error.Some? ==> spool[handled].Complete? && (TooLarge(spool[handled].report) || OutOfRange(spool[handled].report))
    {
      left, aside, written, error, trail := [], [], [], None, [];
      for k := 0 to |spool|
        invariant error.None?
        invariant Sorted(spool[..k], left, aside, written, trail)
        invariant Trails(old(db), old(files), trail, db, files, names, now)
        invariant Unused(names, k, files)
      {
        assert spool[..k + 1] == spool[..k] + [spool[k]];
        match spool[k] {
          case Growing(_) =>
            SortedGrowing(spool[..k], spool[k], left, aside, written, trail);
            left := left + [spool[k]];
          case Malformed(_) =>
            SortedMalformed(spool[..k], spool[k], left, aside, written, trail);
            aside := aside + [spool[k]];
          case Complete(_, report, source) =>
            var recorded;
            ghost var step;
            recorded, step := RecordSpooled(report, source, names, k, now, collects[k]);
            if recorded.Err? {
              return left + spool[k..], aside, written, Some(recorded.error), k, trail;
            }
            SortedComplete(spool[..k], spool[k], left, aside, written, trail, step);
            TrailGrows(old(db), old(files), trail, step, names, now);
            trail := trail + [step];
            written := written + [recorded.value.artifact];
        }
      }
      handled := |spool|;
      assert left == left + spool[|spool|..];
    }

    /** One recording out of the spool: it uses up one name and no other. */
    method RecordSpooled(report: Report, source: Source, names: seq<Name>, k: nat, now: nat, collects: bool)
      returns (r: Result<Stored, RecordError>, ghost step: Recording)
      requires k < |names|
      requires Unused(names, k, files)
      requires forall i, j :: 0 <= i < j < |names| ==> names[i] != names[j]
      modifies this
      ensures r.Err? ==> (TooLarge(report) || OutOfRange(report)) && db == old(db) && files == old(files)
      ensures r.Ok? ==> step == Recording(report, Some(source), collects, r.value, old(db), old(files), db, files)
                        && RecordsSome(step, names, now)
      ensures Unused(names, k + 1, files)
    {
      ghost var before, there := db, files;
      ghost var list;
      r, list := Record(report, Some(source), names[k], now, collects);
      var stored := if r.Ok? then r.value else Stored(0, None);
      step := Recording(report, Some(source), collects, stored, before, there, db, files);
      if r.Ok? {
        assert Records(step, names[k], now, list);
      }
    }
  }
}
