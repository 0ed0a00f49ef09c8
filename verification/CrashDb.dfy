/**
 The crash store's durable state (crates/running-process-probe-daemon/src/crash_store.rs):
 the tables `crashes`, `crash_store_sessions` and `crash_fetch_pins`, and the files of
 the artifacts directory, with what its transactions do to them.
 */
module CrashDb {
  import opened Wrappers

  type RowId = nat
  type Name = string
  type Session = string
  type Source = string

  /** A published artifact, a half-written one, or a file the store does not own. */
  datatype File = Artifact(name: Name) | Temp(name: Name) | Foreign(name: string)

  datatype Row = Row(
    appClass: string, appName: string, crashedAt: nat,
    artifact: Option<Name>, bytes: nat, refcount: nat, source: Option<Source>)

  /** `pins[id]` holds the pin count of each session that pins row `id`. */
  datatype Db = Db(rows: map<RowId, Row>, nextId: RowId, sessions: set<Session>, pins: map<RowId, map<Session, nat>>)

  const EmptyDb := Db(map[], 1, {}, map[])

  /** SQL's SUM over the sessions. */
  ghost function PinTotal(pins: map<Session, nat>): nat
    decreases |pins|
  {
    if pins == map[] then 0
    else
      var s :| s in pins;
      pins[s] + PinTotal(pins - {s})
  }

  predicate Names(db: Db, n: Name) {
    exists id :: id in db.rows && db.rows[id].artifact == Some(n)
  }

  predicate Referenced(db: Db, f: File) {
    f.Foreign? || (f.Artifact? && Names(db, f.name))
  }

  predicate HasSource(db: Db, source: Option<Source>) {
    source.Some? && exists id :: id in db.rows && db.rows[id].source == source
  }

  // ------------------------------------------------------------ transactions

  function Inserted(db: Db, row: Row): Db {
    db.(rows := db.rows[db.nextId := row], nextId := db.nextId + 1, pins := db.pins[db.nextId := map[]])
  }

  /** Deleting rows deletes their pins. */
  function Deleted(db: Db, selected: set<RowId>): Db {
    db.(rows := db.rows - selected, pins := db.pins - selected)
  }

  function WithOnePin(pins: map<Session, nat>, s: Session): map<Session, nat> {
    var count: nat := if s in pins then pins[s] + 1 else 1;
    pins[s := count]
  }

  function Pinned(db: Db, id: RowId, s: Session): Db
    requires id in db.rows && id in db.pins
  {
    db.(rows := db.rows[id := db.rows[id].(refcount := db.rows[id].refcount + 1)],
        pins := db.pins[id := WithOnePin(db.pins[id], s)])
  }

  function WithoutOnePin(pins: map<Session, nat>, s: Session): map<Session, nat> {
    if s !in pins then pins
    else if pins[s] <= 1 then pins - {s}
    else pins[s := pins[s] - 1]
  }

  function Unpinned(db: Db, id: RowId, s: Session): Db {
    var rows := if id in db.rows then
                  var row := db.rows[id];
                  db.rows[id := row.(refcount := if row.refcount > 0 then row.refcount - 1 else 0)]
                else db.rows;
    var pins := if id in db.pins then db.pins[id := WithoutOnePin(db.pins[id], s)] else db.pins;
    db.(rows := rows, pins := pins)
  }

  /** A session's arrival: dead sessions go, with their pins, and every reference
      count is computed anew from the pins that are left. */
  ghost function Opened(db: Db, s: Session, dead: set<Session>): Db {
    var pins := map id | id in db.pins :: db.pins[id] - dead;
    Db(map id | id in db.rows :: db.rows[id].(refcount := if id in pins then PinTotal(pins[id]) else 0),
       db.nextId, db.sessions - dead + {s}, pins)
  }

  /** Rows whose artifact is gone stop naming it. */
  function ClearedRows(rows: map<RowId, Row>, files: set<File>): map<RowId, Row> {
    map id | id in rows ::
      if rows[id].artifact.Some? && Artifact(rows[id].artifact.value) !in files
      then rows[id].(artifact := None, bytes := 0) else rows[id]
  }

  function Cleared(db: Db, files: set<File>): Db {
    db.(rows := ClearedRows(db.rows, files))
  }

  function ArtifactNames(db: Db, ids: set<RowId>): set<Name> {
    set id | id in ids && id in db.rows && db.rows[id].artifact.Some? :: db.rows[id].artifact.value
  }

  /** The files a sweep leaves: those that rows name, and those it does not own. */
  function Swept(db: Db, files: set<File>): set<File> {
    set f | f in files && Referenced(db, f)
  }

  /** Reconciling tables and directory, from whatever state they are in. */
  ghost predicate Reconciles(db: Db, files: set<File>, after: Db, left: set<File>) {
    after == Cleared(db, files) && left == Swept(after, files)
  }

  // -------------------------------------------------------------- invariants

  /** Every reference count is the sum of the row's pins. */
  ghost predicate CountsAgree(db: Db) {
    && db.pins.Keys == db.rows.Keys
    && (forall id :: id in db.rows ==> db.rows[id].refcount == PinTotal(db.pins[id]))
    && (forall id, s :: id in db.pins && s in db.pins[id] ==> s in db.sessions)
  }

  ghost predicate RowsFresh(db: Db) {
    forall id :: id in db.rows ==> id < db.nextId
  }

  /** No row names a file that is not there. */
  ghost predicate ArtifactsPresent(db: Db, files: set<File>) {
    forall id :: id in db.rows && db.rows[id].artifact.Some? ==> Artifact(db.rows[id].artifact.value) in files
  }

  ghost predicate ArtifactsDistinct(db: Db) {
    forall i, j :: i in db.rows && j in db.rows ==>
      db.rows[i].artifact.Some? && db.rows[i].artifact == db.rows[j].artifact ==> i == j
  }

  ghost predicate SourcesDistinct(db: Db) {
    forall i, j :: i in db.rows && j in db.rows ==>
      db.rows[i].source.Some? && db.rows[i].source == db.rows[j].source ==> i == j
  }

  // ------------------------------------------------------------- pin totals

  lemma {:induction false} PinTotalSplit(pins: map<Session, nat>, s: Session)
    requires s in pins
    ensures PinTotal(pins) == pins[s] + PinTotal(pins - {s})
    decreases |pins|
  {
    var t :| t in pins && PinTotal(pins) == pins[t] + PinTotal(pins - {t});
    if t != s {
      PinTotalSplit(pins - {t}, s);
      PinTotalSplit(pins - {s}, t);
      assert pins - {t} - {s} == pins - {s} - {t};
    }
  }

  lemma PinTotalUpdate(pins: map<Session, nat>, s: Session, count: nat)
    ensures PinTotal(pins[s := count]) == PinTotal(pins - {s}) + count
    ensures PinTotal(pins) == PinTotal(pins - {s}) + (if s in pins then pins[s] else 0)
  {
    PinTotalSplit(pins[s := count], s);
    assert pins[s := count] - {s} == pins - {s};
    if s in pins {
      PinTotalSplit(pins, s);
    } else {
      assert pins - {s} == pins;
    }
  }

  /** A session's pins are part of the row's reference count. */
  lemma PinnedRowIsCounted(db: Db, id: RowId, s: Session)
    requires CountsAgree(db) && id in db.rows && s in db.pins[id] && db.pins[id][s] > 0
    ensures db.rows[id].refcount > 0
  {
    PinTotalSplit(db.pins[id], s);
  }

  lemma PinnedKeepsCounts(db: Db, id: RowId, s: Session)
    requires CountsAgree(db) && id in db.rows && s in db.sessions
    ensures CountsAgree(Pinned(db, id, s))
  {
    PinTotalUpdate(db.pins[id], s, if s in db.pins[id] then db.pins[id][s] + 1 else 1);
  }

  /** Releasing a pin that is held lowers count and sum together. */
  lemma UnpinnedKeepsCounts(db: Db, id: RowId, s: Session)
    requires CountsAgree(db) && id in db.rows && s in db.pins[id] && db.pins[id][s] > 0
    ensures CountsAgree(Unpinned(db, id, s))
  {
    PinTotalUpdate(db.pins[id], s, db.pins[id][s] - 1);
  }

  lemma OpenedCounts(db: Db, s: Session, dead: set<Session>)
    requires db.pins.Keys == db.rows.Keys
    requires forall id, t :: id in db.pins && t in db.pins[id] ==> t in db.sessions
    ensures CountsAgree(Opened(db, s, dead))
  {
  }

  /** While every named artifact is there, reconciliation clears nothing. */
  lemma NothingToClear(db: Db, files: set<File>)
    requires ArtifactsPresent(db, files)
    ensures Cleared(db, files) == db
  {
    assert ClearedRows(db.rows, files) == db.rows;
  }

  /** Whatever the state before: after a reconciliation no row names a missing file,
      and every file of the store's is named by a row. */
  lemma ReconciledIsExact(db: Db, files: set<File>, after: Db, left: set<File>)
    requires Reconciles(db, files, after, left)
    ensures ArtifactsPresent(after, left)
    ensures forall f :: f in left && !f.Foreign? ==> f.Artifact? && Names(after, f.name)
    ensures forall f :: f in files && f.Foreign? ==> f in left
  {
    forall id | id in after.rows && after.rows[id].artifact.Some?
      ensures Artifact(after.rows[id].artifact.value) in left
    {
      assert Names(after, after.rows[id].artifact.value);
    }
  }

  // -------------------------------------------------- what transactions change

  /** Nothing but the row and the pins of `id` differs. */
  ghost predicate OnlyRow(db: Db, id: RowId, after: Db) {
    && after.nextId == db.nextId && after.sessions == db.sessions
    && after.rows.Keys == db.rows.Keys && after.pins.Keys == db.pins.Keys
    && (forall j :: j in db.rows && j != id ==> after.rows[j] == db.rows[j])
    && (forall j :: j in db.pins && j != id ==> after.pins[j] == db.pins[j])
  }

  /** Nothing but the pins of `s` differs. */
  ghost predicate OnlyPin(pins: map<Session, nat>, s: Session, after: map<Session, nat>) {
    forall t :: t != s ==> (t in after <==> t in pins) && (t in pins ==> after[t] == pins[t])
  }

  /** One pin more: the session's count and the row's go up by one. */
  ghost predicate Takes(db: Db, id: RowId, s: Session, after: Db) {
    && OnlyRow(db, id, after) && id in db.rows && id in db.pins
    && after.rows[id] == db.rows[id].(refcount := db.rows[id].refcount + 1)
    && OnlyPin(db.pins[id], s, after.pins[id])
    && s in after.pins[id] && after.pins[id][s] == (if s in db.pins[id] then db.pins[id][s] else 0) + 1
  }

  /** One pin less: the session's count goes down by one and is gone at zero; the row's
      goes down by one if it can. */
  ghost predicate Releases(db: Db, id: RowId, s: Session, after: Db) {
    && OnlyRow(db, id, after)
    && (id in db.rows ==>
          after.rows[id] == db.rows[id].(refcount := if db.rows[id].refcount == 0 then 0 else db.rows[id].refcount - 1))
    && (id in db.pins ==>
          && OnlyPin(db.pins[id], s, after.pins[id])
          && (s in after.pins[id] <==> s in db.pins[id] && db.pins[id][s] > 1)
          && (s in after.pins[id] ==> after.pins[id][s] == db.pins[id][s] - 1))
  }

  /** The dead sessions and all their pins are gone, `s` is there, nobody else has changed,
      and every reference count is the sum of the pins left. */
  ghost predicate Opens(db: Db, s: Session, dead: set<Session>, after: Db) {
    && after.nextId == db.nextId
    && (forall t :: t in after.sessions <==> t == s || (t in db.sessions && t !in dead))
    && after.pins.Keys == db.pins.Keys && after.rows.Keys == db.rows.Keys
    && (forall id, t :: id in db.pins ==>
          && (t in after.pins[id] <==> t in db.pins[id] && t !in dead)
          && (t in after.pins[id] ==> after.pins[id][t] == db.pins[id][t]))
    && (forall id :: id in db.rows ==>
          after.rows[id] == db.rows[id].(refcount := if id in after.pins then PinTotal(after.pins[id]) else 0))
  }

  /** Rows whose artifact is missing lose its name and size; nothing else changes. */
  ghost predicate Clears(db: Db, files: set<File>, after: Db) {
    && after.nextId == db.nextId && after.sessions == db.sessions && after.pins == db.pins
    && after.rows.Keys == db.rows.Keys
    && forall id :: id in db.rows ==>
         if db.rows[id].artifact.Some? && Artifact(db.rows[id].artifact.value) !in files
         then after.rows[id] == db.rows[id].(artifact := None, bytes := 0)
         else after.rows[id] == db.rows[id]
  }

  /** The files left are the foreign ones and the artifacts that rows name. */
  ghost predicate Sweeps(db: Db, files: set<File>, left: set<File>) {
    forall f :: f in left <==>
      f in files && (f.Foreign? || (f.Artifact? && exists id :: id in db.rows && db.rows[id].artifact == Some(f.name)))
  }

  lemma PinnedTakes(db: Db, id: RowId, s: Session)
    requires id in db.rows && id in db.pins
    ensures Takes(db, id, s, Pinned(db, id, s))
  {
  }

  lemma UnpinnedReleases(db: Db, id: RowId, s: Session)
    ensures Releases(db, id, s, Unpinned(db, id, s))
  {
  }

  lemma OpenedOpens(db: Db, s: Session, dead: set<Session>)
    ensures Opens(db, s, dead, Opened(db, s, dead))
  {
  }

  lemma ReconciledMeans(db: Db, files: set<File>, after: Db, left: set<File>)
    requires Reconciles(db, files, after, left)
    ensures Clears(db, files, after) && Sweeps(after, files, left)
  {
  }

  /** Releasing a pin undoes taking it. */
  lemma FetchRoundTrip(db: Db, id: RowId, s: Session)
    requires id in db.rows && id in db.pins && (s in db.pins[id] ==> db.pins[id][s] > 0)
    ensures Unpinned(Pinned(db, id, s), id, s) == db
  {
    var back := Unpinned(Pinned(db, id, s), id, s);
    assert back.pins[id] == db.pins[id];
    assert back.rows == db.rows && back.pins == db.pins;
  }

  /** A new row has a number no row had, its own fields, and no pins; no other row changes. */
  lemma InsertedAddsOne(db: Db, row: Row)
    requires RowsFresh(db)
    ensures var after := Inserted(db, row);
            && db.nextId !in db.rows && after.rows.Keys == db.rows.Keys + {db.nextId}
            && after.rows[db.nextId] == row && after.pins[db.nextId] == map[]
            && (forall id :: id in db.rows ==> after.rows[id] == db.rows[id])
            && after.sessions == db.sessions && RowsFresh(after)
  {
  }

  /** Deleting takes the rows and their pins, and nothing else. */
  lemma DeletedTakesThose(db: Db, selected: set<RowId>)
    ensures var after := Deleted(db, selected);
            && after.rows == (map id | id in db.rows && id !in selected :: db.rows[id])
            && after.pins == (map id | id in db.pins && id !in selected :: db.pins[id])
            && after.sessions == db.sessions && after.nextId == db.nextId
  {
  }
}
