/**
 Which crash rows the retention collector removes
 (crates/running-process-probe-daemon/src/crash_store.rs:987-1051).

 Rows come newest first. A first pass retires unpinned rows that are too old or
 beyond their application's quota; a second goes from the oldest row up and evicts
 unpinned rows until the row and byte budgets hold. Byte totals are 64-bit and
 saturate. What that saturation costs is stated exactly: for one policy, when a collection
 misses its budgets and when a second one removes more; and for which rows neither happens
 under any policy.
 */
module RetentionGc {
  import opened Identity

  const I64_MAX: nat := 0x7FFF_FFFF_FFFF_FFFF

  datatype GcRow = GcRow(id: int, appClass: string, appName: string, crashedAt: nat, bytes: nat, refcount: nat)

  /** Zero disables a bound. The age is a duration in nanoseconds. */
  datatype Policy = Policy(maxAgeNanos: nat, keepLastN: nat, maxTotalBytes: nat, maxRows: nat)

  predicate IsPolicy(p: Policy) {
    p.keepLastN <= U64_MAX && p.maxTotalBytes <= U64_MAX && p.maxRows <= U64_MAX
  }

  /** Rows as the database lists them: newest first, larger ids first among equals. */
  predicate NewestFirst(rows: seq<GcRow>) {
    forall i, j :: 0 <= i < j < |rows| ==>
      rows[i].crashedAt > rows[j].crashedAt || (rows[i].crashedAt == rows[j].crashedAt && rows[i].id > rows[j].id)
  }

  predicate DistinctIds(rows: seq<GcRow>) {
    forall i, j :: 0 <= i < j < |rows| ==> rows[i].id != rows[j].id
  }

  // ---------------------------------------------------------- retirement pass

  /** How many of the rows belong to one application. */
  function AppCount(rows: seq<GcRow>, app: (string, string)): (n: nat)
    ensures n <= |rows|
  {
    if rows == [] then 0
    else
      var n := |rows| - 1;
      AppCount(rows[..n], app) + if App(rows[n]) == app then 1 else 0
  }

  function App(row: GcRow): (string, string) {
    (row.appClass, row.appName)
  }

  function AgeCutoff(policy: Policy, now: nat): nat {
    SaturatingSub(now, SaturatingAdd(0, policy.maxAgeNanos / 1_000_000))
  }

  predicate TooOld(policy: Policy, now: nat, row: GcRow) {
    policy.maxAgeNanos != 0 && row.crashedAt < AgeCutoff(policy, now)
  }

  /** Whether a row is retired, given the newer rows. */
  predicate Retires(policy: Policy, now: nat, newer: seq<GcRow>, row: GcRow) {
    row.refcount == 0
    && (TooOld(policy, now, row) || (policy.keepLastN != 0 && AppCount(newer, App(row)) + 1 > policy.keepLastN))
  }

  function Retired(rows: seq<GcRow>, policy: Policy, now: nat): set<int> {
    if rows == [] then {}
    else
      var n := |rows| - 1;
      Retired(rows[..n], policy, now) + if Retires(policy, now, rows[..n], rows[n]) then {rows[n].id} else {}
  }

  // -------------------------------------------------------------- budget pass

  function RowsLeft(rows: seq<GcRow>, selected: set<int>): nat {
    if rows == [] then 0
    else
      var n := |rows| - 1;
      RowsLeft(rows[..n], selected) + if rows[n].id in selected then 0 else 1
  }

  function BytesLeft(rows: seq<GcRow>, selected: set<int>): nat {
    if rows == [] then 0
    else
      var n := |rows| - 1;
      BytesLeft(rows[..n], selected) + if rows[n].id in selected then 0 else rows[n].bytes
  }

  predicate Over(policy: Policy, rows: nat, bytes: nat) {
    (policy.maxRows != 0 && rows > policy.maxRows) || (policy.maxTotalBytes != 0 && bytes > policy.maxTotalBytes)
  }

  function Evict(rows: seq<GcRow>, k: nat, policy: Policy, selected: set<int>, rowsLeft: nat, bytesLeft: nat): set<int>
    requires k <= |rows|
    decreases k
  {
    if k == 0 || !Over(policy, rowsLeft, bytesLeft) then selected
    else
      var row := rows[k - 1];
      if row.refcount != 0 || row.id in selected then Evict(rows, k - 1, policy, selected, rowsLeft, bytesLeft)
      else Evict(rows, k - 1, policy, selected + {row.id}, SaturatingSub(rowsLeft, 1), SaturatingSub(bytesLeft, row.bytes))
  }

  /** The rows one collection removes. */
  function Selected(rows: seq<GcRow>, policy: Policy, now: nat): set<int> {
    var retired := Retired(rows, policy, now);
    Evict(rows, |rows|, policy, retired, RowsLeft(rows, retired), SaturatingAdd(0, BytesLeft(rows, retired)))
  }

  /** What one collection leaves, in the same order. */
  function Survivors(rows: seq<GcRow>, selected: set<int>): seq<GcRow> {
    if rows == [] then []
    else
      var n := |rows| - 1;
      Survivors(rows[..n], selected) + if rows[n].id in selected then [] else [rows[n]]
  }

  // ------------------------------------------------------------- the collector

  /** The two passes, as the source runs them. */
  method SelectForGc(rows: seq<GcRow>, policy: Policy, now: nat) returns (selected: set<int>)
    requires NewestFirst(rows) && DistinctIds(rows)
    ensures selected == Selected(rows, policy, now)
  {
    selected := Retire(rows, policy, now);
    var remainingRows := |rows| - |selected|;
    var remainingBytes := 0;
    for k := 0 to |rows|
      invariant remainingBytes == SaturatingAdd(0, BytesLeft(rows[..k], selected))
    {
      assert rows[..k + 1][..k] == rows[..k];
      if rows[k].id !in selected {
        remainingBytes := SaturatingAdd(remainingBytes, rows[k].bytes);
      }
    }
    assert rows[..|rows|] == rows;
    selected := EvictForBudget(rows, policy, selected, remainingRows, remainingBytes);
  }

  method Retire(rows: seq<GcRow>, policy: Policy, now: nat) returns (selected: set<int>)
    requires DistinctIds(rows)
    ensures selected == Retired(rows, policy, now)
    ensures |selected| + RowsLeft(rows, selected) == |rows|
  {
    var cutoff := AgeCutoff(policy, now);
    selected := {};
    var perApp: map<(string, string), nat> := map[];
    for k := 0 to |rows|
      invariant selected == Retired(rows[..k], policy, now)
      invariant forall app :: AppCount(rows[..k], app) == if app in perApp then perApp[app] else 0
    {
      var row := rows[k];
      assert rows[..k + 1][..k] == rows[..k];
      var app := App(row);
      var count := if app in perApp then perApp[app] + 1 else 1;
      perApp := perApp[app := count];
      var expired := policy.maxAgeNanos != 0 && row.crashedAt < cutoff;
      var beyondPerApp := policy.keepLastN != 0 && count > policy.keepLastN;
      if row.refcount == 0 && (expired || beyondPerApp) {
        selected := selected + {row.id};
      }
    }
    assert rows[..|rows|] == rows;
    RetiredCount(rows, policy, now);
  }

  method EvictForBudget(rows: seq<GcRow>, policy: Policy, retired: set<int>, rowsLeft: nat, bytesLeft: nat)
    returns (selected: set<int>)
    ensures selected == Evict(rows, |rows|, policy, retired, rowsLeft, bytesLeft)
  {
    selected := retired;
    var remainingRows: nat, remainingBytes: nat := rowsLeft, bytesLeft;
    for k := |rows| downto 0
      invariant Evict(rows, k, policy, selected, remainingRows, remainingBytes)
             == Evict(rows, |rows|, policy, retired, rowsLeft, bytesLeft)
    {
      var row := rows[k];
      var rowsOver := policy.maxRows != 0 && remainingRows > policy.maxRows;
      var bytesOver := policy.maxTotalBytes != 0 && remainingBytes > policy.maxTotalBytes;
      if !rowsOver && !bytesOver {
        break;
      }
      if row.refcount == 0 && row.id !in selected {
        selected := selected + {row.id};
        remainingRows := SaturatingSub(remainingRows, 1);
        remainingBytes := SaturatingSub(remainingBytes, row.bytes);
      }
    }
  }

  // ------------------------------------------------------------ counting facts

  lemma {:induction false} LeftUnaffected(rows: seq<GcRow>, selected: set<int>, id: int)
    requires forall i :: 0 <= i < |rows| ==> rows[i].id != id
    ensures RowsLeft(rows, selected + {id}) == RowsLeft(rows, selected)
    ensures BytesLeft(rows, selected + {id}) == BytesLeft(rows, selected)
  {
    if rows != [] {
      LeftUnaffected(rows[..|rows| - 1], selected, id);
    }
  }

  lemma {:induction false} RetiredAreRows(rows: seq<GcRow>, policy: Policy, now: nat, id: int)
    requires id in Retired(rows, policy, now)
    ensures exists i :: 0 <= i < |rows| && rows[i].id == id
  {
    var n := |rows| - 1;
    if id in Retired(rows[..n], policy, now) {
      RetiredAreRows(rows[..n], policy, now, id);
      var i :| 0 <= i < n && rows[..n][i].id == id;
      assert rows[i].id == id;
    }
  }

  /** Every retired id is the id of one row. */
  lemma {:induction false} RetiredCount(rows: seq<GcRow>, policy: Policy, now: nat)
    requires DistinctIds(rows)
    ensures |Retired(rows, policy, now)| + RowsLeft(rows, Retired(rows, policy, now)) == |rows|
  {
    if rows != [] {
      var n := |rows| - 1;
      var retired := Retired(rows[..n], policy, now);
      RetiredCount(rows[..n], policy, now);
      if rows[n].id in retired {
        RetiredAreRows(rows[..n], policy, now, rows[n].id);
      }
      LeftUnaffected(rows[..n], retired, rows[n].id);
    }
  }

  ghost function LeftRows(rows: seq<GcRow>, selected: set<int>): set<nat> {
    set i: nat | i < |rows| && rows[i].id !in selected
  }

  lemma LeftRowsExtended(rows: seq<GcRow>, selected: set<int>)
    requires rows != []
    ensures var n := |rows| - 1;
            && n !in LeftRows(rows[..n], selected)
            && LeftRows(rows, selected) == LeftRows(rows[..n], selected) + if rows[n].id in selected then {} else {n}
  {
  }

  /** The row total counts the rows that are left. */
  lemma {:induction false} RowsLeftIsSize(rows: seq<GcRow>, selected: set<int>)
    ensures RowsLeft(rows, selected) == |LeftRows(rows, selected)|
  {
    if rows != [] {
      RowsLeftIsSize(rows[..|rows| - 1], selected);
      LeftRowsExtended(rows, selected);
    }
  }

  /** Selecting one more row takes exactly it off the totals. */
  lemma {:induction false} SelectOne(rows: seq<GcRow>, selected: set<int>, k: nat)
    requires DistinctIds(rows) && k < |rows| && rows[k].id !in selected
    ensures RowsLeft(rows, selected) == RowsLeft(rows, selected + {rows[k].id}) + 1
    ensures BytesLeft(rows, selected) == BytesLeft(rows, selected + {rows[k].id}) + rows[k].bytes
  {
    var n := |rows| - 1;
    if k == n {
      LeftUnaffected(rows[..n], selected, rows[n].id);
    } else {
      SelectOne(rows[..n], selected, k);
    }
  }

  lemma {:induction false} LeftShrinks(rows: seq<GcRow>, few: set<int>, many: set<int>)
    requires few <= many
    ensures RowsLeft(rows, many) <= RowsLeft(rows, few)
    ensures BytesLeft(rows, many) <= BytesLeft(rows, few)
  {
    if rows != [] {
      LeftShrinks(rows[..|rows| - 1], few, many);
    }
  }

  lemma {:induction false} SurvivorTotals(rows: seq<GcRow>, selected: set<int>)
    ensures RowsLeft(Survivors(rows, selected), {}) == RowsLeft(rows, selected)
    ensures BytesLeft(Survivors(rows, selected), {}) == BytesLeft(rows, selected)
  {
    if rows != [] {
      var n := |rows| - 1;
      SurvivorTotals(rows[..n], selected);
      var s := Survivors(rows[..n], selected);
      if rows[n].id in selected {
        assert s + [] == s;
      } else {
        assert (s + [rows[n]])[..|s|] == s;
      }
    }
  }

  lemma {:induction false} SurvivorMembers(rows: seq<GcRow>, selected: set<int>)
    ensures forall row :: row in Survivors(rows, selected) <==> row in rows && row.id !in selected
  {
    if rows != [] {
      var n := |rows| - 1;
      SurvivorMembers(rows[..n], selected);
      assert rows == rows[..n] + [rows[n]];
    }
  }

  // ----------------------------------------------------------- the budget pass

  /** Newly selected by the budget pass. */
  ghost predicate Evicted(rows: seq<GcRow>, retired: set<int>, selected: set<int>, i: int) {
    0 <= i < |rows| && rows[i].id in selected && rows[i].id !in retired
  }

  ghost predicate Unpinned(rows: seq<GcRow>, selected: set<int>, i: int) {
    0 <= i < |rows| && rows[i].id !in selected && rows[i].refcount == 0
  }

  /** The running byte total once `selected` has grown from `retired`. */
  function Reported(rows: seq<GcRow>, retired: set<int>, start: nat, selected: set<int>): nat {
    SaturatingSub(start, SaturatingSub(BytesLeft(rows, retired), BytesLeft(rows, selected)))
  }

  ghost predicate EvictedOldest(rows: seq<GcRow>, k: nat, retired: set<int>, selected: set<int>) {
    && retired <= selected
    && (forall id :: id in selected && id !in retired ==> exists i :: Evicted(rows, retired, selected, i) && rows[i].id == id)
    && (forall i :: Evicted(rows, retired, selected, i) ==> i < k && rows[i].refcount == 0)
    && (forall i, j :: Evicted(rows, retired, selected, i) && j < k && Unpinned(rows, selected, j) ==> j < i)
  }

  lemma {:induction false} EvictsOldest(rows: seq<GcRow>, k: nat, policy: Policy, retired: set<int>, rowsLeft: nat, start: nat)
    requires DistinctIds(rows) && k <= |rows|
    ensures EvictedOldest(rows, k, retired, Evict(rows, k, policy, retired, rowsLeft, start))
    decreases k
  {
    if k > 0 && Over(policy, rowsLeft, start) {
      var row := rows[k - 1];
      if row.refcount != 0 || row.id in retired {
        EvictsOldest(rows, k - 1, policy, retired, rowsLeft, start);
      } else {
        var more := retired + {row.id};
        EvictsOldest(rows, k - 1, policy, more, SaturatingSub(rowsLeft, 1), SaturatingSub(start, row.bytes));
        var out := Evict(rows, k, policy, retired, rowsLeft, start);
        assert Evicted(rows, retired, out, k - 1);
        forall i | Evicted(rows, retired, out, i) ensures i == k - 1 || Evicted(rows, more, out, i) {
        }
      }
    }
  }

  /** The pass stops because the budgets hold, or because nothing unpinned is left. */
  lemma {:induction false} EvictsEnough(rows: seq<GcRow>, k: nat, policy: Policy, retired: set<int>, rowsLeft: nat, start: nat)
    requires DistinctIds(rows) && k <= |rows| && rowsLeft == RowsLeft(rows, retired)
    ensures var out := Evict(rows, k, policy, retired, rowsLeft, start);
            !Over(policy, RowsLeft(rows, out), Reported(rows, retired, start, out))
            || forall i :: 0 <= i < k ==> !Unpinned(rows, out, i)
    decreases k
  {
    if k > 0 && Over(policy, rowsLeft, start) {
      var row := rows[k - 1];
      var out := Evict(rows, k, policy, retired, rowsLeft, start);
      if row.refcount != 0 || row.id in retired {
        EvictsEnough(rows, k - 1, policy, retired, rowsLeft, start);
        EvictsOldest(rows, k - 1, policy, retired, rowsLeft, start);
      } else {
        var more := retired + {row.id};
        SelectOne(rows, retired, k - 1);
        EvictsEnough(rows, k - 1, policy, more, rowsLeft - 1, SaturatingSub(start, row.bytes));
        EvictsOldest(rows, k - 1, policy, more, rowsLeft - 1, SaturatingSub(start, row.bytes));
        LeftShrinks(rows, more, out);
      }
    }
  }

  /** The pass evicts no more than it must: if it evicted anything, then with the
      newest evicted row put back a budget would be exceeded. */
  lemma {:induction false} EvictsNoMore(rows: seq<GcRow>, k: nat, policy: Policy, retired: set<int>, rowsLeft: nat, start: nat)
    returns (last: nat)
    requires DistinctIds(rows) && k <= |rows| && rowsLeft == RowsLeft(rows, retired)
    requires Evict(rows, k, policy, retired, rowsLeft, start) != retired
    ensures var out := Evict(rows, k, policy, retired, rowsLeft, start);
            && Evicted(rows, retired, out, last)
            && (forall i :: Evicted(rows, retired, out, i) ==> last <= i)
            && Over(policy, RowsLeft(rows, out - {rows[last].id}), Reported(rows, retired, start, out - {rows[last].id}))
    decreases k
  {
    var row := rows[k - 1];
    var out := Evict(rows, k, policy, retired, rowsLeft, start);
    if row.refcount != 0 || row.id in retired {
      last := EvictsNoMore(rows, k - 1, policy, retired, rowsLeft, start);
    } else {
      var more := retired + {row.id};
      SelectOne(rows, retired, k - 1);
      EvictsOldest(rows, k - 1, policy, more, rowsLeft - 1, SaturatingSub(start, row.bytes));
      if out == more {
        last := k - 1;
        assert out - {row.id} == retired;
      } else {
        last := EvictsNoMore(rows, k - 1, policy, more, rowsLeft - 1, SaturatingSub(start, row.bytes));
        LeftShrinks(rows, more, out - {rows[last].id});
      }
    }
  }

  // ----------------------------------------------------------- main results

  ghost predicate AllPinned(rows: seq<GcRow>, selected: set<int>) {
    forall i :: !Unpinned(rows, selected, i)
  }

  predicate Older(a: GcRow, b: GcRow) {
    a.crashedAt < b.crashedAt || (a.crashedAt == b.crashedAt && a.id < b.id)
  }

  /** Both budgets hold for what is left, or everything left is pinned. */
  ghost predicate HonoursBudgets(rows: seq<GcRow>, policy: Policy, now: nat) {
    var selected := Selected(rows, policy, now);
    !Over(policy, RowsLeft(rows, selected), BytesLeft(rows, selected)) || AllPinned(rows, selected)
  }

  /** Nothing pinned is ever selected, and what the budget pass adds is older than
      every unpinned survivor. */
  lemma SelectsOldestUnpinned(rows: seq<GcRow>, policy: Policy, now: nat, i: nat)
    requires NewestFirst(rows) && DistinctIds(rows)
    requires i < |rows| && rows[i].id in Selected(rows, policy, now)
    ensures rows[i].refcount == 0
    ensures rows[i].id !in Retired(rows, policy, now) ==>
              forall j :: Unpinned(rows, Selected(rows, policy, now), j) ==> Older(rows[i], rows[j])
  {
    var retired := Retired(rows, policy, now);
    EvictsOldest(rows, |rows|, policy, retired, RowsLeft(rows, retired), SaturatingAdd(0, BytesLeft(rows, retired)));
    if rows[i].id in retired {
      RetiredIsUnpinned(rows, policy, now, i);
    } else {
      assert Evicted(rows, retired, Selected(rows, policy, now), i);
    }
  }

  lemma SelectedIsRow(rows: seq<GcRow>, policy: Policy, now: nat, id: int) returns (i: nat)
    requires DistinctIds(rows) && id in Selected(rows, policy, now)
    ensures i < |rows| && rows[i].id == id
  {
    var retired, out := Retired(rows, policy, now), Selected(rows, policy, now);
    EvictsOldest(rows, |rows|, policy, retired, RowsLeft(rows, retired), SaturatingAdd(0, BytesLeft(rows, retired)));
    if id in retired {
      RetiredAreRows(rows, policy, now, id);
      i :| 0 <= i < |rows| && rows[i].id == id;
    } else {
      i :| Evicted(rows, retired, out, i) && rows[i].id == id;
    }
  }

  lemma {:induction false} RetiredIsUnpinned(rows: seq<GcRow>, policy: Policy, now: nat, i: nat)
    requires DistinctIds(rows) && i < |rows|
    ensures rows[i].id in Retired(rows, policy, now) <==> Retires(policy, now, rows[..i], rows[i])
  {
    var n := |rows| - 1;
    if i == n {
      if rows[n].id in Retired(rows[..n], policy, now) {
        RetiredAreRows(rows[..n], policy, now, rows[n].id);
      }
    } else {
      RetiredIsUnpinned(rows[..n], policy, now, i);
      assert rows[..n][..i] == rows[..i];
    }
  }

  /** While the byte sizes add up within 64 bits the budget pass is right: it stops
      with both budgets met or only pinned rows left ... */
  lemma BudgetsMet(rows: seq<GcRow>, policy: Policy, now: nat)
    requires DistinctIds(rows) && BytesLeft(rows, {}) <= U64_MAX
    ensures HonoursBudgets(rows, policy, now)
    ensures var out := Selected(rows, policy, now);
            || (forall i :: 0 <= i < |rows| && rows[i].refcount == 0 ==> rows[i].id in out)
            || (&& (policy.maxRows != 0 ==> RowsLeft(rows, out) <= policy.maxRows)
                && (policy.maxTotalBytes != 0 ==> BytesLeft(rows, out) <= policy.maxTotalBytes))
  {
    var retired := Retired(rows, policy, now);
    var out := Selected(rows, policy, now);
    LeftShrinks(rows, {}, retired);
    EvictsEnough(rows, |rows|, policy, retired, RowsLeft(rows, retired), BytesLeft(rows, retired));
    EvictsOldest(rows, |rows|, policy, retired, RowsLeft(rows, retired), BytesLeft(rows, retired));
    LeftShrinks(rows, retired, out);
    if AllPinned(rows, out) {
      forall i | 0 <= i < |rows| && rows[i].refcount == 0 ensures rows[i].id in out {
        assert !Unpinned(rows, out, i);
      }
    }
  }

  /** ... and not later than it must: with the newest row it evicted put back, a
      budget is exceeded. */
  lemma NothingEvictedInVain(rows: seq<GcRow>, policy: Policy, now: nat) returns (last: nat)
    requires DistinctIds(rows) && BytesLeft(rows, {}) <= U64_MAX
    requires Selected(rows, policy, now) != Retired(rows, policy, now)
    ensures var out := Selected(rows, policy, now);
            && Evicted(rows, Retired(rows, policy, now), out, last)
            && (forall i :: Evicted(rows, Retired(rows, policy, now), out, i) ==> last <= i)
            && (|| (policy.maxRows != 0 && RowsLeft(rows, out - {rows[last].id}) > policy.maxRows)
                || (policy.maxTotalBytes != 0 && BytesLeft(rows, out - {rows[last].id}) > policy.maxTotalBytes))
  {
    var retired := Retired(rows, policy, now);
    var out := Selected(rows, policy, now);
    LeftShrinks(rows, {}, retired);
    last := EvictsNoMore(rows, |rows|, policy, retired, RowsLeft(rows, retired), BytesLeft(rows, retired));
    EvictsOldest(rows, |rows|, policy, retired, RowsLeft(rows, retired), BytesLeft(rows, retired));
    LeftShrinks(rows, retired, out - {rows[last].id});
  }

  /** The budgets are honoured under every policy exactly when the byte sizes add up
      within 64 bits, or every row is pinned. */
  lemma HonoursEveryPolicyExactly(rows: seq<GcRow>, now: nat)
    requires DistinctIds(rows)
    ensures (forall policy :: IsPolicy(policy) ==> HonoursBudgets(rows, policy, now))
       <==> BytesLeft(rows, {}) <= U64_MAX || AllPinned(rows, {})
  {
    if BytesLeft(rows, {}) <= U64_MAX || AllPinned(rows, {}) {
      forall policy | IsPolicy(policy) ensures HonoursBudgets(rows, policy, now) {
        if BytesLeft(rows, {}) <= U64_MAX {
          BudgetsMet(rows, policy, now);
        } else {
          forall i ensures !Unpinned(rows, Selected(rows, policy, now), i) {
            assert !Unpinned(rows, {}, i);
          }
        }
      }
    } else {
      var policy := Policy(0, 0, U64_MAX, 0);
      NothingRetired(rows, policy, now);
      assert Selected(rows, policy, now) == {};
      assert IsPolicy(policy) && !HonoursBudgets(rows, policy, now);
    }
  }

  lemma {:induction false} NothingRetired(rows: seq<GcRow>, policy: Policy, now: nat)
    requires policy.maxAgeNanos == 0 && policy.keepLastN == 0
    ensures Retired(rows, policy, now) == {}
  {
    if rows != [] {
      NothingRetired(rows[..|rows| - 1], policy, now);
    }
  }

  // ------------------------------------------------- one policy, one collection

  /** What is selected once the pass has gone down to row `c`. */
  ghost function Cut(rows: seq<GcRow>, retired: set<int>, c: nat): set<int>
    requires c <= |rows|
  {
    retired + set i | c <= i < |rows| && rows[i].refcount == 0 :: rows[i].id
  }

  lemma CutGrows(rows: seq<GcRow>, retired: set<int>, k: nat)
    requires DistinctIds(rows) && 0 < k <= |rows|
    ensures rows[k - 1].refcount != 0 || rows[k - 1].id in retired ==> Cut(rows, retired, k - 1) == Cut(rows, retired, k)
    ensures rows[k - 1].refcount == 0 && rows[k - 1].id !in retired ==>
              rows[k - 1].id !in Cut(rows, retired, k)
              && Cut(rows, retired, k - 1) == Cut(rows, retired, k) + {rows[k - 1].id}
  {
  }

  /** At row `c` the pass would go on. */
  ghost predicate GoesOn(rows: seq<GcRow>, policy: Policy, retired: set<int>, start: nat, c: nat)
    requires c <= |rows|
  {
    Over(policy, RowsLeft(rows, Cut(rows, retired, c)), Reported(rows, retired, start, Cut(rows, retired, c)))
  }

  ghost function EvictFrom(rows: seq<GcRow>, policy: Policy, retired: set<int>, start: nat, k: nat): set<int>
    requires k <= |rows|
  {
    var cut := Cut(rows, retired, k);
    Evict(rows, k, policy, cut, RowsLeft(rows, cut), Reported(rows, retired, start, cut))
  }

  lemma EvictFromNext(rows: seq<GcRow>, policy: Policy, retired: set<int>, start: nat, k: nat)
    requires DistinctIds(rows) && 0 < k <= |rows| && GoesOn(rows, policy, retired, start, k)
    ensures EvictFrom(rows, policy, retired, start, k) == EvictFrom(rows, policy, retired, start, k - 1)
  {
    CutGrows(rows, retired, k);
    var cut, row := Cut(rows, retired, k), rows[k - 1];
    LeftShrinks(rows, retired, cut);
    if row.refcount == 0 && row.id !in retired {
      SelectOne(rows, cut, k - 1);
      LeftShrinks(rows, retired, cut + {row.id});
    } else if row.refcount == 0 {
      assert row.id in cut;
    }
  }

  /** The pass stops at the first row at which it need not go on. */
  lemma {:induction false} StopsAtFirst(rows: seq<GcRow>, policy: Policy, retired: set<int>, start: nat, k: nat)
    returns (c: nat)
    requires DistinctIds(rows) && k <= |rows|
    ensures c <= k && EvictFrom(rows, policy, retired, start, k) == Cut(rows, retired, c)
    ensures c == 0 || !GoesOn(rows, policy, retired, start, c)
    ensures forall d :: c < d <= k ==> GoesOn(rows, policy, retired, start, d)
    decreases k
  {
    if k == 0 || !GoesOn(rows, policy, retired, start, k) {
      return k;
    }
    EvictFromNext(rows, policy, retired, start, k);
    c := StopsAtFirst(rows, policy, retired, start, k - 1);
  }

  lemma SelectedIsCut(rows: seq<GcRow>, policy: Policy, now: nat) returns (c: nat)
    requires DistinctIds(rows)
    ensures var retired := Retired(rows, policy, now);
            var start := SaturatingAdd(0, BytesLeft(rows, retired));
            && c <= |rows| && Selected(rows, policy, now) == Cut(rows, retired, c)
            && (c == 0 || !GoesOn(rows, policy, retired, start, c))
            && forall d :: c < d <= |rows| ==> GoesOn(rows, policy, retired, start, d)
  {
    var retired := Retired(rows, policy, now);
    assert Cut(rows, retired, |rows|) == retired;
    c := StopsAtFirst(rows, policy, retired, SaturatingAdd(0, BytesLeft(rows, retired)), |rows|);
  }

  /** With the unpinned rows from `c` on gone too, the row budget holds, the byte budget is
      exceeded by no more than what the saturated total has lost, and an unpinned row is left. */
  ghost predicate StopsShort(rows: seq<GcRow>, policy: Policy, now: nat, c: nat)
    requires c <= |rows|
  {
    var retired := Retired(rows, policy, now);
    var cut := Cut(rows, retired, c);
    var lost := BytesLeft(rows, retired) - U64_MAX;
    && (policy.maxRows == 0 || RowsLeft(rows, cut) <= policy.maxRows)
    && policy.maxTotalBytes < BytesLeft(rows, cut) <= policy.maxTotalBytes + lost
    && !AllPinned(rows, cut)
  }

  ghost predicate SomewhereShort(rows: seq<GcRow>, policy: Policy, now: nat) {
    policy.maxTotalBytes != 0 && exists c :: 0 <= c <= |rows| && StopsShort(rows, policy, now, c)
  }

  lemma ShortIsEnough(rows: seq<GcRow>, policy: Policy, now: nat, c: nat)
    requires c <= |rows| && StopsShort(rows, policy, now, c)
    ensures var retired := Retired(rows, policy, now);
            !GoesOn(rows, policy, retired, SaturatingAdd(0, BytesLeft(rows, retired)), c)
  {
    var retired := Retired(rows, policy, now);
    LeftShrinks(rows, retired, Cut(rows, retired, c));
  }

  lemma FailureStopsShort(rows: seq<GcRow>, policy: Policy, now: nat)
    requires DistinctIds(rows) && !HonoursBudgets(rows, policy, now)
    ensures SomewhereShort(rows, policy, now)
  {
    var retired := Retired(rows, policy, now);
    var c := SelectedIsCut(rows, policy, now);
    var cut := Cut(rows, retired, c);
    LeftShrinks(rows, retired, cut);
    var i :| Unpinned(rows, cut, i);
    assert c != 0;
    assert StopsShort(rows, policy, now, c);
  }

  /** For one policy and one collection: the budgets are not honoured if and only if the
      pass can stop short in this way. */
  lemma BudgetsFailExactly(rows: seq<GcRow>, policy: Policy, now: nat)
    requires DistinctIds(rows)
    ensures !HonoursBudgets(rows, policy, now) <==> SomewhereShort(rows, policy, now)
  {
    if !HonoursBudgets(rows, policy, now) {
      FailureStopsShort(rows, policy, now);
    } else if SomewhereShort(rows, policy, now) {
      var retired := Retired(rows, policy, now);
      var d :| 0 <= d <= |rows| && StopsShort(rows, policy, now, d);
      ShortIsEnough(rows, policy, now, d);
      var c := SelectedIsCut(rows, policy, now);
      assert d <= c;
      LeftShrinks(rows, Cut(rows, retired, c), Cut(rows, retired, d));
      var i :| Unpinned(rows, Cut(rows, retired, d), i);
      assert Unpinned(rows, Cut(rows, retired, c), i);
    }
  }

  // ------------------------------------------------------------- quotas hold

  lemma RetiredAreSelected(rows: seq<GcRow>, policy: Policy, now: nat)
    requires DistinctIds(rows)
    ensures Retired(rows, policy, now) <= Selected(rows, policy, now)
  {
    var retired := Retired(rows, policy, now);
    EvictsOldest(rows, |rows|, policy, retired, RowsLeft(rows, retired), SaturatingAdd(0, BytesLeft(rows, retired)));
  }

  // ---------------------------------------------- what is retired, and only that

  /** The rows newer than row `i` of the same application. */
  ghost function NewerOfSameApp(rows: seq<GcRow>, i: nat): set<nat>
    requires i < |rows|
  {
    set j: nat | j < |rows| && rows[j].appClass == rows[i].appClass && rows[j].appName == rows[i].appName
                 && (rows[j].crashedAt > rows[i].crashedAt || (rows[j].crashedAt == rows[i].crashedAt && rows[j].id > rows[i].id))
  }

  ghost function OfApp(rows: seq<GcRow>, app: (string, string)): set<nat> {
    set j: nat | j < |rows| && rows[j].appClass == app.0 && rows[j].appName == app.1
  }

  lemma OfAppExtended(rows: seq<GcRow>, app: (string, string))
    requires rows != []
    ensures var n := |rows| - 1;
            && n !in OfApp(rows[..n], app)
            && OfApp(rows, app) == OfApp(rows[..n], app) + if App(rows[n]) == app then {n} else {}
  {
  }

  lemma {:induction false} AppCountIsSize(rows: seq<GcRow>, app: (string, string))
    ensures AppCount(rows, app) == |OfApp(rows, app)|
  {
    if rows != [] {
      var n := |rows| - 1;
      AppCountIsSize(rows[..n], app);
      OfAppExtended(rows, app);
    }
  }

  lemma NewerAreListedBefore(rows: seq<GcRow>, i: nat)
    requires NewestFirst(rows) && i < |rows|
    ensures AppCount(rows[..i], App(rows[i])) == |NewerOfSameApp(rows, i)|
  {
    AppCountIsSize(rows[..i], App(rows[i]));
    forall j: nat ensures j in NewerOfSameApp(rows, i) <==> j in OfApp(rows[..i], App(rows[i])) {
      if j < |rows| && j > i {
        assert rows[i].crashedAt > rows[j].crashedAt || (rows[i].crashedAt == rows[j].crashedAt && rows[i].id > rows[j].id);
      }
    }
    assert NewerOfSameApp(rows, i) == OfApp(rows[..i], App(rows[i]));
  }

  /** A row is retired if and only if nobody reads it and it crashed longer ago than the
      age bound allows, or its application has as many newer rows as the quota keeps. */
  lemma RetiredExactly(rows: seq<GcRow>, policy: Policy, now: nat, i: nat)
    requires NewestFirst(rows) && DistinctIds(rows) && now <= U64_MAX && i < |rows|
    ensures rows[i].id in Retired(rows, policy, now) <==>
              && rows[i].refcount == 0
              && (|| (policy.maxAgeNanos != 0 && rows[i].crashedAt + policy.maxAgeNanos / 1_000_000 < now)
                  || (policy.keepLastN != 0 && |NewerOfSameApp(rows, i)| >= policy.keepLastN))
  {
    RetiredIsUnpinned(rows, policy, now, i);
    NewerAreListedBefore(rows, i);
  }

  /** Every other row is selected only because, with the retired ones gone, there were
      still too many rows or too many bytes. */
  lemma SelectedForCause(rows: seq<GcRow>, policy: Policy, now: nat, i: nat)
    requires DistinctIds(rows) && i < |rows|
    requires rows[i].id in Selected(rows, policy, now) && rows[i].id !in Retired(rows, policy, now)
    ensures var retired := Retired(rows, policy, now);
            || (policy.maxRows != 0 && |rows| - |retired| > policy.maxRows)
            || (policy.maxTotalBytes != 0 && BytesLeft(rows, retired) > policy.maxTotalBytes)
            || (policy.maxTotalBytes != 0 && BytesLeft(rows, retired) > U64_MAX)
  {
    RetiredCount(rows, policy, now);
  }

  /** Afterwards an unpinned row is within the age bound, and its application has fewer
      newer rows than the quota keeps. */
  lemma UnpinnedSurvivorIsRecent(rows: seq<GcRow>, policy: Policy, now: nat, i: nat)
    requires NewestFirst(rows) && DistinctIds(rows) && now <= U64_MAX && i < |rows|
    requires rows[i].refcount == 0 && rows[i].id !in Selected(rows, policy, now)
    ensures policy.maxAgeNanos != 0 ==> rows[i].crashedAt + policy.maxAgeNanos / 1_000_000 >= now
    ensures policy.keepLastN != 0 ==> |NewerOfSameApp(rows, i)| < policy.keepLastN
  {
    RetiredAreSelected(rows, policy, now);
    RetiredExactly(rows, policy, now, i);
  }

  /** The unpinned survivors of one application. */
  ghost function UnpinnedLeft(rows: seq<GcRow>, selected: set<int>, app: (string, string)): set<nat> {
    set i: nat | i < |rows| && rows[i].id !in selected && rows[i].refcount == 0
                 && rows[i].appClass == app.0 && rows[i].appName == app.1
  }

  function UnpinnedOf(rows: seq<GcRow>, selected: set<int>, app: (string, string)): nat {
    if rows == [] then 0
    else
      var n := |rows| - 1;
      UnpinnedOf(rows[..n], selected, app)
      + if rows[n].id !in selected && rows[n].refcount == 0 && App(rows[n]) == app then 1 else 0
  }

  lemma UnpinnedLeftExtended(rows: seq<GcRow>, selected: set<int>, app: (string, string))
    requires rows != []
    ensures var n := |rows| - 1;
            var more := rows[n].id !in selected && rows[n].refcount == 0 && App(rows[n]) == app;
            && n !in UnpinnedLeft(rows[..n], selected, app)
            && UnpinnedLeft(rows, selected, app) == UnpinnedLeft(rows[..n], selected, app) + if more then {n} else {}
  {
  }

  lemma {:induction false} UnpinnedOfIsSize(rows: seq<GcRow>, selected: set<int>, app: (string, string))
    ensures UnpinnedOf(rows, selected, app) == |UnpinnedLeft(rows, selected, app)|
  {
    if rows != [] {
      UnpinnedOfIsSize(rows[..|rows| - 1], selected, app);
      UnpinnedLeftExtended(rows, selected, app);
    }
  }

  /** At most `keepLastN` unpinned rows of each application survive. */
  lemma QuotaHolds(rows: seq<GcRow>, policy: Policy, now: nat, app: (string, string))
    requires DistinctIds(rows) && policy.keepLastN != 0
    ensures |UnpinnedLeft(rows, Selected(rows, policy, now), app)| <= policy.keepLastN
  {
    RetiredAreSelected(rows, policy, now);
    forall i | Unpinned(rows, Selected(rows, policy, now), i)
      ensures AppCount(rows[..i], App(rows[i])) < policy.keepLastN
    {
      RetiredIsUnpinned(rows, policy, now, i);
    }
    QuotaCount(rows, Selected(rows, policy, now), app, policy.keepLastN);
    UnpinnedOfIsSize(rows, Selected(rows, policy, now), app);
  }

  lemma {:induction false} QuotaCount(rows: seq<GcRow>, selected: set<int>, app: (string, string), quota: nat)
    requires forall i :: Unpinned(rows, selected, i) ==> AppCount(rows[..i], App(rows[i])) < quota
    ensures UnpinnedOf(rows, selected, app) <= quota && UnpinnedOf(rows, selected, app) <= AppCount(rows, app)
  {
    if rows != [] {
      var n := |rows| - 1;
      forall i | Unpinned(rows[..n], selected, i) ensures AppCount(rows[..n][..i], App(rows[..n][i])) < quota {
        assert Unpinned(rows, selected, i);
        assert rows[..n][..i] == rows[..i];
      }
      QuotaCount(rows[..n], selected, app, quota);
      if Unpinned(rows, selected, n) && App(rows[n]) == app {
        assert AppCount(rows[..n], app) < quota;
      }
    }
  }

  // -------------------------------------------------------------- idempotence

  lemma AppCountExtended(rows: seq<GcRow>, row: GcRow, app: (string, string))
    ensures AppCount(rows + [row], app) == AppCount(rows, app) + if App(row) == app then 1 else 0
  {
    assert (rows + [row])[..|rows|] == rows;
  }

  lemma {:induction false} SurvivorAppCount(rows: seq<GcRow>, selected: set<int>, app: (string, string))
    ensures AppCount(Survivors(rows, selected), app) <= AppCount(rows, app)
  {
    if rows != [] {
      var n := |rows| - 1;
      var s := Survivors(rows[..n], selected);
      SurvivorAppCount(rows[..n], selected, app);
      if rows[n].id in selected {
        assert Survivors(rows, selected) == s;
      } else {
        assert Survivors(rows, selected) == s + [rows[n]];
        AppCountExtended(s, rows[n], app);
      }
    }
  }

  /** A second retirement pass retires nothing. */
  lemma {:induction false} SurvivorsStay(rows: seq<GcRow>, selected: set<int>, policy: Policy, now: nat)
    requires Retired(rows, policy, now) <= selected
    ensures Retired(Survivors(rows, selected), policy, now) == {}
  {
    if rows != [] {
      var n := |rows| - 1;
      SurvivorsStay(rows[..n], selected, policy, now);
      var s := Survivors(rows[..n], selected);
      if rows[n].id !in selected {
        assert (s + [rows[n]])[..|s|] == s;
        SurvivorAppCount(rows[..n], selected, App(rows[n]));
      } else {
        assert s + [] == s;
      }
    }
  }

  lemma {:induction false} PinnedStay(rows: seq<GcRow>, k: nat, policy: Policy, rowsLeft: nat, bytesLeft: nat)
    requires k <= |rows| && forall i :: 0 <= i < k ==> rows[i].refcount != 0
    ensures Evict(rows, k, policy, {}, rowsLeft, bytesLeft) == {}
    decreases k
  {
    if k > 0 {
      PinnedStay(rows, k - 1, policy, rowsLeft, bytesLeft);
    }
  }

  ghost predicate Idempotent(rows: seq<GcRow>, policy: Policy, now: nat) {
    Selected(Survivors(rows, Selected(rows, policy, now)), policy, now) == {}
  }

  /** No unpinned row with any bytes has a newer unpinned row. */
  ghost predicate NoVictim(rows: seq<GcRow>) {
    forall i, j :: 0 <= i < j < |rows| && rows[i].refcount == 0 && rows[j].refcount == 0 ==> rows[j].bytes == 0
  }

  /** When the budget pass reports the true total, a second collection has nothing to do. */
  lemma TrueTotalMeansIdempotent(rows: seq<GcRow>, policy: Policy, now: nat)
    requires DistinctIds(rows)
    requires var out := Selected(rows, policy, now);
             AllPinned(rows, out) || !Over(policy, RowsLeft(rows, out), SaturatingAdd(0, BytesLeft(rows, out)))
    ensures Idempotent(rows, policy, now)
  {
    var retired, out := Retired(rows, policy, now), Selected(rows, policy, now);
    EvictsOldest(rows, |rows|, policy, retired, RowsLeft(rows, retired), SaturatingAdd(0, BytesLeft(rows, retired)));
    var left := Survivors(rows, out);
    SurvivorsStay(rows, out, policy, now);
    SurvivorTotals(rows, out);
    if AllPinned(rows, out) {
      SurvivorMembers(rows, out);
      forall i | 0 <= i < |left| ensures left[i].refcount != 0 {
        assert left[i] in left;
        var j :| 0 <= j < |rows| && rows[j] == left[i];
        assert !Unpinned(rows, out, j);
      }
      PinnedStay(left, |left|, policy, RowsLeft(left, {}), SaturatingAdd(0, BytesLeft(left, {})));
    }
  }

  lemma {:induction false} WeightlessEvictions(rows: seq<GcRow>, few: set<int>, many: set<int>)
    requires few <= many
    requires forall i :: 0 <= i < |rows| && rows[i].id in many && rows[i].id !in few ==> rows[i].bytes == 0
    ensures BytesLeft(rows, few) == BytesLeft(rows, many)
  {
    if rows != [] {
      WeightlessEvictions(rows[..|rows| - 1], few, many);
    }
  }

  lemma SafeRowsAreIdempotent(rows: seq<GcRow>, policy: Policy, now: nat)
    requires DistinctIds(rows) && (BytesLeft(rows, {}) <= U64_MAX || NoVictim(rows))
    ensures Idempotent(rows, policy, now)
  {
    var retired, out := Retired(rows, policy, now), Selected(rows, policy, now);
    var start := SaturatingAdd(0, BytesLeft(rows, retired));
    EvictsEnough(rows, |rows|, policy, retired, RowsLeft(rows, retired), start);
    EvictsOldest(rows, |rows|, policy, retired, RowsLeft(rows, retired), start);
    LeftShrinks(rows, {}, retired);
    LeftShrinks(rows, retired, out);
    if !AllPinned(rows, out) {
      var j :| Unpinned(rows, out, j);
      assert out == Evict(rows, |rows|, policy, retired, RowsLeft(rows, retired), start);
      assert !Over(policy, RowsLeft(rows, out), Reported(rows, retired, start, out));
      if BytesLeft(rows, {}) > U64_MAX {
        forall i | 0 <= i < |rows| && rows[i].id in out && rows[i].id !in retired ensures rows[i].bytes == 0 {
          assert Evicted(rows, retired, out, i);
        }
        WeightlessEvictions(rows, retired, out);
      }
      assert Reported(rows, retired, start, out) == SaturatingAdd(0, BytesLeft(rows, out));
    }
    TrueTotalMeansIdempotent(rows, policy, now);
  }

  lemma {:induction false} EvictsSomething(rows: seq<GcRow>, k: nat, policy: Policy, rowsLeft: nat, bytesLeft: nat, i: nat)
    requires DistinctIds(rows) && i < k <= |rows| && rows[i].refcount == 0 && Over(policy, rowsLeft, bytesLeft)
    ensures Evict(rows, k, policy, {}, rowsLeft, bytesLeft) != {}
    decreases k
  {
    var row := rows[k - 1];
    if row.refcount != 0 {
      EvictsSomething(rows, k - 1, policy, rowsLeft, bytesLeft, i);
    } else {
      EvictsOldest(rows, k - 1, policy, {row.id}, SaturatingSub(rowsLeft, 1), SaturatingSub(bytesLeft, row.bytes));
      assert {} + {row.id} == {row.id};
    }
  }

  lemma {:induction false} OldestWithBytes(rows: seq<GcRow>, k: nat, j: nat) returns (oldest: nat)
    requires j < k <= |rows| && rows[j].refcount == 0 && rows[j].bytes > 0
    requires forall i :: k <= i < |rows| && rows[i].refcount == 0 ==> rows[i].bytes == 0
    ensures j <= oldest < |rows| && rows[oldest].refcount == 0 && rows[oldest].bytes > 0
    ensures forall i :: oldest < i < |rows| && rows[i].refcount == 0 ==> rows[i].bytes == 0
    decreases k
  {
    if rows[k - 1].refcount == 0 && rows[k - 1].bytes > 0 {
      return k - 1;
    }
    oldest := OldestWithBytes(rows, k - 1, j);
  }

  /** The oldest unpinned row with bytes and all unpinned rows after it weigh as much as it. */
  lemma CutAtOldest(rows: seq<GcRow>, j: nat)
    requires DistinctIds(rows) && j < |rows| && rows[j].refcount == 0
    requires forall i :: j < i < |rows| && rows[i].refcount == 0 ==> rows[i].bytes == 0
    ensures BytesLeft(rows, Cut(rows, {}, j)) + rows[j].bytes == BytesLeft(rows, {})
  {
    SelectOne(rows, {}, j);
    var one, cut := {rows[j].id}, Cut(rows, {}, j);
    assert {} + one == one && one <= cut;
    forall i | 0 <= i < |rows| && rows[i].id in cut && rows[i].id !in one ensures rows[i].bytes == 0 {
      var k :| j <= k < |rows| && rows[k].refcount == 0 && rows[k].id == rows[i].id;
      assert k == i;
    }
    WeightlessEvictions(rows, one, cut);
  }

  /** Rows that are too heavy together and hold a victim: under some policy a second
      collection removes more. */
  lemma HeavyRowsAreNotIdempotent(rows: seq<GcRow>, now: nat) returns (policy: Policy)
    requires DistinctIds(rows) && BytesLeft(rows, {}) > U64_MAX && !NoVictim(rows)
    requires forall i :: 0 <= i < |rows| ==> rows[i].bytes <= I64_MAX
    ensures IsPolicy(policy) && !Idempotent(rows, policy, now)
  {
    var newer, victim :| 0 <= newer < victim < |rows| && rows[newer].refcount == 0 && rows[victim].refcount == 0
                         && rows[victim].bytes != 0;
    var j := OldestWithBytes(rows, |rows|, victim);
    policy := Policy(0, 0, U64_MAX - rows[j].bytes, 0);
    NothingRetired(rows, policy, now);
    CutAtOldest(rows, j);
    assert Unpinned(rows, Cut(rows, {}, j), newer);
    assert StopsShort(rows, policy, now, j);
    BudgetsFailExactly(rows, policy, now);
    IdempotentExactlyWhenHonoured(rows, policy, now);
  }

  lemma SecondPassEvicts(rows: seq<GcRow>, policy: Policy, now: nat, out: set<int>, i: nat)
    requires DistinctIds(rows) && Unpinned(rows, out, i) && Retired(rows, policy, now) <= out
    requires Over(policy, RowsLeft(rows, out), SaturatingAdd(0, BytesLeft(rows, out)))
    ensures Selected(Survivors(rows, out), policy, now) != {}
  {
    var left := Survivors(rows, out);
    SurvivorTotals(rows, out);
    SurvivorMembers(rows, out);
    SurvivorsDistinct(rows, out);
    assert rows[i] in left;
    var j :| 0 <= j < |left| && left[j] == rows[i];
    SurvivorsStay(rows, out, policy, now);
    EvictsSomething(left, |left|, policy, RowsLeft(left, {}), SaturatingAdd(0, BytesLeft(left, {})), j);
  }

  lemma {:induction false} SurvivorsDistinct(rows: seq<GcRow>, selected: set<int>)
    requires DistinctIds(rows)
    ensures DistinctIds(Survivors(rows, selected))
  {
    if rows != [] {
      var n := |rows| - 1;
      SurvivorsDistinct(rows[..n], selected);
      SurvivorMembers(rows[..n], selected);
      var s := Survivors(rows[..n], selected);
      forall i | 0 <= i < |s| ensures s[i].id != rows[n].id {
        assert s[i] in rows[..n];
      }
    }
  }

  /** Collecting twice removes nothing more, under every policy, exactly when the byte
      sizes add up within 64 bits or no unpinned row with bytes has a newer unpinned one. */
  lemma IdempotentExactly(rows: seq<GcRow>, now: nat)
    requires DistinctIds(rows) && forall i :: 0 <= i < |rows| ==> rows[i].bytes <= I64_MAX
    ensures (forall policy :: IsPolicy(policy) ==> Idempotent(rows, policy, now))
       <==> BytesLeft(rows, {}) <= U64_MAX || NoVictim(rows)
  {
    if BytesLeft(rows, {}) <= U64_MAX || NoVictim(rows) {
      forall policy | IsPolicy(policy) ensures Idempotent(rows, policy, now) {
        SafeRowsAreIdempotent(rows, policy, now);
      }
    } else {
      var policy := HeavyRowsAreNotIdempotent(rows, now);
    }
  }

  /** For one policy: a second collection removes nothing exactly when the first one
      honoured the budgets, or when the byte budget is the largest there is. */
  lemma IdempotentExactlyWhenHonoured(rows: seq<GcRow>, policy: Policy, now: nat)
    requires DistinctIds(rows) && IsPolicy(policy)
    ensures Idempotent(rows, policy, now) <==> HonoursBudgets(rows, policy, now) || policy.maxTotalBytes == U64_MAX
  {
    var out := Selected(rows, policy, now);
    if AllPinned(rows, out) || !Over(policy, RowsLeft(rows, out), SaturatingAdd(0, BytesLeft(rows, out))) {
      TrueTotalMeansIdempotent(rows, policy, now);
      RowBudgetHolds(rows, policy, now);
    } else {
      RowBudgetHolds(rows, policy, now);
      var i :| Unpinned(rows, out, i);
      var c := SelectedIsCut(rows, policy, now);
      SecondPassEvicts(rows, policy, now, out, i);
    }
  }

  /** Row counts do not saturate: their budget holds, or only pinned rows are left. */
  lemma RowBudgetHolds(rows: seq<GcRow>, policy: Policy, now: nat)
    requires DistinctIds(rows)
    ensures var out := Selected(rows, policy, now);
            AllPinned(rows, out) || policy.maxRows == 0 || RowsLeft(rows, out) <= policy.maxRows
  {
    var retired := Retired(rows, policy, now);
    var start := SaturatingAdd(0, BytesLeft(rows, retired));
    EvictsEnough(rows, |rows|, policy, retired, RowsLeft(rows, retired), start);
    var out := Selected(rows, policy, now);
    assert out == Evict(rows, |rows|, policy, retired, RowsLeft(rows, retired), start);
  }

  /** Three crash files of the largest size the database can hold, and a byte budget of
      2^63: the collection stops with twice the budget, and a second one goes on. */
  lemma SaturationBreaksBudget(now: nat)
    ensures var rows := [GcRow(3, "", "", 3, I64_MAX, 0), GcRow(2, "", "", 2, I64_MAX, 0), GcRow(1, "", "", 1, I64_MAX, 0)];
            var policy := Policy(0, 0, I64_MAX + 1, 0);
            && !HonoursBudgets(rows, policy, now) && !Idempotent(rows, policy, now)
  {
    var rows := [GcRow(3, "", "", 3, I64_MAX, 0), GcRow(2, "", "", 2, I64_MAX, 0), GcRow(1, "", "", 1, I64_MAX, 0)];
    var policy := Policy(0, 0, I64_MAX + 1, 0);
    NothingRetired(rows, policy, now);
    ThreeRows(rows, {});
    ThreeRows(rows, {1});
    assert Cut(rows, {}, 2) == {1};
    assert Unpinned(rows, {1}, 0);
    assert StopsShort(rows, policy, now, 2);
    BudgetsFailExactly(rows, policy, now);
    IdempotentExactlyWhenHonoured(rows, policy, now);
  }

  lemma ThreeRows(rows: seq<GcRow>, selected: set<int>)
    requires |rows| == 3
    ensures BytesLeft(rows, selected) == (if rows[0].id in selected then 0 else rows[0].bytes)
                                       + (if rows[1].id in selected then 0 else rows[1].bytes)
                                       + (if rows[2].id in selected then 0 else rows[2].bytes)
  {
    var two, one := rows[..2], rows[..1];
    assert two[..1] == one && one[..0] == [];
    assert BytesLeft(one, selected) == if rows[0].id in selected then 0 else rows[0].bytes;
    assert BytesLeft(two, selected) == BytesLeft(one, selected) + if rows[1].id in selected then 0 else rows[1].bytes;
  }
}
