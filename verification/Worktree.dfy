/** Reconciling the `worktree` table with a filesystem scan, one SQL statement at a time. */
module Worktree {
  import opened Wrappers
  import opened ChangeLog

  // The table is keyed by its UNIQUE column `path`; rows also carry their AUTOINCREMENT id, and
  // UPDATE and DELETE address rows by id as the program does.

  datatype Stored = Stored(id: nat, row: WorktreeRow)

  type Table = map<string, Stored>

  type View = map<string, WorktreeRow>

  /** One table write together with the log row that reports it. */
  datatype Delta = Insert(row: WorktreeRow) | Update(id: nat, row: WorktreeRow) | Remove(id: nat, path: string) {
    function Path(): string {
      if Remove? then path else row.worktree
    }
  }

  datatype Store = Store(table: Table, rowSeq: nat, log: Log) {
    ghost predicate Valid() {
      ValidTable(table, rowSeq) && log.Valid()
    }
  }

  ghost predicate ValidTable(t: Table, rowSeq: nat) {
    && (forall p | p in t :: t[p].row.worktree == p && 0 < t[p].id <= rowSeq)
    && (forall p, q | p in t && q in t && t[p].id == t[q].id :: p == q)
  }

  function ViewOf(t: Table): View {
    map p | p in t :: t[p].row
  }

  // ---- statements -------------------------------------------------------

  /** UPDATE worktree SET (every column but path) WHERE id = id. */
  function UpdateById(t: Table, id: nat, row: WorktreeRow): Table {
    map p | p in t :: if t[p].id == id then Stored(id, row.(worktree := p)) else t[p]
  }

  /** DELETE FROM worktree WHERE id = id. */
  function DeleteById(t: Table, id: nat): Table {
    map p | p in t && t[p].id != id :: t[p]
  }

  function Write(s: Store, d: Delta): Store {
    match d
    case Insert(row) => s.(table := s.table[row.worktree := Stored(s.rowSeq + 1, row)], rowSeq := s.rowSeq + 1)
    case Update(id, row) => s.(table := UpdateById(s.table, id, row))
    case Remove(id, _) => s.(table := DeleteById(s.table, id))
  }

  /** The log row for a delta that has just been written; an insert reports the id it was given. */
  function Record(s: Store, d: Delta): Store {
    match d
    case Insert(row) => s.(log := s.log.Append(Entity.Worktree, s.rowSeq, Inserted, None, Some(RowPayload(row))))
    case Update(id, row) => s.(log := s.log.Append(Entity.Worktree, id, Updated, None, Some(RowPayload(row))))
    case Remove(id, path) => s.(log := s.log.Append(Entity.Worktree, id, Deleted, None, Some(PathPayload(path))))
  }

  function Execute(s: Store, ds: seq<Delta>): Store {
    if ds == [] then s
    else
      var d := ds[|ds| - 1];
      Record(Write(Execute(s, ds[..|ds| - 1]), d), d)
  }

  // ---- what a round has to do --------------------------------------------

  function Paths(scan: seq<WorktreeRow>): set<string> {
    if scan == [] then {} else Paths(scan[..|scan| - 1]) + {scan[|scan| - 1].worktree}
  }

  lemma {:induction false} PathsAre(scan: seq<WorktreeRow>)
    ensures forall i | 0 <= i < |scan| :: scan[i].worktree in Paths(scan)
    ensures forall p | p in Paths(scan) :: exists i :: 0 <= i < |scan| && scan[i].worktree == p
  {
    if scan != [] {
      var init := scan[..|scan| - 1];
      PathsAre(init);
      forall p | p in Paths(scan) ensures exists i :: 0 <= i < |scan| && scan[i].worktree == p {
        if p in Paths(init) {
          var i :| 0 <= i < |init| && init[i].worktree == p;
          assert scan[i].worktree == p;
        } else {
          assert scan[|scan| - 1].worktree == p;
        }
      }
      forall i | 0 <= i < |scan| ensures scan[i].worktree in Paths(scan) {
        assert i < |init| ==> init[i] == scan[i];
      }
    }
  }

  ghost predicate DistinctPaths(scan: seq<WorktreeRow>) {
    forall i, j | 0 <= i < j < |scan| :: scan[i].worktree != scan[j].worktree
  }

  function ScanView(scan: seq<WorktreeRow>): View {
    if scan == [] then map[]
    else
      var last := scan[|scan| - 1];
      ScanView(scan[..|scan| - 1])[last.worktree := last]
  }

  /** What to do for a scanned row, given the rows of the old table not yet matched. */
  function DeltaFor(existing: Table, row: WorktreeRow): seq<Delta> {
    if row.worktree !in existing then [Insert(row)]
    else if existing[row.worktree].row == row then []
    else [Update(existing[row.worktree].id, row)]
  }

  function ScanDeltas(t: Table, scan: seq<WorktreeRow>): seq<Delta> {
    if scan == [] then []
    else
      var init := scan[..|scan| - 1];
      ScanDeltas(t, init) + DeltaFor(t - Paths(init), scan[|scan| - 1])
  }

  function Removals(t: Table, order: seq<string>): (ds: seq<Delta>)
    requires forall p | p in order :: p in t
    ensures |ds| == |order|
    ensures forall i | 0 <= i < |order| :: ds[i] == Remove(t[order[i]].id, order[i])
  {
    seq(|order|, i requires 0 <= i < |order| => Remove(t[order[i]].id, order[i]))
  }

  ghost predicate NoDuplicates<T>(s: seq<T>) {
    forall i, j | 0 <= i < j < |s| :: s[i] != s[j]
  }

  /** `order` visits some of the table's unscanned paths, each once. */
  ghost predicate Gone(t: Table, scan: seq<WorktreeRow>, order: seq<string>) {
    NoDuplicates(order) && forall p | p in order :: p in t && p !in Paths(scan)
  }

  /** `order` is one way in which the hash map may hand over the unscanned paths. */
  ghost predicate GoneOrder(t: Table, scan: seq<WorktreeRow>, order: seq<string>) {
    Gone(t, scan, order) && forall p | p in t && p !in Paths(scan) :: p in order
  }

  ghost function RoundDeltas(t: Table, scan: seq<WorktreeRow>, order: seq<string>): seq<Delta>
    requires Gone(t, scan, order)
  {
    ScanDeltas(t, scan) + Removals(t, order)
  }

  /** The deltas are the first of a round over as much of the scan as repeats no path. */
  ghost predicate PartOfRound(t: Table, scan: seq<WorktreeRow>, order: seq<string>, ds: seq<Delta>) {
    exists i: nat :: i <= |scan| && PartOver(t, scan[..i], order, ds)
  }

  ghost predicate PartOver(t: Table, scan: seq<WorktreeRow>, order: seq<string>, ds: seq<Delta>) {
    DistinctPaths(scan) && Gone(t, scan, order) && ds <= RoundDeltas(t, scan, order)
  }

  ghost function DifferingPaths(v: View, w: View): set<string> {
    set p | p in v.Keys + w.Keys && (p !in v || p !in w || v[p] != w[p])
  }

  // ---- deltas that fit a table ------------------------------------------

  ghost predicate FitsOne(t: Table, d: Delta) {
    match d
    case Insert(row) => row.worktree !in t
    case Update(id, row) => row.worktree in t && t[row.worktree].id == id && t[row.worktree].row != row
    case Remove(id, path) => path in t && t[path].id == id
  }

  /** Each delta does something, and no two are about the same path. */
  ghost predicate Fits(t: Table, ds: seq<Delta>) {
    && (forall i | 0 <= i < |ds| :: FitsOne(t, ds[i]))
    && (forall i, j | 0 <= i < j < |ds| :: ds[i].Path() != ds[j].Path())
  }

  ghost predicate Achieved(t: Table, rowSeq: nat, d: Delta) {
    match d
    case Insert(row) => row.worktree in t && t[row.worktree].row == row && rowSeq < t[row.worktree].id
    case Update(id, row) => row.worktree in t && t[row.worktree] == Stored(id, row)
    case Remove(_, path) => path !in t
  }

  ghost predicate SameAt(t: Table, t': Table, p: string) {
    (p in t <==> p in t') && (p in t ==> t'[p] == t[p])
  }

  lemma WriteStaysValid(s: Store, d: Delta)
    requires s.Valid() && FitsOne(s.table, d)
    ensures Write(s, d).Valid() && Write(s, d).rowSeq >= s.rowSeq && Write(s, d).log == s.log
  {
  }

  lemma WriteOne(s: Store, d: Delta)
    requires s.Valid() && FitsOne(s.table, d)
    ensures Write(s, d).Valid() && Write(s, d).rowSeq >= s.rowSeq && Write(s, d).log == s.log
    ensures Achieved(Write(s, d).table, s.rowSeq, d)
    ensures forall p | p != d.Path() :: SameAt(s.table, Write(s, d).table, p)
    ensures Write(s, d).table.Keys == if d.Remove? then s.table.Keys - {d.path} else s.table.Keys + {d.Path()}
  {
    WriteStaysValid(s, d);
  }

  /** No delta of the list is about the path. */
  ghost predicate Avoids(ds: seq<Delta>, p: string) {
    forall i | 0 <= i < |ds| :: ds[i].Path() != p
  }

  lemma ExecuteLast(s: Store, ds: seq<Delta>)
    requires ds != []
    ensures var mid, d := Execute(s, ds[..|ds| - 1]), ds[|ds| - 1];
            && Execute(s, ds).table == Write(mid, d).table && Execute(s, ds).rowSeq == Write(mid, d).rowSeq
            && (Write(mid, d).Valid() ==> Execute(s, ds).Valid())
            && (Write(mid, d).log == mid.log ==>
                  |Execute(s, ds).log.rows| == |mid.log.rows| + 1 && mid.log.rows <= Execute(s, ds).log.rows)
  {
  }

  /** The last delta still fits when its turn comes. */
  lemma LastFits(t: Table, t': Table, ds: seq<Delta>)
    requires Fits(t, ds) && ds != [] && forall p | Avoids(ds[..|ds| - 1], p) :: SameAt(t, t', p)
    ensures FitsOne(t', ds[|ds| - 1]) && Fits(t, ds[..|ds| - 1])
  {
    var d := ds[|ds| - 1];
    assert Avoids(ds[..|ds| - 1], d.Path());
    assert FitsOne(t, d) && SameAt(t, t', d.Path());
  }

  /** Executing deltas that fit touches no path they are not about, and logs one row for each. */
  lemma {:induction false} ExecuteElsewhere(s: Store, ds: seq<Delta>)
    requires s.Valid() && Fits(s.table, ds)
    ensures Execute(s, ds).Valid() && Execute(s, ds).rowSeq >= s.rowSeq
    ensures |Execute(s, ds).log.rows| == |s.log.rows| + |ds| && s.log.rows <= Execute(s, ds).log.rows
    ensures forall p | Avoids(ds, p) :: SameAt(s.table, Execute(s, ds).table, p)
  {
    if ds != [] {
      var init, d := ds[..|ds| - 1], ds[|ds| - 1];
      assert Fits(s.table, init);
      ExecuteElsewhere(s, init);
      var mid := Execute(s, init);
      LastFits(s.table, mid.table, ds);
      WriteOne(mid, d);
      ExecuteLast(s, ds);
      forall p | Avoids(ds, p) ensures SameAt(s.table, Execute(s, ds).table, p) {
        assert Avoids(init, p) && d.Path() != p;
        assert SameAt(s.table, mid.table, p) && SameAt(mid.table, Write(mid, d).table, p);
      }
    }
  }

  lemma AchievedStays(t: Table, t': Table, rowSeq: nat, d: Delta)
    requires Achieved(t, rowSeq, d) && SameAt(t, t', d.Path())
    ensures Achieved(t', rowSeq, d)
  {
  }

  lemma LastAchieves(s: Store, ds: seq<Delta>)
    requires s.Valid() && Fits(s.table, ds) && ds != []
    ensures Achieved(Execute(s, ds).table, s.rowSeq, ds[|ds| - 1])
    ensures var last, mid, after := ds[|ds| - 1].Path(), Execute(s, ds[..|ds| - 1]).table, Execute(s, ds).table;
            forall p | p != last :: SameAt(mid, after, p)
  {
    var init, d := ds[..|ds| - 1], ds[|ds| - 1];
    assert Fits(s.table, init);
    ExecuteElsewhere(s, init);
    LastFits(s.table, Execute(s, init).table, ds);
    WriteOne(Execute(s, init), d);
    ExecuteLast(s, ds);
  }

  /** Executing deltas that fit achieves each of them. */
  lemma {:induction false} ExecuteAchieves(s: Store, ds: seq<Delta>, i: nat)
    requires s.Valid() && Fits(s.table, ds) && i < |ds|
    ensures Achieved(Execute(s, ds).table, s.rowSeq, ds[i])
  {
    LastAchieves(s, ds);
    if i < |ds| - 1 {
      assert Fits(s.table, ds[..|ds| - 1]);
      ExecuteAchieves(s, ds[..|ds| - 1], i);
      assert ds[i].Path() != ds[|ds| - 1].Path();
      AchievedStays(Execute(s, ds[..|ds| - 1]).table, Execute(s, ds).table, s.rowSeq, ds[i]);
    }
  }

  // ---- rounds ------------------------------------------------------------

  lemma {:induction false} ScanViewLookup(scan: seq<WorktreeRow>)
    ensures ScanView(scan).Keys == Paths(scan)
    ensures DistinctPaths(scan) ==>
              forall i | 0 <= i < |scan| ::
                  scan[i].worktree in ScanView(scan) && ScanView(scan)[scan[i].worktree] == scan[i]
  {
    if scan != [] {
      ScanViewLookup(scan[..|scan| - 1]);
    }
  }

  ghost predicate Unchanged(t: Table, row: WorktreeRow) {
    row.worktree in t && t[row.worktree].row == row
  }

  ghost predicate HasDeltaAt(ds: seq<Delta>, p: string) {
    exists i :: 0 <= i < |ds| && ds[i].Path() == p
  }

  /** The deltas for the scanned rows fit the table and are about scanned rows only. */
  lemma {:induction false} ScanDeltasFit(t: Table, rowSeq: nat, scan: seq<WorktreeRow>)
    requires ValidTable(t, rowSeq) && DistinctPaths(scan)
    ensures Fits(t, ScanDeltas(t, scan))
    ensures forall d | d in ScanDeltas(t, scan) :: !d.Remove? && d.row in scan
  {
    if scan != [] {
      var init, last := scan[..|scan| - 1], scan[|scan| - 1];
      ScanDeltasFit(t, rowSeq, init);
      var ds, more := ScanDeltas(t, init), DeltaFor(t - Paths(init), last);
      PathsAre(init);
      forall i | 0 <= i < |ds| ensures ds[i].Path() != last.worktree {
        assert ds[i] in ds;
      }
    }
  }

  /** Every scanned row that the table does not already hold gets a delta. */
  lemma {:induction false} ScanDeltasCover(t: Table, scan: seq<WorktreeRow>, k: nat)
    requires DistinctPaths(scan) && k < |scan| && !Unchanged(t, scan[k])
    ensures HasDeltaAt(ScanDeltas(t, scan), scan[k].worktree)
  {
    var init, last := scan[..|scan| - 1], scan[|scan| - 1];
    var ds, more := ScanDeltas(t, init), DeltaFor(t - Paths(init), last);
    if k < |init| {
      ScanDeltasCover(t, init, k);
      var m :| 0 <= m < |ds| && ds[m].Path() == scan[k].worktree;
      assert (ds + more)[m].Path() == scan[k].worktree;
    } else {
      PathsAre(init);
      assert (ds + more)[|ds|].Path() == last.worktree;
    }
  }

  lemma {:induction false} DistinctCount<T>(s: seq<T>, xs: set<T>)
    requires NoDuplicates(s) && forall x :: x in xs <==> x in s
    ensures |s| == |xs|
  {
    if s == [] {
      assert xs == {};
    } else {
      var last := s[|s| - 1];
      DistinctCount(s[..|s| - 1], xs - {last});
    }
  }

  ghost predicate DiffersAt(t: Table, scan: seq<WorktreeRow>, p: string) {
    p in DifferingPaths(ViewOf(t), ScanView(scan))
  }

  /** A round's deltas, complete or not, fit the table and are about paths that differ. */
  lemma RoundFits(t: Table, rowSeq: nat, scan: seq<WorktreeRow>, order: seq<string>)
    requires ValidTable(t, rowSeq) && DistinctPaths(scan) && Gone(t, scan, order)
    ensures Fits(t, RoundDeltas(t, scan, order))
    ensures forall i | 0 <= i < |RoundDeltas(t, scan, order)| :: DeltaDue(t, scan, RoundDeltas(t, scan, order)[i])
  {
    ScanDeltasFit(t, rowSeq, scan);
    ScanViewLookup(scan);
    var fromScan, rs, ds := ScanDeltas(t, scan), Removals(t, order), RoundDeltas(t, scan, order);
    forall i, j | 0 <= i < |fromScan| && 0 <= j < |rs| ensures fromScan[i].Path() != rs[j].Path() {
      assert fromScan[i] in fromScan;
      PathsAre(scan);
    }
    forall i | 0 <= i < |ds| ensures DeltaDue(t, scan, ds[i]) {
      if i < |fromScan| {
        assert ds[i] in fromScan && FitsOne(t, ds[i]);
        var k :| 0 <= k < |scan| && scan[k] == ds[i].row;
      }
    }
  }

  /** The delta brings its path from what the table holds to what the scan found, and the two differ. */
  ghost predicate DeltaDue(t: Table, scan: seq<WorktreeRow>, d: Delta) {
    && DiffersAt(t, scan, d.Path())
    && (d.Path() in ScanView(scan) <==> !d.Remove?)
    && (!d.Remove? ==> ScanView(scan)[d.Path()] == d.row)
  }

  lemma RoundCovers(t: Table, rowSeq: nat, scan: seq<WorktreeRow>, order: seq<string>)
    requires ValidTable(t, rowSeq) && DistinctPaths(scan) && GoneOrder(t, scan, order)
    ensures forall p :: DiffersAt(t, scan, p) <==> HasDeltaAt(RoundDeltas(t, scan, order), p)
  {
    RoundFits(t, rowSeq, scan, order);
    forall p | DiffersAt(t, scan, p) ensures HasDeltaAt(RoundDeltas(t, scan, order), p) {
      DifferingHasDelta(t, rowSeq, scan, order, p);
    }
    forall p | HasDeltaAt(RoundDeltas(t, scan, order), p) ensures DiffersAt(t, scan, p) {
      var i :| 0 <= i < |RoundDeltas(t, scan, order)| && RoundDeltas(t, scan, order)[i].Path() == p;
      assert DeltaDue(t, scan, RoundDeltas(t, scan, order)[i]);
    }
  }

  lemma DifferingHasDelta(t: Table, rowSeq: nat, scan: seq<WorktreeRow>, order: seq<string>, p: string)
    requires ValidTable(t, rowSeq) && DistinctPaths(scan) && GoneOrder(t, scan, order)
    requires DiffersAt(t, scan, p)
    ensures HasDeltaAt(RoundDeltas(t, scan, order), p)
  {
    ScanViewLookup(scan);
    var fromScan, ds := ScanDeltas(t, scan), RoundDeltas(t, scan, order);
    if p in Paths(scan) {
      PathsAre(scan);
      var k :| 0 <= k < |scan| && scan[k].worktree == p;
      assert ScanView(scan)[p] == scan[k];
      ScanDeltasCover(t, scan, k);
      var m :| 0 <= m < |fromScan| && fromScan[m].Path() == p;
      assert ds[m].Path() == p;
    } else {
      var k :| 0 <= k < |order| && order[k] == p;
      assert ds[|fromScan| + k].Path() == p;
    }
  }

  /** A round has one delta for each path on which the table and the scan differ. */
  lemma RoundCount(t: Table, rowSeq: nat, scan: seq<WorktreeRow>, order: seq<string>)
    requires ValidTable(t, rowSeq) && DistinctPaths(scan) && GoneOrder(t, scan, order)
    ensures |RoundDeltas(t, scan, order)| == |DifferingPaths(ViewOf(t), ScanView(scan))|
  {
    RoundFits(t, rowSeq, scan, order);
    RoundCovers(t, rowSeq, scan, order);
    var ds := RoundDeltas(t, scan, order);
    var paths := seq(|ds|, i requires 0 <= i < |ds| => ds[i].Path());
    var differing := DifferingPaths(ViewOf(t), ScanView(scan));
    forall p ensures p in differing <==> p in paths {
      assert p in differing <==> DiffersAt(t, scan, p);
      if i :| 0 <= i < |ds| && ds[i].Path() == p {
        assert paths[i] == p;
      }
    }
    DistinctCount(paths, differing);
  }

  ghost predicate ReconciledAt(s: Store, s': Store, scan: seq<WorktreeRow>, p: string) {
    && (p in s'.table <==> p in ScanView(scan))
    && (p in s'.table ==> s'.table[p].row == ScanView(scan)[p])
    && (p in s'.table && p in s.table ==> s'.table[p].id == s.table[p].id)
    && (p in s'.table && p !in s.table ==> s'.table[p].id > s.rowSeq)
  }

  lemma RoundAt(s: Store, scan: seq<WorktreeRow>, order: seq<string>, s': Store, p: string)
    requires s.Valid() && DistinctPaths(scan) && GoneOrder(s.table, scan, order)
    requires s' == Execute(s, RoundDeltas(s.table, scan, order))
    ensures ReconciledAt(s, s', scan, p)
  {
    var ds := RoundDeltas(s.table, scan, order);
    RoundFits(s.table, s.rowSeq, scan, order);
    RoundCovers(s.table, s.rowSeq, scan, order);
    ExecuteElsewhere(s, ds);
    if HasDeltaAt(ds, p) {
      var i :| 0 <= i < |ds| && ds[i].Path() == p;
      ExecuteAchieves(s, ds, i);
      assert FitsOne(s.table, ds[i]) && DeltaDue(s.table, scan, ds[i]);
    } else {
      assert !DiffersAt(s.table, scan, p);
      assert Avoids(ds, p);
      assert SameAt(s.table, s'.table, p);
    }
  }

  /**
   * A completed round makes the table equal to the scan, keeps the id of every path that stays,
   * gives every new path an id never used before, and logs one row for each differing path.
   */
  lemma RoundReconciles(s: Store, scan: seq<WorktreeRow>, order: seq<string>, s': Store)
    requires s.Valid() && DistinctPaths(scan) && GoneOrder(s.table, scan, order)
    requires s' == Execute(s, RoundDeltas(s.table, scan, order))
    ensures s'.Valid() && ViewOf(s'.table) == ScanView(scan)
    ensures forall p | p in s.table && p in s'.table :: s'.table[p].id == s.table[p].id
    ensures forall p | p !in s.table && p in s'.table :: s'.table[p].id > s.rowSeq
    ensures s.log.rows <= s'.log.rows
    ensures |s'.log.rows| - |s.log.rows| == |DifferingPaths(ViewOf(s.table), ScanView(scan))|
  {
    RoundFits(s.table, s.rowSeq, scan, order);
    RoundCount(s.table, s.rowSeq, scan, order);
    ExecuteElsewhere(s, RoundDeltas(s.table, scan, order));
    forall p ensures ReconciledAt(s, s', scan, p) {
      RoundAt(s, scan, order, s', p);
    }
    ReconciledEverywhere(s, s', scan);
  }

  lemma ReconciledEverywhere(s: Store, s': Store, scan: seq<WorktreeRow>)
    requires forall p :: ReconciledAt(s, s', scan, p)
    ensures ViewOf(s'.table) == ScanView(scan)
    ensures forall p | p in s.table && p in s'.table :: s'.table[p].id == s.table[p].id
    ensures forall p | p !in s.table && p in s'.table :: s'.table[p].id > s.rowSeq
  {
    forall p ensures p in ViewOf(s'.table) <==> p in ScanView(scan) {
      assert ReconciledAt(s, s', scan, p);
    }
    forall p | p in ScanView(scan) ensures ViewOf(s'.table)[p] == ScanView(scan)[p] {
      assert ReconciledAt(s, s', scan, p);
    }
    forall p | p in s'.table
      ensures p in s.table ==> s'.table[p].id == s.table[p].id
      ensures p !in s.table ==> s'.table[p].id > s.rowSeq
    {
      assert ReconciledAt(s, s', scan, p);
    }
  }

  /** Scanning again without a change on disk writes nothing. */
  lemma SecondRoundIsQuiet(s: Store, scan: seq<WorktreeRow>, order: seq<string>, s': Store, order': seq<string>)
    requires s.Valid() && DistinctPaths(scan) && GoneOrder(s.table, scan, order)
    requires s' == Execute(s, RoundDeltas(s.table, scan, order)) && GoneOrder(s'.table, scan, order')
    ensures RoundDeltas(s'.table, scan, order') == []
  {
    RoundReconciles(s, scan, order, s');
    RoundCount(s'.table, s'.rowSeq, scan, order');
    assert DifferingPaths(ViewOf(s'.table), ScanView(scan)) == {};
  }

  // ---- the imperative round ------------------------------------------------

  datatype SyncError = StatementFailed | UniqueViolation

  /** The connection on which a round runs. It is not a transaction: each statement stays. */
  class WorktreeDb {
    var table: Table
    var rowSeq: nat
    var log: Log

    ghost predicate Valid() reads this {
      ValidTable(table, rowSeq) && log.Valid()
    }

    function State(): Store reads this {
      Store(table, rowSeq, log)
    }

    /** Writes one delta and then logs it; `torn` says that the write stood but the log row failed. */
    method Apply(d: Delta, writeOk: bool, logOk: bool) returns (r: Result<(), SyncError>, torn: bool)
      modifies this
      ensures r.Ok? ==> !torn && State() == Record(Write(old(State()), d), d)
      ensures r.Err? ==> State() == if torn then Write(old(State()), d) else old(State())
      ensures r == Err(UniqueViolation) <==> writeOk && d.Insert? && d.row.worktree in old(table)
      ensures r.Ok? <==> writeOk && logOk && !(d.Insert? && d.row.worktree in old(table))
      ensures torn <==> writeOk && !logOk && r != Err(UniqueViolation)
    {
      if !writeOk {
        return Err(StatementFailed), false;
      }
      var id;
      match d {
        case Insert(row) =>
          if row.worktree in table {
            return Err(UniqueViolation), false;
          }
          rowSeq := rowSeq + 1;
          id := rowSeq;
          table := table[row.worktree := Stored(id, row)];
        case Update(known, row) =>
          id := known;
          table := UpdateById(table, id, row);
        case Remove(known, _) =>
          id := known;
          table := DeleteById(table, id);
      }
      if !logOk {
        return Err(StatementFailed), true;
      }
      var event := if d.Insert? then Inserted else if d.Update? then Updated else Deleted;
      var payload := if d.Remove? then PathPayload(d.path) else RowPayload(d.row);
      log := log.Append(Entity.Worktree, id, event, None, Some(payload));
      return Ok(()), false;
    }

    /** One scanned row: nothing if it is unchanged, otherwise its delta. */
    method MergeRow(existing: Table, row: WorktreeRow, writeOk: bool, logOk: bool)
      returns (r: Result<nat, SyncError>, torn: bool)
      modifies this
      ensures RowOutcome(old(State()), State(), existing, row, writeOk && logOk, r, torn)
    {
      if row.worktree in existing && existing[row.worktree].row == row {
        return Ok(0), false;
      }
      var d := if row.worktree in existing then Update(existing[row.worktree].id, row) else Insert(row);
      assert DeltaFor(existing, row) == [d];
      var applied;
      applied, torn := Apply(d, writeOk, logOk);
      ExecuteOne(old(State()), d);
      r := if applied.Ok? then Ok(1) else Err(applied.error);
    }

    /** The loop over the scanned rows; the rest of `existing` was not seen. */
    method MergeScanned(scan: seq<WorktreeRow>, fault: Option<nat>)
      returns (r: Result<nat, SyncError>, existing: Table, seen: set<string>,
               ghost done: seq<Delta>, ghost torn: Option<Delta>)
      requires Valid()
      modifies this
      ensures ScanOutcome(old(State()), State(), scan, fault.None?, r, existing, seen, done, torn)
    {
      ghost var before := State();
      var deltas := 0;
      existing, seen, done, torn := table, {}, [], None;
      for i := 0 to |scan|
        invariant Merged(before, State(), scan, i, existing, done)
        invariant seen == Paths(scan[..i]) && deltas == |done| && torn == None
      {
        ghost var mid := State();
        ScanStep(before.table, scan, i);
        seen := seen + {scan[i].worktree};
        var statement := 2 + 2 * deltas;
        var merged, half := MergeRow(existing, scan[i], fault != Some(statement), fault != Some(statement + 1));
        if merged.Err? {
          torn := if half then Some(DeltaFor(existing, scan[i])[0]) else None;
          r := Err(merged.error);
          MergeFails(before, mid, State(), scan, i, existing, done, fault.None?, merged, half, seen);
          return;
        }
        MergeStep(before, mid, scan, i, existing, done);
        deltas, done := deltas + merged.value, done + DeltaFor(existing, scan[i]);
        existing := existing - {scan[i].worktree};
      }
      r := Ok(deltas);
      MergeEnds(before, State(), scan, existing, done, fault.None?);
    }

    /** The loop over the rows that were not seen, in the hash map's order. */
    method DeleteGone(scan: seq<WorktreeRow>, unseen: Table, seen: set<string>, counted: nat, fault: Option<nat>,
                      ghost before: Store, ghost merged: seq<Delta>)
      returns (r: Result<nat, SyncError>, ghost done: seq<Delta>, ghost torn: Option<Delta>, ghost order: seq<string>)
      requires Deleting(before, State(), scan, unseen, [], merged)
      requires seen == Paths(scan) && counted == |merged|
      modifies this
      ensures Valid() && State() == Reached(before, done, torn)
      ensures Gone(before.table, scan, order)
      ensures done + Pending(torn) <= RoundDeltas(before.table, scan, order)
      ensures r.Ok? ==> torn == None && r.value == |done| && GoneOrder(before.table, scan, order)
      ensures r.Ok? ==> done == RoundDeltas(before.table, scan, order)
      ensures fault.None? ==> r.Ok?
    {
      var existing, deltas := unseen, counted;
      done, torn, order := merged, None, [];
      while existing != map[]
        invariant Deleting(before, State(), scan, existing, order, done) && deltas == |done| && torn == None
        decreases |existing|
      {
        var path :| path in existing;
        var id := existing[path].id;
        ghost var mid, was := State(), existing;
        existing := existing - {path};
        if path in seen {
          assert false;
          continue;
        }
        DeleteFits(before, mid, scan, was, order, done, path);
        var statement := 2 + 2 * deltas;
        var applied, half := Apply(Remove(id, path), fault != Some(statement), fault != Some(statement + 1));
        if applied.Err? {
          if half {
            torn, order := Some(Remove(id, path)), order + [path];
          }
          return Err(applied.error), done, torn, order;
        }
        DeleteStep(before, mid, scan, was, order, done, path);
        deltas, done, order := deltas + 1, done + [Remove(id, path)], order + [path];
      }
      r := Ok(deltas);
    }

    /**
     * One scan-and-reconcile round. `fault` is the number of the first statement that SQLite
     * refuses, if any; statement 0 loads the table and statement 1 gets a connection.
     *
     * `done` are the deltas whose log row was written, `torn` the one, if any, whose table write
     * was not followed by its log row, and `order` the order in which unscanned paths came up.
     */
    method SyncOnce(scan: seq<WorktreeRow>, fault: Option<nat>)
      returns (r: Result<nat, SyncError>, ghost done: seq<Delta>, ghost torn: Option<Delta>, ghost order: seq<string>)
      requires Valid()
      modifies this
      ensures Valid() && State() == Reached(old(State()), done, torn)
      ensures Gone(old(table), scan, order)
      ensures done + Pending(torn) <= RoundDeltas(old(table), scan, order)
      ensures r.Ok? ==> torn == None && r.value == |done| && GoneOrder(old(table), scan, order)
      ensures r.Ok? ==> done == RoundDeltas(old(table), scan, order)
      ensures fault.None? ==> torn == None && (r.Ok? <==> DistinctPaths(scan))
      ensures RoundOutcome(old(State()), State(), scan, r, done, torn, order)
    {
      if fault == Some(0) || fault == Some(1) {
        assert PartOver(State().table, scan[..0], [], []);
        return Err(StatementFailed), [], None, [];
      }
      ghost var before := State();
      var existing, seen;
      r, existing, seen, done, torn := MergeScanned(scan, fault);
      order := [];
      if r.Ok? {
        assert Removals(before.table, []) == [];
        r, done, torn, order := DeleteGone(scan, existing, seen, r.value, fault, before, done);
        assert scan[..|scan|] == scan && PartOver(before.table, scan[..|scan|], order, done + Pending(torn));
      }
    }
  }

  /** What became of a round. */
  ghost predicate RoundOutcome(before: Store, after: Store, scan: seq<WorktreeRow>, r: Result<nat, SyncError>,
                               done: seq<Delta>, torn: Option<Delta>, order: seq<string>)
  {
    && after == Reached(before, done, torn)
    && PartOfRound(before.table, scan, order, done + Pending(torn))
    && (r.Ok? ==> torn == None && DistinctPaths(scan) && GoneOrder(before.table, scan, order)
                  && done == RoundDeltas(before.table, scan, order))
  }

  /**
   * What became of one scanned row. `fine` says that SQLite refused nothing, `torn` that the row's
   * delta is in the table but not in the log.
   */
  ghost predicate RowOutcome(was: Store, s: Store, existing: Table, row: WorktreeRow, fine: bool,
                             r: Result<nat, SyncError>, torn: bool) {
    var due := DeltaFor(existing, row);
    && (r.Ok? ==> !torn && r.value == |due| && s == Execute(was, due))
    && (torn ==> |due| == 1)
    && (r.Err? ==> s == if torn then Write(was, due[0]) else was)
    && (r.Ok? || torn ==> row.worktree in existing || row.worktree !in was.table)
    && (r == Err(UniqueViolation) ==> row.worktree !in existing && row.worktree in was.table && !torn)
    && (fine ==> (r.Ok? || r == Err(UniqueViolation)) && !torn)
  }

  /**
   * What became of the scanned rows: the deltas in `done` are written and logged and `torn`, if any,
   * is written only. If nothing fails they are all due deltas; with no fault, only a path that the
   * scan repeats fails.
   */
  ghost predicate ScanOutcome(before: Store, s: Store, scan: seq<WorktreeRow>, fine: bool, r: Result<nat, SyncError>,
                              existing: Table, seen: set<string>, done: seq<Delta>, torn: Option<Delta>)
  {
    && s.Valid() && s == Reached(before, done, torn)
    && done + Pending(torn) <= ScanDeltas(before.table, scan)
    && PartOfRound(before.table, scan, [], done + Pending(torn))
    && (r.Ok? ==> torn == None && r.value == |done| && done == ScanDeltas(before.table, scan) && DistinctPaths(scan))
    && (r.Ok? ==> seen == Paths(scan) && existing == before.table - seen && Agrees(existing, s.table))
    && (fine && r.Err? ==> torn == None && !DistinctPaths(scan))
  }

  lemma MergeFails(before: Store, mid: Store, s: Store, scan: seq<WorktreeRow>, i: nat, existing: Table,
                   done: seq<Delta>, fine: bool, merged: Result<nat, SyncError>, half: bool, seen: set<string>)
    requires Merged(before, mid, scan, i, existing, done) && i < |scan|
    requires merged.Err? && exists ok: bool :: (fine ==> ok) && RowOutcome(mid, s, existing, scan[i], ok, merged, half)
    ensures half ==> |DeltaFor(existing, scan[i])| == 1
    ensures ScanOutcome(before, s, scan, fine, Err(merged.error), existing, seen, done,
                        if half then Some(DeltaFor(existing, scan[i])[0]) else None)
  {
    PrefixOfScan(before.table, scan, i);
    MergedPart(before, mid, scan, i, existing, done);
    if half {
      MergeTorn(before, mid, scan, i, existing, done);
    } else {
      assert done + [] == done;
      if merged.error == UniqueViolation {
        Repeated(scan, i);
      }
    }
  }

  lemma MergeEnds(before: Store, s: Store, scan: seq<WorktreeRow>, existing: Table, done: seq<Delta>, fine: bool)
    requires Merged(before, s, scan, |scan|, existing, done)
    ensures ScanOutcome(before, s, scan, fine, Ok(|done|), existing, Paths(scan[..|scan|]), done, None)
  {
    assert scan[..|scan|] == scan && done + [] == done;
    MergedPart(before, s, scan, |scan|, existing, done);
  }

  /** The state of the second loop once the paths in `order` are gone. */
  ghost predicate Deleting(before: Store, s: Store, scan: seq<WorktreeRow>, existing: Table, order: seq<string>,
                           done: seq<Delta>) {
    && s.Valid() && s == Execute(before, done)
    && Gone(before.table, scan, order) && done == RoundDeltas(before.table, scan, order)
    && Agrees(existing, before.table) && Agrees(existing, s.table)
    && (forall p | p in existing :: p !in Paths(scan) && p !in order)
    && (forall p | p in before.table && p !in Paths(scan) :: p in existing || p in order)
  }

  lemma DeleteFits(before: Store, s: Store, scan: seq<WorktreeRow>, existing: Table, order: seq<string>,
                   done: seq<Delta>, path: string)
    requires Deleting(before, s, scan, existing, order, done) && path in existing
    ensures Gone(before.table, scan, order + [path])
    ensures RoundDeltas(before.table, scan, order + [path]) == done + [Remove(existing[path].id, path)]
    ensures Write(s, Remove(existing[path].id, path)).Valid()
  {
    var d := Remove(existing[path].id, path);
    assert Removals(before.table, order + [path]) == Removals(before.table, order) + [d];
    WriteOne(s, d);
  }

  lemma DeleteStep(before: Store, s: Store, scan: seq<WorktreeRow>, existing: Table, order: seq<string>,
                   done: seq<Delta>, path: string)
    requires Deleting(before, s, scan, existing, order, done) && path in existing
    ensures var d := Remove(existing[path].id, path);
            Deleting(before, Record(Write(s, d), d), scan, existing - {path}, order + [path], done + [d])
  {
    var d := Remove(existing[path].id, path);
    DeleteFits(before, s, scan, existing, order, done, path);
    WriteOne(s, d);
    ExecuteOne(s, d);
    ExecuteAppend(before, done, [d]);
  }

  /** The state of the first loop after `i` scanned rows. */
  ghost predicate Merged(before: Store, s: Store, scan: seq<WorktreeRow>, i: nat, existing: Table, done: seq<Delta>) {
    && i <= |scan|
    && s.Valid() && s == Execute(before, done)
    && existing == before.table - Paths(scan[..i])
    && s.table.Keys == before.table.Keys + Paths(scan[..i])
    && Agrees(existing, s.table)
    && done == ScanDeltas(before.table, scan[..i])
    && DistinctPaths(scan[..i])
  }

  lemma DueFits(existing: Table, t: Table, row: WorktreeRow)
    requires Agrees(existing, t) && (row.worktree in existing || row.worktree !in t)
    ensures forall d | d in DeltaFor(existing, row) :: FitsOne(t, d)
  {
  }

  lemma MergeFits(before: Store, s: Store, scan: seq<WorktreeRow>, i: nat, existing: Table, done: seq<Delta>)
    requires Merged(before, s, scan, i, existing, done) && i < |scan|
    requires scan[i].worktree in existing || scan[i].worktree !in s.table
    ensures scan[i].worktree !in Paths(scan[..i])
    ensures ScanDeltas(before.table, scan[..i + 1]) == done + DeltaFor(existing, scan[i])
    ensures done + DeltaFor(existing, scan[i]) <= ScanDeltas(before.table, scan)
  {
    ScanStep(before.table, scan, i);
  }

  lemma MergeTable(s: Store, existing: Table, row: WorktreeRow)
    requires s.Valid() && Agrees(existing, s.table)
    requires row.worktree in existing || row.worktree !in s.table
    ensures var s' := Execute(s, DeltaFor(existing, row));
            s'.Valid() && s'.table.Keys == s.table.Keys + {row.worktree} && Agrees(existing - {row.worktree}, s'.table)
  {
    var due := DeltaFor(existing, row);
    if due != [] {
      assert due == [due[0]];
      WriteOne(s, due[0]);
      ExecuteOne(s, due[0]);
    }
  }

  lemma MergeStep(before: Store, s: Store, scan: seq<WorktreeRow>, i: nat, existing: Table, done: seq<Delta>)
    requires Merged(before, s, scan, i, existing, done) && i < |scan|
    requires scan[i].worktree in existing || scan[i].worktree !in s.table
    ensures Merged(before, Execute(s, DeltaFor(existing, scan[i])), scan, i + 1,
                   existing - {scan[i].worktree}, done + DeltaFor(existing, scan[i]))
  {
    MergeFits(before, s, scan, i, existing, done);
    ScanStep(before.table, scan, i);
    StillDistinct(scan, i);
    ExecuteAppend(before, done, DeltaFor(existing, scan[i]));
    MinusMore(before.table, Paths(scan[..i]), scan[i].worktree);
    MergeTable(s, existing, scan[i]);
  }

  lemma MergedPart(before: Store, s: Store, scan: seq<WorktreeRow>, i: nat, existing: Table, done: seq<Delta>)
    requires Merged(before, s, scan, i, existing, done)
    ensures PartOfRound(before.table, scan, [], done)
  {
    assert RoundDeltas(before.table, scan[..i], []) == done;
    assert PartOver(before.table, scan[..i], [], done);
  }

  lemma MergeTorn(before: Store, s: Store, scan: seq<WorktreeRow>, i: nat, existing: Table, done: seq<Delta>)
    requires Merged(before, s, scan, i, existing, done) && i < |scan|
    requires scan[i].worktree in existing || scan[i].worktree !in s.table
    requires |DeltaFor(existing, scan[i])| == 1
    ensures var d := DeltaFor(existing, scan[i])[0];
            && Write(s, d).Valid() && Write(s, d) == Reached(before, done, Some(d))
            && done + Pending(Some(d)) <= ScanDeltas(before.table, scan)
            && PartOfRound(before.table, scan, [], done + Pending(Some(d)))
  {
    var due := DeltaFor(existing, scan[i]);
    assert due == [due[0]] && due[0] in due;
    MergeFits(before, s, scan, i, existing, done);
    StillDistinct(scan, i);
    assert RoundDeltas(before.table, scan[..i + 1], []) == done + due;
    assert PartOver(before.table, scan[..i + 1], [], done + due);
    DueFits(existing, s.table, scan[i]);
    WriteOne(s, due[0]);
  }

  lemma ExecuteOne(s: Store, d: Delta)
    ensures Execute(s, [d]) == Record(Write(s, d), d)
  {
    assert Execute(s, [d][..0]) == s;
  }

  /** The store after whole deltas and, perhaps, the table write alone of one more. */
  ghost function Reached(s: Store, done: seq<Delta>, torn: Option<Delta>): Store {
    if torn.Some? then Write(Execute(s, done), torn.value) else Execute(s, done)
  }

  ghost function Pending(torn: Option<Delta>): seq<Delta> {
    if torn.Some? then [torn.value] else []
  }

  lemma MinusMore(t: Table, ps: set<string>, p: string)
    ensures (t - ps) - {p} == t - (ps + {p})
  {
  }

  ghost predicate Agrees(existing: Table, t: Table) {
    forall p | p in existing :: p in t && t[p] == existing[p]
  }

  lemma ExecuteAppend(s: Store, ds: seq<Delta>, due: seq<Delta>)
    requires |due| <= 1
    ensures Execute(s, ds + due) == Execute(Execute(s, ds), due)
  {
    if due == [] {
      assert ds + due == ds;
    } else {
      assert (ds + due)[..|ds|] == ds;
      assert Execute(Execute(s, ds), due[..0]) == Execute(s, ds);
    }
  }

  lemma ScanStep(t: Table, scan: seq<WorktreeRow>, i: nat)
    requires i < |scan|
    ensures ScanDeltas(t, scan[..i + 1]) == ScanDeltas(t, scan[..i]) + DeltaFor(t - Paths(scan[..i]), scan[i])
    ensures ScanDeltas(t, scan[..i + 1]) <= ScanDeltas(t, scan)
    ensures Paths(scan[..i + 1]) == Paths(scan[..i]) + {scan[i].worktree}
  {
    assert scan[..i + 1][..i] == scan[..i];
    PrefixOfScan(t, scan, i + 1);
  }

  lemma StillDistinct(scan: seq<WorktreeRow>, i: nat)
    requires i < |scan| && DistinctPaths(scan[..i]) && scan[i].worktree !in Paths(scan[..i])
    ensures DistinctPaths(scan[..i + 1])
  {
    PathsAre(scan[..i]);
    forall k | 0 <= k < i ensures scan[k].worktree != scan[i].worktree {
      assert scan[..i][k] == scan[k];
    }
  }

  lemma Repeated(scan: seq<WorktreeRow>, i: nat)
    requires i < |scan| && scan[i].worktree in Paths(scan[..i])
    ensures !DistinctPaths(scan)
  {
    PathsAre(scan[..i]);
    var k :| 0 <= k < i && scan[..i][k].worktree == scan[i].worktree;
    assert scan[k].worktree == scan[i].worktree;
  }

  lemma {:induction false} PrefixOfScan(t: Table, scan: seq<WorktreeRow>, n: nat)
    requires n <= |scan|
    ensures ScanDeltas(t, scan[..n]) <= ScanDeltas(t, scan)
    decreases |scan| - n
  {
    if n < |scan| {
      assert scan[..n + 1][..n] == scan[..n];
      PrefixOfScan(t, scan, n + 1);
    } else {
      assert scan[..n] == scan;
    }
  }
}
