/** What a client makes of worktree log rows: it keeps a copy of the table by applying them in order. */
module Replica {
  import opened Wrappers
  import opened ChangeLog
  import opened Worktree

  /** The path a log row is about and what is now there, if the row is about a worktree. */
  function Effect(r: LogRow): Option<(string, Option<WorktreeRow>)> {
    match (r.entity, r.event, r.payload)
    case (Worktree, Deleted, Some(PathPayload(path))) => Some((path, None))
    case (Worktree, Inserted, Some(RowPayload(row))) => Some((row.worktree, Some(row)))
    case (Worktree, Updated, Some(RowPayload(row))) => Some((row.worktree, Some(row)))
    case _ => None
  }

  function ApplyRow(v: View, r: LogRow): View {
    match Effect(r)
    case None => v
    case Some((path, None)) => v - {path}
    case Some((path, Some(row))) => v[path := row]
  }

  function Apply(v: View, rows: seq<LogRow>): View {
    if rows == [] then v else ApplyRow(Apply(v, rows[..|rows| - 1]), rows[|rows| - 1])
  }

  function Replay(rows: seq<LogRow>): View {
    Apply(map[], rows)
  }

  function At(v: View, p: string): Option<WorktreeRow> {
    if p in v then Some(v[p]) else None
  }

  ghost predicate TouchedBy(r: LogRow, p: string) {
    Effect(r).Some? && Effect(r).value.0 == p
  }

  ghost predicate Touched(rows: seq<LogRow>, p: string) {
    exists i :: 0 <= i < |rows| && TouchedBy(rows[i], p)
  }

  lemma {:induction false} ApplyConcat(v: View, a: seq<LogRow>, b: seq<LogRow>)
    ensures Apply(v, a + b) == Apply(Apply(v, a), b)
  {
    if b == [] {
      assert a + b == a;
    } else {
      var init := b[..|b| - 1];
      ApplyConcat(v, a, init);
      assert (a + b)[..|a + b| - 1] == a + init;
    }
  }

  /**
   * At a path some row touches, where one starts from does not matter; at any other path the
   * starting value stays. So applying rows that a snapshot already reflects does no lasting harm.
   */
  lemma {:induction false} ApplyAt(v: View, w: View, rows: seq<LogRow>, p: string)
    ensures Touched(rows, p) ==> At(Apply(v, rows), p) == At(Apply(w, rows), p)
    ensures !Touched(rows, p) ==> At(Apply(v, rows), p) == At(v, p)
  {
    if rows != [] {
      var init, last := rows[..|rows| - 1], rows[|rows| - 1];
      ApplyAt(v, w, init, p);
      if TouchedBy(last, p) {
        assert Touched(rows, p);
      } else {
        assert Touched(init, p) <==> Touched(rows, p) by {
          forall i | 0 <= i < |init| ensures init[i] == rows[i] {}
          if Touched(init, p) {
            var i :| 0 <= i < |init| && TouchedBy(init[i], p);
            assert TouchedBy(rows[i], p);
          }
          if Touched(rows, p) {
            var i :| 0 <= i < |rows| && TouchedBy(rows[i], p);
            assert TouchedBy(init[i], p);
          }
        }
      }
    }
  }

  // ---- deltas and their log rows --------------------------------------------

  function Leaves(d: Delta): Option<WorktreeRow> {
    if d.Remove? then None else Some(d.row)
  }

  /** Whole deltas keep a log that replays to the table replaying to the table. */
  lemma {:induction false} ExecuteReplays(s: Store, ds: seq<Delta>)
    requires s.Valid() && Fits(s.table, ds)
    requires Replay(s.log.rows) == ViewOf(s.table)
    ensures Replay(Execute(s, ds).log.rows) == ViewOf(Execute(s, ds).table)
  {
    if ds != [] {
      var init, d := ds[..|ds| - 1], ds[|ds| - 1];
      ExecuteElsewhere(s, init);
      ExecuteReplays(s, init);
      var mid := Execute(s, init);
      LastFits(s.table, mid.table, ds);
      RecordReplays(mid, d);
    }
  }

  lemma RecordReplays(s: Store, d: Delta)
    requires s.Valid() && FitsOne(s.table, d)
    requires Replay(s.log.rows) == ViewOf(s.table)
    ensures Replay(Record(Write(s, d), d).log.rows) == ViewOf(Write(s, d).table)
  {
    var s' := Record(Write(s, d), d);
    var r := s'.log.rows[|s.log.rows|];
    assert s'.log.rows == s.log.rows + [r];
    SameEverywhere(Replay(s'.log.rows), ViewOf(s'.table));
  }

  lemma SameEverywhere(v: View, w: View)
    requires forall p :: At(v, p) == At(w, p)
    ensures v == w
  {
    forall p ensures p in v <==> p in w {
      assert At(v, p) == At(w, p);
    }
    forall p | p in v ensures v[p] == w[p] {
      assert At(v, p) == At(w, p);
    }
  }

  /**
   * A round that dies leaves the log replaying to the table exactly when it did not die between a
   * table write and its log row.
   */
  lemma DeadRoundReplaysIffNotTorn(s: Store, done: seq<Delta>, torn: Option<Delta>)
    requires s.Valid() && Fits(s.table, done + Pending(torn))
    requires Replay(s.log.rows) == ViewOf(s.table)
    ensures Replay(Reached(s, done, torn).log.rows) == ViewOf(Reached(s, done, torn).table) <==> torn.None?
  {
    var all := done + Pending(torn);
    assert Fits(s.table, done) by {
      assert forall i | 0 <= i < |done| :: done[i] == all[i];
    }
    ExecuteReplays(s, done);
    if torn.Some? {
      var d, mid := torn.value, Execute(s, done);
      assert all[|done|] == d;
      ExecuteElsewhere(s, done);
      assert forall i | 0 <= i < |done| :: done[i] == all[i];
      assert Avoids(done, d.Path()) && SameAt(s.table, mid.table, d.Path());
      assert At(ViewOf(mid.table), d.Path()) != Leaves(d);
    }
  }

  lemma LastRow(s: Store, ds: seq<Delta>)
    requires ds != []
    ensures var before, after, d := Execute(s, ds[..|ds| - 1]).log.rows, Execute(s, ds).log.rows, ds[|ds| - 1];
            |after| == |before| + 1 && before <= after && Effect(after[|before|]) == Some((d.Path(), Leaves(d)))
  {
    var mid, d := Execute(s, ds[..|ds| - 1]), ds[|ds| - 1];
  }

  /** The rows that a round logs say, one by one, what its deltas did. */
  lemma {:induction false} ExecuteRows(s: Store, ds: seq<Delta>)
    ensures var before, after := s.log.rows, Execute(s, ds).log.rows;
            && |after| == |before| + |ds| && before <= after
            && forall i | 0 <= i < |ds| :: Effect(after[|before| + i]) == Some((ds[i].Path(), Leaves(ds[i])))
  {
    if ds != [] {
      ExecuteRows(s, ds[..|ds| - 1]);
      LastRow(s, ds);
    }
  }

  /** A round says nothing in the log about a path on which table and scan agree. */
  lemma RoundSilent(s: Store, scan: seq<WorktreeRow>, order: seq<string>, q: string)
    requires s.Valid() && DistinctPaths(scan) && GoneOrder(s.table, scan, order)
    requires At(ViewOf(s.table), q) == At(ScanView(scan), q)
    ensures At(Replay(Execute(s, RoundDeltas(s.table, scan, order)).log.rows), q) == At(Replay(s.log.rows), q)
  {
    var ds := RoundDeltas(s.table, scan, order);
    RoundFits(s.table, s.rowSeq, scan, order);
    ExecuteElsewhere(s, ds);
    var rows := Execute(s, ds).log.rows;
    var tail := rows[|s.log.rows|..];
    assert rows == s.log.rows + tail;
    ExecuteRows(s, ds);
    forall i | 0 <= i < |tail| ensures !TouchedBy(tail[i], q) {
      assert DeltaDue(s.table, scan, ds[i]);
    }
    ApplyConcat(map[], s.log.rows, tail);
    ApplyAt(Replay(s.log.rows), map[], tail, q);
  }

  /** A torn delta is in the table as the scan wants it, and not in the log. */
  lemma TornWriteIsUnlogged(s: Store, scan: seq<WorktreeRow>, order: seq<string>, done: seq<Delta>, d: Delta)
    requires s.Valid() && Replay(s.log.rows) == ViewOf(s.table)
    requires DistinctPaths(scan) && Gone(s.table, scan, order) && done + [d] <= RoundDeltas(s.table, scan, order)
    ensures var dead := Reached(s, done, Some(d));
            && At(ViewOf(dead.table), d.Path()) == At(ScanView(scan), d.Path())
            && At(Replay(dead.log.rows), d.Path()) != At(ScanView(scan), d.Path())
  {
    var first, mid, q := RoundDeltas(s.table, scan, order), Execute(s, done), d.Path();
    RoundFits(s.table, s.rowSeq, scan, order);
    assert first[|done|] == d && done == first[..|done|];
    ExecuteElsewhere(s, done);
    ExecuteReplays(s, done);
    assert FitsOne(s.table, d) && Avoids(done, q) && SameAt(s.table, mid.table, q) && DeltaDue(s.table, scan, d);
  }

  /**
   * A retry of the same scan does not repair the log: the table already holds the torn delta, so the
   * round that completes has nothing to log for its path and the log replays to something else.
   */
  lemma TornWriteOutlivesRetry(s: Store, scan: seq<WorktreeRow>, order: seq<string>, done: seq<Delta>, d: Delta,
                               order': seq<string>, s': Store)
    requires s.Valid() && Replay(s.log.rows) == ViewOf(s.table)
    requires DistinctPaths(scan) && Gone(s.table, scan, order) && done + [d] <= RoundDeltas(s.table, scan, order)
    requires Reached(s, done, Some(d)).Valid() && GoneOrder(Reached(s, done, Some(d)).table, scan, order')
    requires s' == Execute(Reached(s, done, Some(d)), RoundDeltas(Reached(s, done, Some(d)).table, scan, order'))
    ensures ViewOf(s'.table) == ScanView(scan) && Replay(s'.log.rows) != ViewOf(s'.table)
  {
    var dead := Reached(s, done, Some(d));
    TornWriteIsUnlogged(s, scan, order, done, d);
    RoundSilent(dead, scan, order', d.Path());
    RoundReconciles(dead, scan, order', s');
  }
}
