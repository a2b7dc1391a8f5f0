/** A round of the scanner, as its statements leave it, is a run of steps of the replication machine. */
module RoundSteps {
  import opened Wrappers
  import opened ChangeLog
  import opened Worktree
  import opened Replication

  ghost predicate CanTake(s: System, steps: seq<Step>)
    decreases |steps|, 0
  {
    steps == [] || (CanTake(s, steps[..|steps| - 1]) && Enabled(Taken(s, steps[..|steps| - 1]), steps[|steps| - 1]))
  }

  ghost function Taken(s: System, steps: seq<Step>): System
    requires CanTake(s, steps)
    decreases |steps|, 1
  {
    if steps == [] then s else Next(Taken(s, steps[..|steps| - 1]), steps[|steps| - 1])
  }

  lemma TakeOne(s: System, steps: seq<Step>, step: Step)
    requires CanTake(s, steps) && Enabled(Taken(s, steps), step)
    ensures CanTake(s, steps + [step]) && Taken(s, steps + [step]) == Next(Taken(s, steps), step)
  {
    assert (steps + [step])[..|steps|] == steps;
  }

  // ---- a round's steps --------------------------------------------------------------------------

  /** A round that is started and does its first n deltas. */
  function Start(scan: seq<WorktreeRow>, order: seq<string>, n: nat): seq<Step> {
    if n == 0 then [StartRound(scan, order)] else Start(scan, order, n - 1) + [WriteDelta] + [LogDelta]
  }

  /** And then ends, or dies before or after one more table write. */
  function Round(scan: seq<WorktreeRow>, order: seq<string>, n: nat, torn: bool, fine: bool): seq<Step> {
    Start(scan, order, n) + (if torn then [WriteDelta] else []) + (if fine then [] else [FailRound])
  }

  /** The clients and everything else that is not the scanner's. */
  ghost predicate SameElse(s: System, s': System) {
    && s'.consumers == s.consumers && s'.snapshots == s.snapshots && s'.hub == s.hub.(log := s'.hub.log)
  }

  ghost predicate Idle(s: System) {
    s.plan == [] && s.pending == None
  }

  /** Half way: the first deltas of ds are done, the others planned. */
  ghost predicate HasDone(s: System, s': System, ds: seq<Delta>, n: nat) {
    && n <= |ds| && s'.plan == ds[n..] && s'.pending == None && s'.torn == s.torn
    && StoreOf(s') == Execute(StoreOf(s), ds[..n]) && SameElse(s, s')
  }

  lemma {:induction false} DeltasAreSteps(s: System, scan: seq<WorktreeRow>, order: seq<string>, n: nat)
    requires Idle(s) && DistinctPaths(scan) && GoneOrder(s.table, scan, order)
             && n <= |RoundDeltas(s.table, scan, order)|
    ensures CanTake(s, Start(scan, order, n))
    ensures HasDone(s, Taken(s, Start(scan, order, n)), RoundDeltas(s.table, scan, order), n)
  {
    if n == 0 {
      RoundStarts(s, scan, order);
    } else {
      DeltasAreSteps(s, scan, order, n - 1);
      DeltaTaken(s, Start(scan, order, n - 1), RoundDeltas(s.table, scan, order), n);
    }
  }

  lemma RoundStarts(s: System, scan: seq<WorktreeRow>, order: seq<string>)
    requires Idle(s) && DistinctPaths(scan) && GoneOrder(s.table, scan, order)
    ensures CanTake(s, [StartRound(scan, order)])
    ensures HasDone(s, Taken(s, [StartRound(scan, order)]), RoundDeltas(s.table, scan, order), 0)
  {
    TakeOne(s, [], StartRound(scan, order));
    assert [] + [StartRound(scan, order)] == [StartRound(scan, order)];
  }

  lemma DeltaTaken(s: System, steps: seq<Step>, ds: seq<Delta>, n: nat)
    requires 0 < n <= |ds| && CanTake(s, steps) && HasDone(s, Taken(s, steps), ds, n - 1)
    ensures CanTake(s, steps + [WriteDelta] + [LogDelta])
    ensures HasDone(s, Taken(s, steps + [WriteDelta] + [LogDelta]), ds, n)
  {
    DeltaDone(s, Taken(s, steps), ds, n);
    TakeOne(s, steps, WriteDelta);
    TakeOne(s, steps + [WriteDelta], LogDelta);
  }

  lemma DeltaDone(s: System, mid: System, ds: seq<Delta>, n: nat)
    requires 0 < n <= |ds| && HasDone(s, mid, ds, n - 1)
    ensures Enabled(mid, WriteDelta) && Enabled(Next(mid, WriteDelta), LogDelta)
    ensures HasDone(s, Next(Next(mid, WriteDelta), LogDelta), ds, n)
  {
    assert ds[..n][..n - 1] == ds[..n - 1] && ds[n - 1..][0] == ds[n - 1] && ds[n - 1..][1..] == ds[n..];
  }

  /** Every incomplete order of the unscanned paths can be completed. */
  lemma Completed(t: Table, scan: seq<WorktreeRow>, order: seq<string>) returns (whole: seq<string>)
    requires Gone(t, scan, order)
    ensures GoneOrder(t, scan, whole) && order <= whole
  {
    whole := order;
    ghost var left := set p | p in t && p !in Paths(scan) && p !in whole;
    while left != {}
      invariant Gone(t, scan, whole) && order <= whole && left == set p | p in t && p !in Paths(scan) && p !in whole
      decreases |left|
    {
      var p :| p in left;
      left, whole := left - {p}, whole + [p];
    }
    assert forall p | p in t && p !in Paths(scan) && p !in whole :: p in left;
  }

  lemma PartOfWhole(t: Table, scan: seq<WorktreeRow>, order: seq<string>, whole: seq<string>, ds: seq<Delta>)
    requires Gone(t, scan, order) && GoneOrder(t, scan, whole) && order <= whole && ds <= RoundDeltas(t, scan, order)
    ensures ds <= RoundDeltas(t, scan, whole)
  {
    assert Removals(t, order) <= Removals(t, whole);
  }

  /** The round's end. */
  lemma EndIsSteps(s: System, scan: seq<WorktreeRow>, order: seq<string>, done: seq<Delta>, torn: Option<Delta>,
                   fine: bool)
    requires Idle(s) && DistinctPaths(scan) && GoneOrder(s.table, scan, order)
    requires done + Pending(torn) <= RoundDeltas(s.table, scan, order)
    requires fine ==> torn == None && done == RoundDeltas(s.table, scan, order)
    ensures var steps := Round(scan, order, |done|, torn.Some?, fine);
            && CanTake(s, steps) && Idle(Taken(s, steps)) && SameElse(s, Taken(s, steps))
            && StoreOf(Taken(s, steps)) == Reached(StoreOf(s), done, torn)
            && (Taken(s, steps).torn <==> s.torn || torn.Some?)
  {
    var n, first, ds := |done|, Start(scan, order, |done|), RoundDeltas(s.table, scan, order);
    DeltasAreSteps(s, scan, order, n);
    assert done == ds[..n];
    var mid := Taken(s, first);
    if torn.Some? {
      assert (done + [torn.value])[n] == torn.value == ds[n] == ds[n..][0];
      TakeOne(s, first, WriteDelta);
      TakeOne(s, first + [WriteDelta], FailRound);
    } else {
      assert first + [] == first;
      if fine {
        assert ds[n..] == [];
      } else {
        TakeOne(s, first, FailRound);
      }
    }
  }

  /**
   * Whatever a round does, statement by statement, with a statement refused anywhere or a path that the
   * scan repeats, the machine does in steps of its own and nothing else: it starts a round over as much
   * of the scan as repeats no path, does the deltas that were logged, writes the torn one if there is
   * one, and fails unless the round succeeded.
   */
  lemma RoundIsSteps(s: System, scan: seq<WorktreeRow>, after: Store, r: Result<nat, SyncError>,
                     done: seq<Delta>, torn: Option<Delta>, order: seq<string>)
    returns (i: nat, whole: seq<string>)
    requires Idle(s) && RoundOutcome(StoreOf(s), after, scan, r, done, torn, order)
    ensures i <= |scan| && DistinctPaths(scan[..i]) && (r.Ok? ==> i == |scan| && whole == order)
    ensures var steps := Round(scan[..i], whole, |done|, torn.Some?, r.Ok?);
            && CanTake(s, steps) && Idle(Taken(s, steps)) && SameElse(s, Taken(s, steps))
            && StoreOf(Taken(s, steps)) == after && (Taken(s, steps).torn <==> s.torn || torn.Some?)
  {
    if r.Ok? {
      i, whole := |scan|, order;
      assert scan[..i] == scan && done + [] == done;
    } else {
      i :| i <= |scan| && PartOver(s.table, scan[..i], order, done + Pending(torn));
      whole := Completed(s.table, scan[..i], order);
      PartOfWhole(s.table, scan[..i], order, whole, done + Pending(torn));
    }
    EndIsSteps(s, scan[..i], whole, done, torn, r.Ok?);
  }
}
