/** The replication pipeline, from the scanner to clients that reconnect, as one state machine. */
module Replication {
  import opened Wrappers
  import opened ChangeLog
  import opened Worktree
  import opened Broadcast
  import opened Replica

  // The worktree scanner writes the table and the log one statement at a time, others write the log too,
  // the broadcaster ticks, and clients join, handle rows, lose their connection at any point and come back
  // with the id of the last row they handled.

  /** `read` rows of connection `conn`, which was opened with Last-Event-ID `since`, have been handled. */
  datatype Consumer = Consumer(handled: seq<LogRow>, conn: Option<nat>, since: int, read: nat)

  /**
   * A `/worktrees` answer, taken when the log had at least `base` rows. When its query fails the server
   * answers with an empty list, which a client cannot tell from an empty table.
   */
  datatype Snapshot = Snapshot(view: View, base: nat, queryOk: bool)

  /**
   * `pending` is the delta whose table write is done and whose log row is not. `unlogged` are the
   * paths whose last table write was torn off its log row by a failed round, and `torn` tells whether
   * that ever happened. `tables[n]` is the table the scanner had reached when the log had n rows.
   */
  datatype System = System(
    table: Table, rowSeq: nat, plan: seq<Delta>, pending: Option<Delta>,
    unlogged: set<string>, torn: bool, tables: seq<View>,
    hub: Hub, consumers: map<nat, Consumer>, snapshots: map<nat, Snapshot>)

  datatype Step =
    | StartRound(scan: seq<WorktreeRow>, order: seq<string>)
    | WriteDelta
    | LogDelta
    | FailRound
    | OtherRows(log: Log)
    | OtherClient(lastEventId: int)
    | Broadcast(fetchOk: bool, quota: seq<nat>)
    | Join(k: nat)
    | Handle(k: nat, c: SseClient)
    | Lose(k: nat)
    | Fetch(k: nat, base: nat, queryOk: bool)

  function StoreOf(s: System): Store {
    Store(s.table, s.rowSeq, s.hub.log)
  }

  function LastId(handled: seq<LogRow>): int {
    if handled == [] then 0 else handled[|handled| - 1].id
  }

  function ConsumerOf(s: System, k: nat): Consumer {
    if k in s.consumers then s.consumers[k] else Consumer([], None, 0, 0)
  }

  function LogWith(s: System, log: Log): System {
    s.(hub := s.hub.(log := log))
  }

  ghost predicate Enabled(s: System, step: Step) {
    match step
    case StartRound(scan, order) =>
      s.plan == [] && s.pending == None && DistinctPaths(scan) && GoneOrder(s.table, scan, order)
    case WriteDelta => s.plan != [] && s.pending == None
    case LogDelta => s.pending.Some?
    case OtherRows(log) =>
      Extends(s.hub.log, log) && forall i | |s.hub.log.rows| <= i < |log.rows| :: Effect(log.rows[i]) == None
    case Handle(k, c) =>
      && (c in s.hub.clients || c in s.hub.gone)
      && ConsumerOf(s, k).conn == Some(c.conn) && ConsumerOf(s, k).read < |c.wire|
    case Join(k) => ConsumerOf(s, k).conn == None
    case Fetch(_, base, _) => base <= |s.hub.log.rows|
    case _ => true
  }

  ghost function Next(s: System, step: Step): System
    requires Enabled(s, step)
  {
    match step
    case StartRound(scan, order) => s.(plan := RoundDeltas(s.table, scan, order))
    case WriteDelta =>
      var w := Write(StoreOf(s), s.plan[0]);
      s.(table := w.table, rowSeq := w.rowSeq, pending := Some(s.plan[0]), plan := s.plan[1..])
    case LogDelta =>
      var d := s.pending.value;
      var logged := LogWith(s, Record(StoreOf(s), d).log);
      logged.(pending := None, unlogged := s.unlogged - {d.Path()}, tables := s.tables + [ViewOf(s.table)])
    case FailRound =>
      if s.pending.None? then s.(plan := [])
      else s.(plan := [], pending := None, unlogged := s.unlogged + {s.pending.value.Path()}, torn := true)
    case OtherRows(log) =>
      var more := |log.rows| - |s.hub.log.rows|;
      var now := if s.tables == [] then map[] else s.tables[|s.tables| - 1];
      LogWith(s, log).(tables := s.tables + seq(more, _ => now))
    case OtherClient(id) => s.(hub := Broadcast.Next(s.hub, HubStep.Register(id)))
    case Broadcast(fetchOk, quota) => s.(hub := Broadcast.Next(s.hub, HubStep.Tick(fetchOk, quota)))
    case Join(k) =>
      var c := ConsumerOf(s, k);
      var since := LastId(c.handled);
      s.(hub := Broadcast.Next(s.hub, HubStep.Register(since)),
         consumers := s.consumers[k := Consumer(c.handled, Some(s.hub.nextConn), since, 0)])
    case Handle(k, client) =>
      var c := ConsumerOf(s, k);
      s.(consumers := s.consumers[k := c.(handled := c.handled + [client.wire[c.read]], read := c.read + 1)])
    case Lose(k) => s.(consumers := s.consumers[k := ConsumerOf(s, k).(conn := None)])
    case Fetch(k, base, ok) =>
      s.(snapshots := s.snapshots[k := Snapshot(if ok then ViewOf(s.table) else map[], base, ok)])
  }

  ghost predicate Init(s: System) {
    && s.table == map[] && s.plan == [] && s.pending == None && s.unlogged == {} && !s.torn
    && s.hub.log == Log([], 0) && s.hub.clients == [] && s.hub.gone == []
    && s.tables == [map[]] && s.consumers == map[] && s.snapshots == map[]
  }

  // ---- invariants -------------------------------------------------------------------

  ghost predicate Unsettled(s: System, p: string) {
    p in s.unlogged || (s.pending.Some? && s.pending.value.Path() == p)
  }

  ghost predicate WriterInv(s: System) {
    && StoreOf(s).Valid() && Fits(s.table, s.plan)
    && (s.pending.Some? ==> At(ViewOf(s.table), s.pending.value.Path()) == Leaves(s.pending.value))
    && (forall p | !Unsettled(s, p) :: At(Replay(s.hub.log.rows), p) == At(ViewOf(s.table), p))
  }

  ghost predicate HistoryInv(s: System) {
    && |s.tables| == |s.hub.log.rows| + 1
    && (!s.torn ==> s.unlogged == {} && forall n | 0 <= n < |s.tables| :: Replay(s.hub.log.rows[..n]) == s.tables[n])
  }

  ghost predicate ConsumerInv(h: Hub, c: Consumer) {
    && c.handled <= h.log.rows
    && (c.conn.Some? ==>
          && c.conn.value < h.nextConn
          && c.since <= h.log.last && |c.handled| == Upto(h.log.rows, c.since) + c.read
          && forall b | (b in h.clients || b in h.gone) && b.conn == c.conn.value :: b.joined == c.since)
  }

  ghost predicate ConnsInv(h: Hub) {
    forall b | b in h.clients || b in h.gone :: b.conn < h.nextConn
  }

  ghost predicate SnapshotInv(s: System, snap: Snapshot) {
    && snap.base <= |s.hub.log.rows| && (!snap.queryOk ==> snap.view == map[])
    && forall p | snap.queryOk && !Unsettled(s, p) && !Touched(s.hub.log.rows[snap.base..], p) ::
         At(snap.view, p) == At(Replay(s.hub.log.rows), p)
  }

  ghost predicate Inv(s: System) {
    && HubInv(s.hub) && ConnsInv(s.hub) && WriterInv(s) && HistoryInv(s)
    && (forall k | k in s.consumers :: ConsumerInv(s.hub, s.consumers[k]))
    && (forall k | k in s.snapshots :: SnapshotInv(s, s.snapshots[k]))
  }

  // ---- the scanner ---------------------------------------------------------------------

  lemma FitsAfterWrite(s: Store, ds: seq<Delta>)
    requires s.Valid() && Fits(s.table, ds) && ds != []
    ensures Write(s, ds[0]).Valid() && Fits(Write(s, ds[0]).table, ds[1..])
  {
    WriteOne(s, ds[0]);
    var t := Write(s, ds[0]).table;
    forall i | 0 <= i < |ds[1..]| ensures FitsOne(t, ds[1..][i]) {
      assert FitsOne(s.table, ds[i + 1]) && SameAt(s.table, t, ds[i + 1].Path());
    }
  }

  lemma {:induction false} NoEffect(v: View, rows: seq<LogRow>, more: seq<LogRow>)
    requires forall i | 0 <= i < |more| :: Effect(more[i]) == None
    ensures Apply(v, rows + more) == Apply(v, rows)
  {
    if more == [] {
      assert rows + more == rows;
    } else {
      var init := more[..|more| - 1];
      NoEffect(v, rows, init);
      assert rows + more == (rows + init) + [more[|more| - 1]];
    }
  }

  /** Logging the pending delta settles its path and leaves the replay elsewhere alone. */
  lemma LogDeltaReplays(s: System, p: string)
    requires s.pending.Some?
    ensures var rows, rows' := s.hub.log.rows, Next(s, LogDelta).hub.log.rows;
            && |rows'| == |rows| + 1 && rows <= rows' && TouchedBy(rows'[|rows|], s.pending.value.Path())
            && At(Replay(rows'), p) == if p == s.pending.value.Path() then Leaves(s.pending.value)
                else At(Replay(rows), p)
  {
    var d, rows := s.pending.value, s.hub.log.rows;
    var rows' := Next(s, LogDelta).hub.log.rows;
    assert rows' == rows + [rows'[|rows|]];
  }

  lemma OtherRowsReplay(s: System, log: Log)
    requires Enabled(s, OtherRows(log))
    ensures Replay(log.rows) == Replay(s.hub.log.rows)
  {
    var more := log.rows[|s.hub.log.rows|..];
    assert log.rows == s.hub.log.rows + more;
    NoEffect(map[], s.hub.log.rows, more);
  }

  lemma WriterKept(s: System, step: Step)
    requires WriterInv(s) && Enabled(s, step)
    ensures WriterInv(Next(s, step))
  {
    var s' := Next(s, step);
    match step
    case StartRound(scan, order) =>
      RoundFits(s.table, s.rowSeq, scan, order);
      assert forall p :: Unsettled(s', p) <==> Unsettled(s, p);
    case WriteDelta =>
      var d := s.plan[0];
      FitsAfterWrite(StoreOf(s), s.plan);
      assert FitsOne(s.table, d);
      forall p | !Unsettled(s', p) ensures At(Replay(s'.hub.log.rows), p) == At(ViewOf(s'.table), p) {
        assert !Unsettled(s, p);
      }
    case LogDelta =>
      forall p | !Unsettled(s', p) ensures At(Replay(s'.hub.log.rows), p) == At(ViewOf(s'.table), p) {
        LogDeltaReplays(s, p);
        assert p != s.pending.value.Path() ==> !Unsettled(s, p);
      }
    case FailRound =>
      assert forall p :: Unsettled(s', p) <==> Unsettled(s, p);
    case OtherRows(log) =>
      OtherRowsReplay(s, log);
      assert forall p :: Unsettled(s', p) <==> Unsettled(s, p);
    case _ =>
      assert forall p :: Unsettled(s', p) <==> Unsettled(s, p);
  }

  lemma HistoryKept(s: System, step: Step)
    requires WriterInv(s) && HistoryInv(s) && Enabled(s, step)
    ensures HistoryInv(Next(s, step))
  {
    var s', rows, rows' := Next(s, step), s.hub.log.rows, Next(s, step).hub.log.rows;
    match step
    case LogDelta =>
      LogDeltaReplays(s, s.pending.value.Path());
      if !s.torn {
        forall n | 0 <= n < |s'.tables| ensures Replay(rows'[..n]) == s'.tables[n] {
          if n <= |rows| {
            assert rows'[..n] == rows[..n];
          } else {
            assert rows'[..n] == rows';
            forall p ensures At(Replay(rows'), p) == At(ViewOf(s'.table), p) {
              WriterKept(s, step);
              assert !Unsettled(s', p);
            }
            SameEverywhere(Replay(rows'), ViewOf(s'.table));
          }
        }
      }
    case OtherRows(log) =>
      if !s.torn {
        forall n | 0 <= n < |s'.tables| ensures Replay(rows'[..n]) == s'.tables[n] {
          if n <= |rows| {
            assert rows'[..n] == rows[..n];
          } else {
            var more := rows'[|rows|..n];
            assert rows'[..n] == rows + more;
            NoEffect(map[], rows, more);
            assert rows[..|rows|] == rows;
          }
        }
      }
    case _ =>
  }

  // ---- clients --------------------------------------------------------------------------

  lemma {:induction false} UptoExtends(rows: seq<LogRow>, more: seq<LogRow>, cursor: int)
    requires forall i | 0 <= i < |more| :: more[i].id > cursor
    ensures Upto(rows + more, cursor) == Upto(rows, cursor)
    decreases |rows|, |more|
  {
    if rows == [] {
      assert rows + more == more;
      if more != [] {
        UptoExtends([], more[1..], cursor);
        assert [] + more[1..] == more[1..];
      }
    } else {
      assert (rows + more)[1..] == rows[1..] + more;
      UptoExtends(rows[1..], more, cursor);
    }
  }

  lemma ConsumerKeptByGrowth(h: Hub, log: Log, c: Consumer)
    requires h.log.Valid() && ConsumerInv(h, c) && Extends(h.log, log)
    ensures ConsumerInv(h.(log := log), c)
  {
    if c.conn.Some? {
      var more := log.rows[|h.log.rows|..];
      assert log.rows == h.log.rows + more;
      UptoExtends(h.log.rows, more, c.since);
    }
  }

  lemma LastIdIsPosition(log: Log, handled: seq<LogRow>)
    requires log.Valid() && handled <= log.rows
    ensures 0 <= LastId(handled) <= log.last && Upto(log.rows, LastId(handled)) == |handled|
  {
    UptoUnique(log.rows, LastId(handled), |handled|);
  }

  /** The next row a client reads off its connection is the next row of the log. */
  lemma WireIsLog(h: Hub, c: Consumer, b: SseClient)
    requires HubInv(h) && ConsumerInv(h, c) && (b in h.clients || b in h.gone)
    requires c.conn == Some(b.conn) && c.read < |b.wire|
    ensures |c.handled| < |h.log.rows| && b.wire[c.read] == h.log.rows[|c.handled|]
  {
    assert Exact(h.log, b) && b.joined == c.since;
    BetweenIsSlice(h.log.rows, b.joined, b.lastSentId);
  }

  lemma TickKeepsConsumer(h: Hub, fetchOk: bool, quota: seq<nat>, c: Consumer)
    requires HubInv(h) && ConnsInv(h)
    ensures var h' := Broadcast.Next(h, HubStep.Tick(fetchOk, quota));
            ConnsInv(h') && (ConsumerInv(h, c) ==> ConsumerInv(h', c))
  {
    if fetchOk {
      OutcomeExact(h.log, h.clients, quota, false);
      OutcomeExact(h.log, h.clients, quota, true);
    }
  }

  lemma HubKept(s: System, step: Step)
    requires HubInv(s.hub) && ConnsInv(s.hub) && Enabled(s, step)
    ensures HubInv(Next(s, step).hub) && ConnsInv(Next(s, step).hub)
    ensures Extends(s.hub.log, Next(s, step).hub.log)
  {
    match step
    case LogDelta => NextKeepsInv(s.hub, HubStep.Commit(Next(s, step).hub.log));
    case OtherRows(log) => NextKeepsInv(s.hub, HubStep.Commit(log));
    case OtherClient(id) => NextKeepsInv(s.hub, HubStep.Register(id));
    case Join(k) => NextKeepsInv(s.hub, HubStep.Register(LastId(ConsumerOf(s, k).handled)));
    case Broadcast(fetchOk, quota) =>
      NextKeepsInv(s.hub, HubStep.Tick(fetchOk, quota));
      TickKeepsConsumer(s.hub, fetchOk, quota, Consumer([], None, 0, 0));
    case _ =>
  }

  lemma ConsumerKept(s: System, step: Step, k: nat)
    requires HubInv(s.hub) && ConnsInv(s.hub) && Enabled(s, step)
    requires ConsumerInv(s.hub, ConsumerOf(s, k))
    ensures ConsumerInv(Next(s, step).hub, ConsumerOf(Next(s, step), k))
  {
    var c := ConsumerOf(s, k);
    HubKept(s, step);
    match step
    case LogDelta => ConsumerKeptByGrowth(s.hub, Next(s, step).hub.log, c);
    case OtherRows(log) => ConsumerKeptByGrowth(s.hub, log, c);
    case Broadcast(fetchOk, quota) => TickKeepsConsumer(s.hub, fetchOk, quota, c);
    case Join(j) =>
      if j == k {
        LastIdIsPosition(s.hub.log, c.handled);
      }
    case Handle(j, b) =>
      if j == k {
        WireIsLog(s.hub, c, b);
      }
    case _ =>
  }

  lemma SnapshotKept(s: System, step: Step, snap: Snapshot)
    requires WriterInv(s) && SnapshotInv(s, snap) && Enabled(s, step)
    ensures SnapshotInv(Next(s, step), snap)
  {
    var s', rows, rows' := Next(s, step), s.hub.log.rows, Next(s, step).hub.log.rows;
    forall p | snap.queryOk && !Unsettled(s', p) && !Touched(rows'[snap.base..], p)
      ensures At(snap.view, p) == At(Replay(rows'), p)
    {
      match step
      case LogDelta =>
        LogDeltaReplays(s, p);
        assert rows'[snap.base..][|rows| - snap.base] == rows'[|rows|];
        assert p != s.pending.value.Path();
        assert !Unsettled(s, p);
      case OtherRows(log) =>
        OtherRowsReplay(s, log);
        assert !Unsettled(s, p);
      case _ =>
        assert rows' == rows && !Unsettled(s, p);
    }
  }

  lemma StepKeepsInv(s: System, step: Step)
    requires Inv(s) && Enabled(s, step)
    ensures Inv(Next(s, step))
  {
    var s' := Next(s, step);
    HubKept(s, step);
    WriterKept(s, step);
    HistoryKept(s, step);
    forall k | k in s'.consumers ensures ConsumerInv(s'.hub, s'.consumers[k]) {
      ConsumerKept(s, step, k);
    }
    forall k | k in s'.snapshots ensures SnapshotInv(s', s'.snapshots[k]) {
      if step.Fetch? && step.k == k {
      } else {
        SnapshotKept(s, step, s.snapshots[k]);
      }
    }
  }

  // ---- runs --------------------------------------------------------------------------------

  ghost predicate IsRun(states: seq<System>, steps: seq<Step>) {
    && |states| == |steps| + 1 && Init(states[0])
    && forall i | 0 <= i < |steps| :: Enabled(states[i], steps[i]) && states[i + 1] == Next(states[i], steps[i])
  }

  lemma {:induction false} RunKeepsInv(states: seq<System>, steps: seq<Step>, i: nat)
    requires IsRun(states, steps) && i < |states|
    ensures Inv(states[i])
  {
    if i > 0 {
      RunKeepsInv(states, steps, i - 1);
      StepKeepsInv(states[i - 1], steps[i - 1]);
    }
  }

  /**
   * End to end. In every run, with every interleaving of the scanner, other writers, ticks, joins,
   * lost connections and reconnects from the last handled id, a client has handled exactly the first
   * rows of the log, each once and in order. As long as no round died between a table write and its
   * log row, its copy is the table as of that position.
   */
  lemma ReplicaIsTheTable(states: seq<System>, steps: seq<Step>, i: nat, k: nat)
    requires IsRun(states, steps) && i < |states| && k in states[i].consumers
    ensures var s, handled := states[i], states[i].consumers[k].handled;
            && handled <= s.hub.log.rows && |s.tables| == |s.hub.log.rows| + 1
            && (!s.torn ==> Replay(handled) == s.tables[|handled|])
  {
    RunKeepsInv(states, steps, i);
    var s, handled := states[i], states[i].consumers[k].handled;
    assert ConsumerInv(s.hub, s.consumers[k]);
    assert s.hub.log.rows[..|handled|] == handled;
  }

  /**
   * A client that has handled the whole log has the current table, except at the path now being
   * written and at paths whose last write was torn off its log row.
   */
  lemma CaughtUpIsCurrent(states: seq<System>, steps: seq<Step>, i: nat, k: nat)
    requires IsRun(states, steps) && i < |states| && k in states[i].consumers
    requires |states[i].consumers[k].handled| == |states[i].hub.log.rows|
    ensures forall p | !Unsettled(states[i], p) ::
              At(Replay(states[i].consumers[k].handled), p) == At(ViewOf(states[i].table), p)
    ensures states[i].pending == None && states[i].unlogged == {} ==>
              Replay(states[i].consumers[k].handled) == ViewOf(states[i].table)
  {
    RunKeepsInv(states, steps, i);
    var s, c := states[i], states[i].consumers[k];
    assert ConsumerInv(s.hub, c) && c.handled == s.hub.log.rows;
    if s.pending == None && s.unlogged == {} {
      forall p ensures At(Replay(c.handled), p) == At(ViewOf(s.table), p) {
        assert !Unsettled(s, p);
      }
      SameEverywhere(Replay(c.handled), ViewOf(s.table));
    }
  }

  /**
   * Snapshot and overlapping tail. A `/worktrees` answer taken at any moment, even between a table
   * write and its log row, followed by the log from any earlier position, is right at a settled path if
   * and only if its query did not fail, or that part of the log is about the path, or nothing is there.
   */
  lemma SnapshotConvergesIff(states: seq<System>, steps: seq<Step>, i: nat, k: nat, p: string)
    requires IsRun(states, steps) && i < |states| && k in states[i].snapshots && !Unsettled(states[i], p)
    ensures var s, snap := states[i], states[i].snapshots[k];
            && snap.base <= |s.hub.log.rows|
            && (At(Apply(snap.view, s.hub.log.rows[snap.base..]), p) == At(ViewOf(s.table), p) <==>
                  snap.queryOk || Touched(s.hub.log.rows[snap.base..], p) || p !in s.table)
  {
    RunKeepsInv(states, steps, i);
    var s, snap := states[i], states[i].snapshots[k];
    assert SnapshotInv(s, snap);
    var head, tail := s.hub.log.rows[..snap.base], s.hub.log.rows[snap.base..];
    assert s.hub.log.rows == head + tail;
    ApplyConcat(map[], head, tail);
    ApplyAt(snap.view, Replay(head), tail, p);
  }

  /** In particular every answer whose query did not fail converges to the table, once all is settled. */
  lemma SnapshotAndTailConverge(states: seq<System>, steps: seq<Step>, i: nat, k: nat)
    requires IsRun(states, steps) && i < |states| && k in states[i].snapshots
    requires states[i].snapshots[k].queryOk && states[i].pending == None && states[i].unlogged == {}
    ensures var s, snap := states[i], states[i].snapshots[k];
            snap.base <= |s.hub.log.rows| && Apply(snap.view, s.hub.log.rows[snap.base..]) == ViewOf(s.table)
  {
    var s, snap := states[i], states[i].snapshots[k];
    SnapshotConvergesIff(states, steps, i, k, "");
    forall p ensures At(Apply(snap.view, s.hub.log.rows[snap.base..]), p) == At(ViewOf(s.table), p) {
      SnapshotConvergesIff(states, steps, i, k, p);
    }
    SameEverywhere(Apply(snap.view, s.hub.log.rows[snap.base..]), ViewOf(s.table));
  }

  /** A failed query is harmless exactly when the log from there on is about every path there is. */
  lemma FailedSnapshotConvergesIff(states: seq<System>, steps: seq<Step>, i: nat, k: nat)
    requires IsRun(states, steps) && i < |states| && k in states[i].snapshots
    requires !states[i].snapshots[k].queryOk && states[i].pending == None && states[i].unlogged == {}
    ensures var s, snap := states[i], states[i].snapshots[k];
            && snap.base <= |s.hub.log.rows|
            && (Apply(snap.view, s.hub.log.rows[snap.base..]) == ViewOf(s.table) <==>
                  forall p | p in s.table :: Touched(s.hub.log.rows[snap.base..], p))
  {
    var s, snap := states[i], states[i].snapshots[k];
    SnapshotConvergesIff(states, steps, i, k, "");
    var got := Apply(snap.view, s.hub.log.rows[snap.base..]);
    forall p
      ensures At(got, p) == At(ViewOf(s.table), p) <==> Touched(s.hub.log.rows[snap.base..], p) || p !in s.table {
      SnapshotConvergesIff(states, steps, i, k, p);
    }
    if forall p | p in s.table :: Touched(s.hub.log.rows[snap.base..], p) {
      SameEverywhere(got, ViewOf(s.table));
    }
  }
}
