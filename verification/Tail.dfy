/** Tailing the change log by id while transactions write it. */
module Tail {
  import opened Wrappers
  import opened ChangeLog

  // SQLite is assumed to have one writer at a time: a transaction takes the write lock with its first
  // append and holds it until it commits or rolls back, and readers see committed rows only. A rollback
  // also takes back the AUTOINCREMENT counter, so the ids it used are given out again.

  datatype Writer = Writer(conn: nat, log: Log)

  /** `open` are the connections with a transaction; `writer` is the one that has written, if any. */
  datatype Database = Database(committed: Log, open: set<nat>, writer: Option<Writer>)

  datatype Entry = Entry(entity: Entity, entityId: int, event: ChangeEvent, slug: Option<string>,
                         payload: Option<Payload>)

  datatype Step =
    | Begin(conn: nat)
    | Append(conn: nat, entry: Entry)
    | AutoAppend(entry: Entry)
    | Commit(conn: nat)
    | Rollback(conn: nat)

  function AppendEntry(log: Log, e: Entry): Log {
    log.Append(e.entity, e.entityId, e.event, e.slug, e.payload)
  }

  predicate Enabled(db: Database, step: Step) {
    match step
    case Begin(conn) => conn !in db.open
    case Append(conn, _) => conn in db.open && (db.writer.None? || db.writer.value.conn == conn)
    case AutoAppend(_) => db.writer.None?
    case Commit(conn) => conn in db.open
    case Rollback(conn) => conn in db.open
  }

  predicate Holds(db: Database, conn: nat) {
    db.writer.Some? && db.writer.value.conn == conn
  }

  function Next(db: Database, step: Step): Database {
    match step
    case Begin(conn) => db.(open := db.open + {conn})
    case Append(conn, e) =>
      var base := if db.writer.Some? then db.writer.value.log else db.committed;
      db.(writer := Some(Writer(conn, AppendEntry(base, e))))
    case AutoAppend(e) => db.(committed := AppendEntry(db.committed, e))
    case Commit(conn) =>
      if Holds(db, conn) then Database(db.writer.value.log, db.open - {conn}, None)
      else db.(open := db.open - {conn})
    case Rollback(conn) =>
      if Holds(db, conn) then Database(db.committed, db.open - {conn}, None)
      else db.(open := db.open - {conn})
  }

  ghost predicate Inv(db: Database) {
    db.committed.Valid() && (db.writer.Some? ==> Extends(db.committed, db.writer.value.log))
  }

  lemma StepContinues(db: Database, step: Step)
    requires Inv(db) && Enabled(db, step)
    ensures Inv(Next(db, step)) && Extends(db.committed, Next(db, step).committed)
  {
  }

  ghost predicate IsRun(dbs: seq<Database>, steps: seq<Step>) {
    && |dbs| == |steps| + 1 && Inv(dbs[0])
    && forall i | 0 <= i < |steps| :: Enabled(dbs[i], steps[i]) && dbs[i + 1] == Next(dbs[i], steps[i])
  }

  /**
   * In every run of begins, appends, commits and rollbacks, what a reader sees later continues what
   * it saw earlier: no row is ever committed with an id at or below one already visible.
   */
  lemma {:induction false} VisibleLogContinues(dbs: seq<Database>, steps: seq<Step>, i: nat, j: nat)
    requires IsRun(dbs, steps) && i <= j < |dbs|
    ensures Inv(dbs[j]) && Extends(dbs[i].committed, dbs[j].committed)
    decreases j
  {
    if i < j {
      VisibleLogContinues(dbs, steps, i, j - 1);
      StepContinues(dbs[j - 1], steps[j - 1]);
    } else if j > 0 {
      VisibleLogContinues(dbs, steps, j - 1, j - 1);
      StepContinues(dbs[j - 1], steps[j - 1]);
    }
  }

  // ---- the subscriber -----------------------------------------------------------------------

  function MaxId(rows: seq<LogRow>): int {
    if rows == [] then 0 else rows[|rows| - 1].id
  }

  function Concat(batches: seq<seq<LogRow>>): seq<LogRow> {
    if batches == [] then [] else Concat(batches[..|batches| - 1]) + batches[|batches| - 1]
  }

  ghost predicate Continues(log: Log, log': Log) {
    log'.Valid() && log.rows <= log'.rows
  }

  /** What successive queries saw: each log continues the ones before. */
  ghost predicate Growing(seen: seq<Log>) {
    forall i, j {:trigger Continues(seen[i], seen[j])} | 0 <= i <= j < |seen| :: Continues(seen[i], seen[j])
  }

  datatype End = Cancelled | QueryFailed | HandlerFailed

  ghost predicate IsAfter(got: seq<LogRow>, rows: seq<LogRow>, start: int) {
    got == After(rows, start)
  }

  /**
   * After the poll before the i-th: what has been handed over is all that this poll saw after the
   * starting id, and the cursor is at its end.
   */
  ghost predicate Followed(seen: seq<Log>, i: nat, start: int, got: seq<LogRow>, lastId: int) {
    && 0 < i <= |seen|
    && (if i == 1 then got == [] else IsAfter(got, seen[i - 1].rows, start))
    && lastId == (if got == [] then start else MaxId(got))
  }

  /** Batches are never empty, and the handler took the first n of them. */
  ghost predicate Handled(batches: seq<seq<LogRow>>, handlerOk: nat -> bool, n: int) {
    && (forall i | 0 <= i < |batches| :: batches[i] != [])
    && (forall k | 0 <= k < n :: handlerOk(k))
  }

  ghost predicate Following(seen: seq<Log>, i: nat, start: int, batches: seq<seq<LogRow>>, lastId: int,
                            handlerOk: nat -> bool, handled: int)
  {
    Growing(seen) && Followed(seen, i, start, Concat(batches), lastId) && Handled(batches, handlerOk, handled)
  }

  /**
   * Subscribes to a log: `seen[0]` is what the starting query sees, `seen[i]` what poll i sees, and
   * the subscriber is cancelled after the last. The starting query falls back to id 0 when it fails; a
   * failed poll or handler ends the subscription. `polls` counts the polls that answered.
   */
  method Subscribe(seen: seq<Log>, startOk: bool, pollOk: nat -> bool, handlerOk: nat -> bool)
    returns (batches: seq<seq<LogRow>>, start: int, lastId: int, end: End, ghost polls: nat)
    requires Growing(seen) && seen != []
    ensures start == if startOk then MaxId(seen[0].rows) else 0
    ensures polls < |seen| && Following(seen, polls + 1, start, batches, lastId, handlerOk,
                                        if end == HandlerFailed then |batches| - 1 else |batches|)
    ensures end == Cancelled ==> polls == |seen| - 1
    ensures end == QueryFailed ==> polls + 1 < |seen| && !pollOk(polls + 1)
    ensures end == HandlerFailed ==> batches != [] && !handlerOk(|batches| - 1)
  {
    start := if startOk then MaxId(seen[0].rows) else 0;
    lastId, batches, end, polls := start, [], Cancelled, 0;
    for i := 1 to |seen|
      invariant polls == i - 1 && end == Cancelled
      invariant Following(seen, i, start, batches, lastId, handlerOk, |batches|)
    {
      if !pollOk(i) {
        end := QueryFailed;
        break;
      }
      var ok;
      batches, lastId, ok := Deliver(seen, i, start, batches, lastId, handlerOk);
      polls := i;
      if !ok {
        end := HandlerFailed;
        break;
      }
    }
  }

  /** One poll, and the handler's turn with what it returns, if anything. */
  method Deliver(seen: seq<Log>, i: nat, ghost start: int, batches: seq<seq<LogRow>>, lastId: int,
                 handlerOk: nat -> bool)
    returns (batches': seq<seq<LogRow>>, lastId': int, ok: bool)
    requires i < |seen| && Following(seen, i, start, batches, lastId, handlerOk, |batches|)
    ensures Following(seen, i + 1, start, batches', lastId', handlerOk, if ok then |batches'| else |batches'| - 1)
    ensures !ok ==> batches' != [] && !handlerOk(|batches'| - 1)
  {
    batches', lastId', ok := batches, lastId, true;
    var events := After(seen[i].rows, lastId);
    PollStep(seen, i, start, Concat(batches), lastId);
    ConcatMore(batches, events);
    if events != [] {
      lastId' := events[|events| - 1].id;
      batches' := batches + [events];
      ok := handlerOk(|batches'| - 1);
    }
  }

  lemma PriorUpto(prior: seq<LogRow>, rows: seq<LogRow>, start: int)
    requires Ascending(rows) && Ascending(prior) && prior <= rows && Upto(prior, start) < |prior|
    ensures Upto(rows, start) == Upto(prior, start)
  {
    UptoSplits(prior, start);
    UptoUnique(rows, start, Upto(prior, start));
  }

  lemma LastUpto(prior: seq<LogRow>, rows: seq<LogRow>)
    requires Ascending(rows) && prior <= rows && prior != []
    ensures Upto(rows, prior[|prior| - 1].id) == |prior|
  {
    UptoUnique(rows, prior[|prior| - 1].id, |prior|);
  }

  lemma SuffixJoin(prior: seq<LogRow>, rows: seq<LogRow>, a: nat)
    requires prior <= rows && a < |prior|
    ensures rows[a..] == prior[a..] + rows[|prior|..]
    ensures MaxId(prior[a..]) == prior[|prior| - 1].id
  {
  }

  lemma PollOnward(prior: seq<LogRow>, rows: seq<LogRow>, start: int)
    requires Ascending(rows) && Ascending(prior) && prior <= rows && After(prior, start) != []
    ensures After(prior, start) + After(rows, MaxId(After(prior, start))) == After(rows, start)
  {
    var a := Upto(prior, start);
    AfterIsSuffix(prior, start);
    PriorUpto(prior, rows, start);
    AfterIsSuffix(rows, start);
    LastUpto(prior, rows);
    AfterIsSuffix(rows, prior[|prior| - 1].id);
    SuffixJoin(prior, rows, a);
  }

  /** What a poll returns continues what was handed over, up to the log as the poll sees it. */
  lemma PollContinues(seen: seq<Log>, i: nat, start: int, got: seq<LogRow>, lastId: int)
    requires Growing(seen) && i < |seen| && Followed(seen, i, start, got, lastId)
    ensures got + After(seen[i].rows, lastId) == After(seen[i].rows, start)
  {
    assert Continues(seen[i - 1], seen[i]);
    if got != [] {
      PollOnward(seen[i - 1].rows, seen[i].rows, start);
    }
  }

  lemma PollStep(seen: seq<Log>, i: nat, start: int, got: seq<LogRow>, lastId: int)
    requires Growing(seen) && i < |seen| && Followed(seen, i, start, got, lastId)
    ensures var events := After(seen[i].rows, lastId);
            Followed(seen, i + 1, start, got + events, if events == [] then lastId else MaxId(events))
  {
    PollContinues(seen, i, start, got, lastId);
  }

  lemma ConcatMore(batches: seq<seq<LogRow>>, more: seq<LogRow>)
    ensures Concat(batches + [more]) == Concat(batches) + more
    ensures more == [] ==> Concat(batches) + more == Concat(batches)
  {
    assert (batches + [more])[..|batches|] == batches;
  }

  /**
   * A subscriber whose queries fall at points of any run of the database: the batches it hands over
   * are, one after another, exactly the rows committed after the highest id it started from.
   */
  lemma PollsOfARunGrow(dbs: seq<Database>, steps: seq<Step>, times: seq<nat>, seen: seq<Log>)
    requires IsRun(dbs, steps) && |seen| == |times|
    requires forall k | 0 <= k < |times| :: times[k] < |dbs| && seen[k] == dbs[times[k]].committed
    requires forall k, m | 0 <= k < m < |times| :: times[k] <= times[m]
    ensures Growing(seen)
    ensures forall k | 0 <= k < |seen| :: seen[0].rows <= seen[k].rows
              && After(seen[k].rows, MaxId(seen[0].rows)) == seen[k].rows[|seen[0].rows|..]
  {
    forall k, m | 0 <= k <= m < |seen| ensures Continues(seen[k], seen[m]) {
      VisibleLogContinues(dbs, steps, times[k], times[m]);
    }
    forall k | 0 <= k < |seen|
      ensures seen[0].rows <= seen[k].rows && After(seen[k].rows, MaxId(seen[0].rows)) == seen[k].rows[|seen[0].rows|..]
    {
      assert Continues(seen[0], seen[k]);
      UptoUnique(seen[k].rows, MaxId(seen[0].rows), |seen[0].rows|);
      AfterIsSuffix(seen[k].rows, MaxId(seen[0].rows));
    }
  }
}
