/** The append-only `change_log` table and the two queries that read it by id. */
module ChangeLog {
  import opened Wrappers

  /** One local git worktree, as stored, logged and sent to clients. */
  datatype WorktreeRow = WorktreeRow(
    origin: string, clone: string, worktree: string, branch: string,
    head: string, isMain: bool, dirty: bool)

  datatype Entity = Worktree | PullRequest | RepoEvent | Notification | Branch

  datatype ChangeEvent = Inserted | Updated | Deleted

  /** The JSON payloads the server writes: a full worktree row, or the path of a deleted one. */
  datatype Payload = RowPayload(row: WorktreeRow) | PathPayload(path: string)

  datatype LogRow = LogRow(
    id: int, entity: Entity, entityId: int, event: ChangeEvent,
    slug: Option<string>, payload: Option<Payload>)

  /** `last` is the AUTOINCREMENT counter: no id at or below it is ever given out again. */
  datatype Log = Log(rows: seq<LogRow>, last: nat) {
    ghost predicate Valid() {
      && Ascending(rows)
      && forall i | 0 <= i < |rows| :: 0 < rows[i].id <= last
    }

    function Append(entity: Entity, entityId: int, event: ChangeEvent,
                    slug: Option<string>, payload: Option<Payload>): (r: Log)
      ensures Valid() ==> r.Valid()
      ensures r.last == last + 1 && |r.rows| == |rows| + 1 && rows <= r.rows
    {
      Log(rows + [LogRow(last + 1, entity, entityId, event, slug, payload)], last + 1)
    }
  }

  ghost predicate Ascending(rows: seq<LogRow>) {
    forall i, j | 0 <= i < j < |rows| :: rows[i].id < rows[j].id
  }

  /** log' continues log, and every added row has a larger id than any id log has given out. */
  ghost predicate Extends(log: Log, log': Log) {
    && log'.Valid() && log.rows <= log'.rows && log.last <= log'.last
    && forall i | |log.rows| <= i < |log'.rows| :: log'.rows[i].id > log.last
  }

  /** SELECT ... WHERE id > cursor ORDER BY id. */
  function After(rows: seq<LogRow>, cursor: int): seq<LogRow> {
    if rows == [] then []
    else (if rows[0].id > cursor then [rows[0]] else []) + After(rows[1..], cursor)
  }

  /** The rows with lo < id <= hi. */
  function Between(rows: seq<LogRow>, lo: int, hi: int): seq<LogRow> {
    if rows == [] then []
    else (if lo < rows[0].id <= hi then [rows[0]] else []) + Between(rows[1..], lo, hi)
  }

  /** The number of rows with id <= cursor. */
  function Upto(rows: seq<LogRow>, cursor: int): (n: nat)
    ensures n <= |rows|
  {
    if rows == [] then 0
    else (if rows[0].id <= cursor then 1 else 0) + Upto(rows[1..], cursor)
  }

  /** In an ascending log, Upto is the index where the ids pass the cursor. */
  lemma {:induction false} UptoSplits(rows: seq<LogRow>, cursor: int)
    requires Ascending(rows)
    ensures forall i | 0 <= i < |rows| :: rows[i].id <= cursor <==> i < Upto(rows, cursor)
  {
    if rows != [] {
      var tail := rows[1..];
      UptoSplits(tail, cursor);
      forall i | 0 <= i < |rows| ensures rows[i].id <= cursor <==> i < Upto(rows, cursor) {
        if i > 0 {
          assert rows[i] == tail[i - 1];
          assert rows[0].id < rows[i].id;
        }
      }
    }
  }

  lemma NoneUpto(rows: seq<LogRow>, cursor: int)
    requires Ascending(rows)
    requires forall i | 0 <= i < |rows| :: rows[i].id > cursor
    ensures Upto(rows, cursor) == 0
  {
    UptoSplits(rows, cursor);
  }

  lemma {:induction false} UptoUnique(rows: seq<LogRow>, cursor: int, n: nat)
    requires Ascending(rows) && n <= |rows|
    requires n > 0 ==> rows[n - 1].id <= cursor
    requires n < |rows| ==> cursor < rows[n].id
    ensures Upto(rows, cursor) == n
  {
    UptoSplits(rows, cursor);
  }

  /** A cursor query on an ascending log returns a suffix of it. */
  lemma {:induction false} AfterIsSuffix(rows: seq<LogRow>, cursor: int)
    requires Ascending(rows)
    ensures After(rows, cursor) == rows[Upto(rows, cursor)..]
  {
    if rows != [] {
      var tail := rows[1..];
      AfterIsSuffix(tail, cursor);
      UptoSplits(rows, cursor);
      if rows[0].id > cursor {
        NoneUpto(rows, cursor);
        NoneUpto(tail, cursor);
      }
    }
  }

  lemma SliceShift(rows: seq<LogRow>, a: nat, b: nat)
    requires rows != [] && a <= b < |rows|
    ensures rows[1 + a..1 + b] == rows[1..][a..b]
    ensures a == 0 ==> rows[0..1 + b] == [rows[0]] + rows[1..][0..b]
  {
  }

  /** The rows between two cursors of an ascending log are a slice of it. */
  lemma {:induction false} BetweenIsSlice(rows: seq<LogRow>, lo: int, hi: int)
    requires Ascending(rows) && lo <= hi
    ensures Upto(rows, lo) <= Upto(rows, hi)
    ensures Between(rows, lo, hi) == rows[Upto(rows, lo)..Upto(rows, hi)]
  {
    if rows != [] {
      var tail := rows[1..];
      BetweenIsSlice(tail, lo, hi);
      SliceShift(rows, Upto(tail, lo), Upto(tail, hi));
      if rows[0].id > lo {
        NoneUpto(rows, lo);
        NoneUpto(tail, lo);
        if rows[0].id > hi {
          NoneUpto(rows, hi);
          NoneUpto(tail, hi);
        }
      }
    }
  }

  /** Filtering a fetch made from a smaller cursor gives the fetch from the larger one. */
  lemma {:induction false} AfterAfter(rows: seq<LogRow>, low: int, cursor: int)
    requires low <= cursor
    ensures After(After(rows, low), cursor) == After(rows, cursor)
  {
    if rows != [] {
      AfterAfter(rows[1..], low, cursor);
      var fetched, rest := After(rows, low), After(rows[1..], low);
      if rows[0].id > low {
        assert fetched[0] == rows[0] && fetched[1..] == rest;
      } else {
        assert fetched == rest;
      }
    }
  }

  /** Between selects exactly the rows with lo < id <= hi, in ascending order. */
  lemma BetweenIs(rows: seq<LogRow>, lo: int, hi: int)
    requires Ascending(rows) && lo <= hi
    ensures Ascending(Between(rows, lo, hi))
    ensures forall r :: r in Between(rows, lo, hi) <==> r in rows && lo < r.id <= hi
  {
    BetweenIsSlice(rows, lo, hi);
    UptoSplits(rows, lo);
    UptoSplits(rows, hi);
    var a, b := Upto(rows, lo), Upto(rows, hi);
    forall r | r in rows && lo < r.id <= hi ensures r in rows[a..b] {
      var k :| 0 <= k < |rows| && rows[k] == r;
      assert rows[a..b][k - a] == r;
    }
  }

  /** Moving a cursor over the first n rows after it moves exactly those rows. */
  lemma CursorMoves(rows: seq<LogRow>, lo: int, cursor: int, n: nat, id: int)
    requires Ascending(rows) && lo <= cursor
    requires 0 < n <= |After(rows, cursor)| && id == After(rows, cursor)[n - 1].id
    ensures id > cursor && After(rows, id) == After(rows, cursor)[n..]
    ensures Between(rows, lo, id) == Between(rows, lo, cursor) + After(rows, cursor)[..n]
  {
    var k, a := Upto(rows, lo), Upto(rows, cursor);
    AfterIsSuffix(rows, cursor);
    assert id == rows[a + n - 1].id;
    UptoSplits(rows, cursor);
    UptoUnique(rows, id, a + n);
    AfterIsSuffix(rows, id);
    BetweenIsSlice(rows, lo, cursor);
    BetweenIsSlice(rows, lo, id);
    SliceJoin(rows, k, a, n);
  }

  lemma SliceJoin(rows: seq<LogRow>, k: nat, a: nat, n: nat)
    requires k <= a && a + n <= |rows|
    ensures rows[k..a + n] == rows[k..a] + rows[a..][..n]
    ensures rows[a + n..] == rows[a..][n..]
  {
  }

  /** Appending rows with ids above hi changes nothing between lo and hi. */
  lemma {:induction false} BetweenAppend(rows: seq<LogRow>, more: seq<LogRow>, lo: int, hi: int)
    requires forall i | 0 <= i < |more| :: more[i].id > hi
    ensures Between(rows + more, lo, hi) == Between(rows, lo, hi)
    decreases |rows|, |more|
  {
    if rows == [] {
      assert rows + more == more;
      if more != [] {
        BetweenAppend([], more[1..], lo, hi);
        assert [] + more[1..] == more[1..];
      }
    } else {
      assert (rows + more)[1..] == rows[1..] + more;
      BetweenAppend(rows[1..], more, lo, hi);
    }
  }

  /** The events logged for one row of one table, oldest first. */
  function EventsOf(rows: seq<LogRow>, entity: Entity, id: int): seq<ChangeEvent> {
    if rows == [] then []
    else
      var last := rows[|rows| - 1];
      EventsOf(rows[..|rows| - 1], entity, id)
      + if last.entity == entity && last.entityId == id then [last.event] else []
  }

  lemma EventsOfAppend(log: Log, entity: Entity, id: int, event: ChangeEvent, slug: Option<string>, other: Entity,
                       otherId: int)
    ensures EventsOf(log.Append(entity, id, event, slug, None).rows, other, otherId)
            == EventsOf(log.rows, other, otherId) + if entity == other && id == otherId then [event] else []
  {
    var rows := log.Append(entity, id, event, slug, None).rows;
    assert rows[..|rows| - 1] == log.rows;
  }
}
