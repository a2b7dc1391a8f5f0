/** Fanning the change log out to many SSE clients, each with its own cursor, from one query a tick. */
module Broadcast {
  import opened ChangeLog

  // A client's socket is modelled by `wire`, the rows whose frames have been written to it in full;
  // `joined` is the cursor it registered with. How much a socket takes before a write fails is up to
  // the environment: `quota[i]` frames for client i, or everything if i is out of range.
  datatype SseClient = SseClient(conn: nat, joined: int, lastSentId: int, wire: seq<LogRow>)

  function Allowance(quota: seq<nat>, i: nat, wanted: nat): nat {
    if i < |quota| && quota[i] < wanted then quota[i] else wanted
  }

  /** The client after `n` of the rows above its cursor were written to it. */
  function Serve(rows: seq<LogRow>, c: SseClient, n: nat): SseClient
    requires n <= |After(rows, c.lastSentId)|
  {
    var due := After(rows, c.lastSentId);
    c.(wire := c.wire + due[..n], lastSentId := if n == 0 then c.lastSentId else due[n - 1].id)
  }

  function Served(rows: seq<LogRow>, c: SseClient, quota: seq<nat>, i: nat): SseClient {
    Serve(rows, c, Allowance(quota, i, |After(rows, c.lastSentId)|))
  }

  predicate Survives(rows: seq<LogRow>, c: SseClient, quota: seq<nat>, i: nat) {
    Allowance(quota, i, |After(rows, c.lastSentId)|) == |After(rows, c.lastSentId)|
  }

  /** The clients that took everything they were due; `true` selects those whose socket failed instead. */
  function Outcome(rows: seq<LogRow>, cs: seq<SseClient>, quota: seq<nat>, failed: bool): seq<SseClient> {
    if cs == [] then []
    else
      var i := |cs| - 1;
      Outcome(rows, cs[..i], quota, failed)
      + if Survives(rows, cs[i], quota, i) != failed then [Served(rows, cs[i], quota, i)] else []
  }

  ghost predicate Smallest(cs: seq<SseClient>, m: int) {
    && (forall c | c in cs :: m <= c.lastSentId)
    && exists c :: c in cs && c.lastSentId == m
  }

  class Broadcaster {
    var clients: seq<SseClient>
    var nextConn: nat

    constructor ()
      ensures clients == [] && nextConn == 0
    {
      clients, nextConn := [], 0;
    }

    /** GET /events with its Last-Event-ID, which is 0 when the header is missing or malformed. */
    method Register(lastEventId: int)
      modifies this
      ensures clients == old(clients) + [SseClient(old(nextConn), lastEventId, lastEventId, [])]
      ensures nextConn == old(nextConn) + 1
    {
      clients := clients + [SseClient(nextConn, lastEventId, lastEventId, [])];
      nextConn := nextConn + 1;
    }

    /** One round of the loop against the committed log; `gone` are the clients it drops. */
    method Tick(log: seq<LogRow>, fetchOk: bool, quota: seq<nat>) returns (gone: seq<SseClient>)
      modifies this`clients
      ensures clients == if fetchOk then Outcome(log, old(clients), quota, false) else old(clients)
      ensures gone == if fetchOk then Outcome(log, old(clients), quota, true) else []
    {
      gone := [];
      if clients == [] || !fetchOk {
        return;
      }
      var minId := MinCursor(clients);
      var rows := After(log, minId);
      if rows == [] {
        NothingDue(log, clients, quota, minId);
        return;
      }
      var keep := [];
      for i := 0 to |clients|
        invariant clients == old(clients)
        invariant keep == Outcome(log, clients[..i], quota, false)
        invariant gone == Outcome(log, clients[..i], quota, true)
      {
        AfterAfter(log, minId, clients[i].lastSentId);
        var client, ok := WriteDue(rows, clients[i], quota, i, log);
        assert clients[..i + 1][..i] == clients[..i];
        if ok {
          keep := keep + [client];
        } else {
          gone := gone + [client];
        }
      }
      assert clients[..|clients|] == clients;
      clients := keep;
    }
  }

  /** Writes the fetched rows above the client's cursor until its socket fails. */
  method WriteDue(rows: seq<LogRow>, c: SseClient, quota: seq<nat>, i: nat, ghost log: seq<LogRow>)
    returns (client: SseClient, ok: bool)
    requires After(rows, c.lastSentId) == After(log, c.lastSentId)
    ensures client == Served(log, c, quota, i) && ok == Survives(log, c, quota, i)
  {
    client := c;
    var due := After(rows, c.lastSentId);
    var n := 0;
    while n < |due| && (i < |quota| ==> n < quota[i])
      invariant n <= Allowance(quota, i, |due|)
      invariant client == Serve(log, c, n)
    {
      assert due[..n + 1] == due[..n] + [due[n]];
      client := client.(wire := client.wire + [due[n]], lastSentId := due[n].id);
      n := n + 1;
    }
    ok := n == |due|;
  }

  method MinCursor(cs: seq<SseClient>) returns (m: int)
    requires cs != []
    ensures Smallest(cs, m)
  {
    m := cs[0].lastSentId;
    for i := 0 to |cs|
      invariant forall j | 0 <= j < i :: m <= cs[j].lastSentId
      invariant exists c :: c in cs && c.lastSentId == m
    {
      if cs[i].lastSentId < m {
        m := cs[i].lastSentId;
      }
    }
  }

  lemma NothingDueOne(log: seq<LogRow>, c: SseClient, quota: seq<nat>, i: nat, m: int)
    requires After(log, m) == [] && m <= c.lastSentId
    ensures Served(log, c, quota, i) == c && Survives(log, c, quota, i)
  {
    AfterAfter(log, m, c.lastSentId);
  }

  lemma {:induction false} NothingDue(log: seq<LogRow>, cs: seq<SseClient>, quota: seq<nat>, m: int)
    requires After(log, m) == [] && forall c | c in cs :: m <= c.lastSentId
    ensures Outcome(log, cs, quota, false) == cs && Outcome(log, cs, quota, true) == []
  {
    if cs != [] {
      var i := |cs| - 1;
      NothingDue(log, cs[..i], quota, m);
      NothingDueOne(log, cs[i], quota, i, m);
    }
  }

  // ---- every run of the hub ------------------------------------------------------

  datatype Hub = Hub(log: Log, clients: seq<SseClient>, gone: seq<SseClient>, nextConn: nat)

  datatype HubStep =
    | Commit(log: Log)
    | Register(lastEventId: int)
    | Tick(fetchOk: bool, quota: seq<nat>)

  ghost predicate Enabled(h: Hub, step: HubStep) {
    step.Commit? ==> Extends(h.log, step.log)
  }

  function Next(h: Hub, step: HubStep): Hub {
    match step
    case Commit(log) => h.(log := log)
    case Register(id) => h.(clients := h.clients + [SseClient(h.nextConn, id, id, [])], nextConn := h.nextConn + 1)
    case Tick(fetchOk, quota) =>
      if fetchOk then
        h.(clients := Outcome(h.log.rows, h.clients, quota, false),
           gone := h.gone + Outcome(h.log.rows, h.clients, quota, true))
      else h
  }

  /** What was written to the client is the log between its join cursor and its cursor. */
  ghost predicate Exact(log: Log, c: SseClient) {
    && c.wire == Between(log.rows, c.joined, c.lastSentId)
    && (c.lastSentId == c.joined || c.joined < c.lastSentId <= log.last)
  }

  ghost predicate HubInv(h: Hub) {
    && h.log.Valid()
    && (forall c | c in h.clients :: Exact(h.log, c))
    && (forall c | c in h.gone :: Exact(h.log, c))
  }

  lemma {:induction false} NothingBetween(rows: seq<LogRow>, c: int)
    ensures Between(rows, c, c) == []
  {
    if rows != [] {
      NothingBetween(rows[1..], c);
    }
  }

  lemma ServeExact(log: Log, c: SseClient, n: nat)
    requires log.Valid() && Exact(log, c) && n <= |After(log.rows, c.lastSentId)|
    ensures Exact(log, Serve(log.rows, c, n))
    ensures n == |After(log.rows, c.lastSentId)| ==> After(log.rows, Serve(log.rows, c, n).lastSentId) == []
  {
    if n > 0 {
      var id := After(log.rows, c.lastSentId)[n - 1].id;
      CursorMoves(log.rows, c.joined, c.lastSentId, n, id);
      LastOfAfter(log, id, c.lastSentId, n);
    } else {
      assert Serve(log.rows, c, 0) == c;
    }
  }

  lemma LastOfAfter(log: Log, id: int, cursor: int, n: nat)
    requires log.Valid() && 0 < n <= |After(log.rows, cursor)| && id == After(log.rows, cursor)[n - 1].id
    ensures id <= log.last
  {
    AfterIsSuffix(log.rows, cursor);
  }

  lemma {:induction false} OutcomeExact(log: Log, cs: seq<SseClient>, quota: seq<nat>, failed: bool)
    requires log.Valid() && forall c | c in cs :: Exact(log, c)
    ensures forall c | c in Outcome(log.rows, cs, quota, failed) :: Exact(log, c)
    ensures forall c | c in Outcome(log.rows, cs, quota, failed) ::
              exists b :: b in cs && b.conn == c.conn && b.joined == c.joined && b.wire <= c.wire
    ensures !failed ==> forall c | c in Outcome(log.rows, cs, quota, failed) :: After(log.rows, c.lastSentId) == []
  {
    if cs != [] {
      var i := |cs| - 1;
      OutcomeExact(log, cs[..i], quota, failed);
      assert cs[i] in cs;
      ServeExact(log, cs[i], Allowance(quota, i, |After(log.rows, cs[i].lastSentId)|));
    }
  }

  lemma ExactExtends(log: Log, log': Log, c: SseClient)
    requires Exact(log, c) && Extends(log, log')
    ensures Exact(log', c)
  {
    var more := log'.rows[|log.rows|..];
    assert log'.rows == log.rows + more;
    if c.lastSentId == c.joined {
      NothingBetween(log.rows, c.joined);
      NothingBetween(log'.rows, c.joined);
    } else {
      BetweenAppend(log.rows, more, c.joined, c.lastSentId);
    }
  }

  lemma NextKeepsInv(h: Hub, step: HubStep)
    requires HubInv(h) && Enabled(h, step)
    ensures HubInv(Next(h, step))
  {
    match step
    case Commit(log) =>
      forall c | c in h.clients || c in h.gone ensures Exact(log, c) {
        ExactExtends(h.log, log, c);
      }
    case Register(id) =>
      NothingBetween(h.log.rows, id);
    case Tick(_, quota) =>
      OutcomeExact(h.log, h.clients, quota, false);
      OutcomeExact(h.log, h.clients, quota, true);
  }

  /** A run from a server that has just started, on whatever the log then holds. */
  ghost predicate IsRun(hubs: seq<Hub>, steps: seq<HubStep>) {
    && |hubs| == |steps| + 1
    && hubs[0].log.Valid() && hubs[0].clients == [] && hubs[0].gone == []
    && forall i | 0 <= i < |steps| :: Enabled(hubs[i], steps[i]) && hubs[i + 1] == Next(hubs[i], steps[i])
  }

  lemma {:induction false} RunKeepsInv(hubs: seq<Hub>, steps: seq<HubStep>, i: nat)
    requires IsRun(hubs, steps) && i < |hubs|
    ensures HubInv(hubs[i])
  {
    if i > 0 {
      RunKeepsInv(hubs, steps, i - 1);
      NextKeepsInv(hubs[i - 1], steps[i - 1]);
    }
  }

  /**
   * At every point of every run, whatever the other clients, failed queries and failed writes do,
   * the rows written in full to a client, still connected or already dropped, are exactly the log
   * rows above its join cursor and up to its own cursor, in ascending order of id.
   */
  lemma DeliveryIsExact(hubs: seq<Hub>, steps: seq<HubStep>, i: nat, c: SseClient)
    requires IsRun(hubs, steps) && i < |hubs|
    requires c in hubs[i].clients || c in hubs[i].gone
    ensures c.wire == Between(hubs[i].log.rows, c.joined, c.lastSentId)
    ensures Ascending(c.wire)
    ensures forall r | r in c.wire :: r in hubs[i].log.rows && c.joined < r.id <= c.lastSentId
    ensures forall r | r in hubs[i].log.rows && c.joined < r.id <= c.lastSentId :: r in c.wire
  {
    RunKeepsInv(hubs, steps, i);
    BetweenIs(hubs[i].log.rows, c.joined, c.lastSentId);
  }

  /** A tick whose query succeeds leaves no kept client behind the log. */
  lemma TickCatchesUp(h: Hub, quota: seq<nat>)
    requires HubInv(h)
    ensures forall c | c in Next(h, Tick(true, quota)).clients :: After(h.log.rows, c.lastSentId) == []
  {
    OutcomeExact(h.log, h.clients, quota, false);
  }
}
