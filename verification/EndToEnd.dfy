/** From the bytes of a connection, which may break anywhere, to the client's copy of the table. */
module EndToEnd {
  import opened Wrappers
  import opened ChangeLog
  import opened Worktree
  import opened Broadcast
  import opened Replica
  import opened Replication
  import Sse
  import Utf8

  // A connection may break even inside a character of a frame; what the client's parser has handed over
  // by then is what the replication machine lets the client handle.

  /**
   * The bytes come from a connection to which the frames of `wire` were written in full and the frame
   * of `next` perhaps in part.
   */
  ghost predicate Received(render: LogRow -> string, wire: seq<LogRow>, next: LogRow, bytes: Sse.Chunk) {
    && bytes <= Utf8.Bytes(Sse.Frames(render, wire + [next]))
    && |bytes| < |Utf8.Bytes(Sse.Frames(render, wire + [next]))|
  }

  lemma {:induction false} NotAllWhole(render: LogRow -> string, rows: seq<LogRow>, n: nat)
    requires rows != [] && n < |Sse.Frames(render, rows)|
    ensures Sse.WholeFrames(render, rows, n) < |rows|
  {
    var frame := Sse.Frame(render, rows[0]);
    if n >= |frame| && |rows| > 1 {
      NotAllWhole(render, rows[1..], n - |frame|);
    }
  }

  /** What was read is the start of the stream's text, and not all of it. */
  lemma ReceivedText(render: LogRow -> string, rows: seq<LogRow>, chunks: seq<Sse.Chunk>)
    requires Sse.AllDecode(chunks) && Sse.Joined(chunks) <= Utf8.Bytes(Sse.Frames(render, rows))
    requires |Sse.Joined(chunks)| < |Utf8.Bytes(Sse.Frames(render, rows))|
    ensures Sse.TextOf(chunks) <= Sse.Frames(render, rows) && |Sse.TextOf(chunks)| < |Sse.Frames(render, rows)|
  {
    var all, bytes := Utf8.Bytes(Sse.Frames(render, rows)), Sse.Joined(chunks);
    assert bytes + all[|bytes|..] == all;
    Sse.DecodedAreFirst(chunks, all[|bytes|..], Sse.Frames(render, rows));
    Sse.TextIsJoined(chunks);
  }

  /** Whatever part of the stream has arrived, in chunks that could be read, a prefix of the wire is handed over. */
  lemma ReceivedIsWire(render: LogRow -> string, decode: string -> Option<LogRow>, wire: seq<LogRow>, next: LogRow,
                       chunks: seq<Sse.Chunk>)
    requires Sse.Codec(render, decode) && Sse.AllDecode(chunks) && Received(render, wire, next, Sse.Joined(chunks))
    ensures Sse.Events(decode, Sse.TextOf(chunks)) <= wire
  {
    var rows := wire + [next];
    ReceivedText(render, rows, chunks);
    var n := |Sse.TextOf(chunks)|;
    assert Sse.TextOf(chunks) == Sse.Frames(render, rows)[..n];
    Sse.StreamDeliversWholeFrames(render, decode, rows, n);
    NotAllWhole(render, rows, n);
    assert rows[..Sse.WholeFrames(render, rows, n)] <= wire;
  }

  /** The rows a client had handled before it opened its present connection. */
  function Before(c: Consumer): seq<LogRow>
    requires c.read <= |c.handled|
  {
    c.handled[..|c.handled| - c.read]
  }

  /** The rows written to a client's connection are the log from where the client was when it opened it. */
  lemma WireContinues(h: Hub, c: Consumer, b: SseClient, m: nat)
    requires HubInv(h) && ConsumerInv(h, c) && (b in h.clients || b in h.gone) && c.conn == Some(b.conn)
             && m <= |b.wire|
    ensures c.read <= |c.handled| && Before(c) + b.wire[..m] <= h.log.rows
  {
    var rows, a, z := h.log.rows, Upto(h.log.rows, b.joined), Upto(h.log.rows, b.lastSentId);
    assert Exact(h.log, b) && b.joined == c.since;
    BetweenIsSlice(rows, b.joined, b.lastSentId);
    assert Before(c) == rows[..a];
    assert rows[..a] + rows[a..z][..m] == rows[..a + m];
  }

  /**
   * End to end, bytes included. In every run, take a client and its connection at any moment, the
   * connection perhaps already broken inside a frame or a character. What its parser has handed over
   * from the chunks it read, after what the client had handled before, is a prefix of the log, each
   * row once and in order; and as long as no round died half way, applying it gives the table as of
   * that position.
   */
  lemma BytesBuildTheTable(states: seq<System>, steps: seq<Step>, i: nat, k: nat, b: SseClient, next: LogRow,
                           render: LogRow -> string, decode: string -> Option<LogRow>, chunks: seq<Sse.Chunk>)
    requires Replication.IsRun(states, steps) && i < |states| && k in states[i].consumers
    requires (b in states[i].hub.clients || b in states[i].hub.gone) && states[i].consumers[k].conn == Some(b.conn)
    requires Sse.Codec(render, decode) && Sse.AllDecode(chunks) && Received(render, b.wire, next, Sse.Joined(chunks))
    ensures var s, c, got := states[i], states[i].consumers[k], Sse.Events(decode, Sse.TextOf(chunks));
            && c.read <= |c.handled| && got <= b.wire && Before(c) + got <= s.hub.log.rows
            && |s.tables| == |s.hub.log.rows| + 1
            && (!s.torn ==> Replay(Before(c) + got) == s.tables[|Before(c) + got|])
  {
    Replication.RunKeepsInv(states, steps, i);
    var s, c, got := states[i], states[i].consumers[k], Sse.Events(decode, Sse.TextOf(chunks));
    assert ConsumerInv(s.hub, c);
    ReceivedIsWire(render, decode, b.wire, next, chunks);
    WireContinues(s.hub, c, b, |got|);
    assert got == b.wire[..|got|];
    assert s.hub.log.rows[..|Before(c) + got|] == Before(c) + got;
  }

  /** The system after the client has handled n more rows of its connection. */
  ghost function HandleMore(s: System, k: nat, b: SseClient, n: nat): System {
    var c := ConsumerOf(s, k);
    if n == 0 then s
    else
      var before := HandleMore(s, k, b, n - 1);
      if Replication.Enabled(before, Handle(k, b)) then Replication.Next(before, Handle(k, b)) else before
  }

  /** From s, the client has handled n rows of its connection and nothing else has changed. */
  ghost predicate HandledTo(s: System, s': System, k: nat, b: SseClient, n: nat) {
    && Inv(s') && s'.hub == s.hub && s'.tables == s.tables
    && k in s.consumers && k in s'.consumers && n <= |b.wire|
    && s'.consumers[k] == s.consumers[k].(handled := s.consumers[k].handled + b.wire[..n], read := n)
  }

  lemma OneMoreRow(s: System, s': System, k: nat, b: SseClient, n: nat)
    requires HandledTo(s, s', k, b, n) && n < |b.wire|
    requires s.consumers[k].conn == Some(b.conn) && (b in s.hub.clients || b in s.hub.gone)
    ensures Replication.Enabled(s', Handle(k, b)) && HandledTo(s, Replication.Next(s', Handle(k, b)), k, b, n + 1)
  {
    assert Replication.Enabled(s', Handle(k, b));
    StepKeepsInv(s', Handle(k, b));
    assert s.consumers[k].handled + b.wire[..n + 1] == (s.consumers[k].handled + b.wire[..n]) + [b.wire[n]];
  }

  /**
   * And the machine takes exactly these steps: from a client that has just connected, each row that the
   * parser hands over is one step of the machine, and after them the client has handled just these.
   */
  lemma {:induction false} ParserStepsAreSteps(s: System, k: nat, b: SseClient, n: nat)
    requires Inv(s) && k in s.consumers && s.consumers[k].conn == Some(b.conn) && s.consumers[k].read == 0
    requires (b in s.hub.clients || b in s.hub.gone) && n <= |b.wire|
    ensures HandledTo(s, HandleMore(s, k, b, n), k, b, n)
  {
    if n > 0 {
      ParserStepsAreSteps(s, k, b, n - 1);
      OneMoreRow(s, HandleMore(s, k, b, n - 1), k, b, n - 1);
    } else {
      assert s.consumers[k].handled + b.wire[..0] == s.consumers[k].handled;
    }
  }
}
