/** The incremental parser of the client's event stream. */
module Sse {
  import opened Wrappers
  import opened ChangeLog
  import opened Text
  import Utf8

  // `decode` stands for deserialising one event from JSON text and `render` for the server's JSON of
  // one row; the text theorems hold for every pair in which decoding undoes rendering.

  // ---- the line machine ---------------------------------------------------------

  /** The parser between two lines: the data of the event being read, and the data delivered so far. */
  datatype Parser = Parser(data: string, delivered: seq<string>)

  function OnLine(p: Parser, line: string): Parser {
    var text := DropTrailing(line, '\r');
    if StartsWith(text, "data:") then p.(data := Trim(text[5..]))
    else if Trim(text) == [] && p.data != [] then Parser([], p.delivered + [p.data])
    else p
  }

  /** All complete lines of the text, in order; what follows the last newline is left over. */
  function Lines(p: Parser, text: string): (Parser, string)
    decreases |text|
  {
    var i := Find(text, '\n');
    if i == |text| then (p, text) else Lines(OnLine(p, text[..i]), text[i + 1..])
  }

  lemma FindInFirst(a: string, b: string)
    requires Find(a, '\n') < |a|
    ensures var i := Find(a, '\n');
            Find(a + b, '\n') == i && (a + b)[..i] == a[..i] && (a + b)[i + 1..] == a[i + 1..] + b
  {
    FindIs(a + b, '\n', Find(a, '\n'));
  }

  /** Parsing in two pieces, carrying over the unfinished line, is parsing in one. */
  lemma {:induction false} LinesSplit(p: Parser, a: string, b: string)
    ensures Lines(p, a + b) == (var (q, rest) := Lines(p, a); Lines(q, rest + b))
    decreases |a|
  {
    var i := Find(a, '\n');
    if i < |a| {
      FindInFirst(a, b);
      LinesSplit(OnLine(p, a[..i]), a[i + 1..], b);
    }
  }

  lemma {:induction false} LinesDeliverMore(p: Parser, text: string)
    ensures p.delivered <= Lines(p, text).0.delivered
    decreases |text|
  {
    var i := Find(text, '\n');
    if i < |text| {
      LinesDeliverMore(OnLine(p, text[..i]), text[i + 1..]);
    }
  }

  lemma OneLine(p: Parser, line: string, rest: string)
    requires '\n' !in line
    ensures Lines(p, line + "\n" + rest) == Lines(OnLine(p, line), rest)
  {
    var text := line + "\n" + rest;
    FindIs(text, '\n', |line|);
    assert text[..|line|] == line && text[|line| + 1..] == rest;
  }

  // ---- what the server writes --------------------------------------------------------

  /** Rendering gives one line of non-empty text without outer whitespace, and decoding undoes it. */
  ghost predicate Codec(render: LogRow -> string, decode: string -> Option<LogRow>) {
    forall r :: render(r) != [] && '\n' !in render(r) && Trimmed(render(r)) && decode(render(r)) == Some(r)
  }

  function FrameBody(render: LogRow -> string, r: LogRow): string {
    "id: " + IdText(r.id) + "\n" + "data: " + render(r) + "\n"
  }

  function Frame(render: LogRow -> string, r: LogRow): string {
    FrameBody(render, r) + "\n"
  }

  function Frames(render: LogRow -> string, rows: seq<LogRow>): string {
    if rows == [] then [] else Frame(render, rows[0]) + Frames(render, rows[1..])
  }

  function Rendered(render: LogRow -> string, rows: seq<LogRow>): seq<string> {
    if rows == [] then [] else [render(rows[0])] + Rendered(render, rows[1..])
  }

  /** The events in the delivered data; data that does not decode is skipped. */
  function Decoded(decode: string -> Option<LogRow>, datas: seq<string>): seq<LogRow> {
    if datas == [] then []
    else
      var n := |datas| - 1;
      Decoded(decode, datas[..n]) + match decode(datas[n]) case None => [] case Some(r) => [r]
  }

  lemma OnIdLine(p: Parser, id: int)
    ensures OnLine(p, "id: " + IdText(id)) == p
  {
    var line := "id: " + IdText(id);
    assert line[|line| - 1] == IdText(id)[|IdText(id)| - 1] != '\r';
    TrimEndKeepsFirst(line);
    assert line[0] == 'i';
  }

  lemma OnDataLine(p: Parser, json: string)
    requires json != [] && Trimmed(json)
    ensures OnLine(p, "data: " + json) == p.(data := json)
  {
    var line := "data: " + json;
    assert line[|line| - 1] == json[|json| - 1];
    assert line[5..] == " " + json && line[..5] == "data:";
    TrimLeadingSpace(json);
  }

  lemma BodyText(render: LogRow -> string, r: LogRow, rest: string)
    ensures FrameBody(render, r) + rest == ("id: " + IdText(r.id)) + "\n" + (("data: " + render(r)) + "\n" + rest)
  {
  }

  lemma BodyLines(render: LogRow -> string, decode: string -> Option<LogRow>, r: LogRow, p: Parser, rest: string)
    requires Codec(render, decode)
    ensures Lines(p, FrameBody(render, r) + rest) == Lines(p.(data := render(r)), rest)
  {
    BodyText(render, r, rest);
    OnIdLine(p, r.id);
    OneLine(p, "id: " + IdText(r.id), ("data: " + render(r)) + "\n" + rest);
    OnDataLine(p, render(r));
    OneLine(p, "data: " + render(r), rest);
  }

  lemma FrameText(render: LogRow -> string, r: LogRow, rest: string)
    ensures Frame(render, r) + rest == FrameBody(render, r) + ([] + "\n" + rest)
  {
  }

  lemma FrameLines(render: LogRow -> string, decode: string -> Option<LogRow>, r: LogRow, p: Parser, rest: string)
    requires Codec(render, decode)
    ensures Lines(p, Frame(render, r) + rest) == Lines(Parser([], p.delivered + [render(r)]), rest)
  {
    FrameText(render, r, rest);
    BodyLines(render, decode, r, p, [] + "\n" + rest);
    OneLine(p.(data := render(r)), [], rest);
  }

  /** A frame that stops short of its last newline delivers nothing. */
  lemma PartialFrameDeliversNothing(render: LogRow -> string, decode: string -> Option<LogRow>, r: LogRow,
                                    p: Parser, text: string)
    requires Codec(render, decode) && text <= FrameBody(render, r)
    ensures Lines(p, text).0.delivered == p.delivered
  {
    var rest := FrameBody(render, r)[|text|..];
    assert FrameBody(render, r) == text + rest;
    LinesSplit(p, text, rest);
    var (q, left) := Lines(p, text);
    LinesDeliverMore(p, text);
    LinesDeliverMore(q, left + rest);
    BodyLines(render, decode, r, p, []);
    assert FrameBody(render, r) + [] == FrameBody(render, r);
  }

  /** How many whole frames the first n characters of the stream hold. */
  function WholeFrames(render: LogRow -> string, rows: seq<LogRow>, n: nat): (k: nat)
    ensures k <= |rows|
  {
    if rows == [] || n < |Frame(render, rows[0])| then 0
    else 1 + WholeFrames(render, rows[1..], n - |Frame(render, rows[0])|)
  }

  /** The first n characters of the stream deliver exactly the rows whose frames lie within them. */
  lemma {:induction false} PrefixDelivers(render: LogRow -> string, decode: string -> Option<LogRow>,
                                          rows: seq<LogRow>, n: nat, done: seq<string>)
    requires Codec(render, decode) && n <= |Frames(render, rows)|
    ensures Lines(Parser([], done), Frames(render, rows)[..n]).0.delivered
            == done + Rendered(render, rows[..WholeFrames(render, rows, n)])
    decreases |rows|
  {
    var text := Frames(render, rows)[..n];
    if rows != [] {
      var frame, tail := Frame(render, rows[0]), rows[1..];
      if n < |frame| {
        FramesCut(render, rows, n);
        PartialFrameDeliversNothing(render, decode, rows[0], Parser([], done), text);
        assert rows[..0] == [];
      } else {
        var rest, done' := Frames(render, tail)[..n - |frame|], done + [render(rows[0])];
        FramesCut(render, rows, n);
        FrameLines(render, decode, rows[0], Parser([], done), rest);
        PrefixDelivers(render, decode, tail, n - |frame|, done');
        RenderedStep(render, rows, WholeFrames(render, tail, n - |frame|), done);
      }
    }
  }

  lemma FramesCut(render: LogRow -> string, rows: seq<LogRow>, n: nat)
    requires rows != [] && n <= |Frames(render, rows)|
    ensures var frame := Frame(render, rows[0]);
            if n < |frame| then Frames(render, rows)[..n] <= FrameBody(render, rows[0])
            else Frames(render, rows)[..n] == frame + Frames(render, rows[1..])[..n - |frame|]
  {
    if n < |Frame(render, rows[0])| {
      assert Frames(render, rows)[..n] == FrameBody(render, rows[0])[..n];
    }
  }

  lemma RenderedStep(render: LogRow -> string, rows: seq<LogRow>, k: nat, done: seq<string>)
    requires rows != [] && k < |rows|
    ensures done + Rendered(render, rows[..k + 1]) == done + [render(rows[0])] + Rendered(render, rows[1..][..k])
  {
    assert rows[..k + 1][1..] == rows[1..][..k];
  }

  lemma {:induction false} AllWhole(render: LogRow -> string, rows: seq<LogRow>)
    ensures WholeFrames(render, rows, |Frames(render, rows)|) == |rows|
  {
    if rows != [] {
      AllWhole(render, rows[1..]);
    }
  }

  lemma {:induction false} DecodedAppend(decode: string -> Option<LogRow>, a: seq<string>, b: seq<string>)
    ensures Decoded(decode, a + b) == Decoded(decode, a) + Decoded(decode, b)
  {
    if b == [] {
      assert a + b == a;
    } else {
      assert (a + b)[..|a + b| - 1] == a + b[..|b| - 1];
      DecodedAppend(decode, a, b[..|b| - 1]);
    }
  }

  lemma {:induction false} DecodedRendered(render: LogRow -> string, decode: string -> Option<LogRow>,
                                           rows: seq<LogRow>)
    requires Codec(render, decode)
    ensures Decoded(decode, Rendered(render, rows)) == rows
  {
    if rows != [] {
      DecodedRendered(render, decode, rows[1..]);
      DecodedAppend(decode, [render(rows[0])], Rendered(render, rows[1..]));
    }
  }

  /** The events that a text delivers to a fresh parser. */
  function Events(decode: string -> Option<LogRow>, text: string): seq<LogRow> {
    Decoded(decode, Lines(Parser([], []), text).0.delivered)
  }

  /**
   * Whatever part of the server's stream has arrived, the client has been handed exactly the rows
   * whose frames arrived whole, in order; a frame cut off by a lost connection is not handed over.
   */
  lemma StreamDeliversWholeFrames(render: LogRow -> string, decode: string -> Option<LogRow>,
                                  rows: seq<LogRow>, n: nat)
    requires Codec(render, decode) && n <= |Frames(render, rows)|
    ensures Events(decode, Frames(render, rows)[..n]) == rows[..WholeFrames(render, rows, n)]
    ensures n == |Frames(render, rows)| ==> Events(decode, Frames(render, rows)[..n]) == rows
  {
    var whole := rows[..WholeFrames(render, rows, n)];
    PrefixDelivers(render, decode, rows, n, []);
    assert [] + Rendered(render, whole) == Rendered(render, whole);
    DecodedRendered(render, decode, whole);
    if n == |Frames(render, rows)| {
      AllWhole(render, rows);
      assert whole == rows;
    }
  }

  // ---- chunks of bytes ---------------------------------------------------------------

  type Chunk = seq<Utf8.byte>

  function Joined(chunks: seq<Chunk>): seq<Utf8.byte> {
    if chunks == [] then [] else Joined(chunks[..|chunks| - 1]) + chunks[|chunks| - 1]
  }

  predicate IsText(chunk: Chunk) {
    Utf8.Decode(chunk).Some?
  }

  predicate AllDecode(chunks: seq<Chunk>) {
    forall i | 0 <= i < |chunks| :: IsText(chunks[i])
  }

  function TextOf(chunks: seq<Chunk>): string
    requires AllDecode(chunks)
  {
    if chunks == [] then []
    else TextOf(chunks[..|chunks| - 1]) + Utf8.Decode(chunks[|chunks| - 1]).value
  }

  /** No chunk starts in the middle of a character. */
  predicate CutBetweenCharacters(chunks: seq<Chunk>) {
    forall i | 0 <= i < |chunks| :: chunks[i] != [] ==> !Utf8.Continuation(chunks[i][0])
  }

  lemma CleanCut(text: string, b: Chunk, last: Chunk)
    requires b + last == Utf8.Bytes(text) && (last != [] ==> !Utf8.Continuation(last[0]))
    ensures IsText(last)
    ensures Utf8.Decode(b).Some? && Utf8.Bytes(Utf8.Decode(b).value) == b
  {
    Utf8.CutDecodes(text, b, last);
    Utf8.DecodeSound(b);
    Utf8.RoundTrip(text[|Utf8.Decode(b).value|..]);
  }

  lemma AllDecodeMore(chunks: seq<Chunk>, more: Chunk)
    requires AllDecode(chunks) && IsText(more)
    ensures AllDecode(chunks + [more])
  {
  }

  lemma {:induction false} CleanCutsDecode(chunks: seq<Chunk>, text: string)
    requires Joined(chunks) == Utf8.Bytes(text) && CutBetweenCharacters(chunks)
    ensures AllDecode(chunks)
  {
    if chunks != [] {
      var init, last := chunks[..|chunks| - 1], chunks[|chunks| - 1];
      CleanCut(text, Joined(init), last);
      CleanCutsDecode(init, Utf8.Decode(Joined(init)).value);
      AllDecodeMore(init, last);
      assert init + [last] == chunks;
    }
  }

  lemma {:induction false} TextIsJoined(chunks: seq<Chunk>)
    requires AllDecode(chunks)
    ensures Utf8.Bytes(TextOf(chunks)) == Joined(chunks)
  {
    if chunks != [] {
      var init, last := chunks[..|chunks| - 1], chunks[|chunks| - 1];
      TextIsJoined(init);
      Utf8.DecodeSound(last);
      Utf8.BytesConcat(TextOf(init), Utf8.Decode(last).value);
    }
  }

  lemma {:induction false} JoinedAppend(first: seq<Chunk>, later: seq<Chunk>)
    ensures Joined(first + later) == Joined(first) + Joined(later)
  {
    if later == [] {
      assert first + later == first;
    } else {
      var init, last := later[..|later| - 1], later[|later| - 1];
      JoinedAppend(first, init);
      assert (first + later)[..|first + later| - 1] == first + init && (first + later)[|first + later| - 1] == last;
    }
  }

  /** The chunks of an encoded text all decode exactly when every cut falls between characters. */
  lemma ChunksDecodeIff(chunks: seq<Chunk>, text: string)
    requires Joined(chunks) == Utf8.Bytes(text)
    ensures AllDecode(chunks) <==> CutBetweenCharacters(chunks)
  {
    if AllDecode(chunks) {
      forall i | 0 <= i < |chunks| && chunks[i] != [] ensures !Utf8.Continuation(chunks[i][0]) {
      }
    }
    if CutBetweenCharacters(chunks) {
      CleanCutsDecode(chunks, text);
    }
  }

  lemma EncodedPrefix(text: string, head: string, rest: Chunk)
    requires Utf8.Bytes(head) + rest == Utf8.Bytes(text)
    ensures head <= text && (rest == [] ==> head == text)
  {
    Utf8.RoundTrip(head);
    Utf8.CutDecodes(text, Utf8.Bytes(head), rest);
    if rest == [] {
      assert Utf8.Bytes(head) + [] == Utf8.Bytes(head);
      Utf8.RoundTrip(text);
    }
  }

  lemma DecodedAreFirst(first: seq<Chunk>, rest: Chunk, text: string)
    requires AllDecode(first) && Joined(first) + rest == Utf8.Bytes(text)
    ensures TextOf(first) <= text && (rest == [] ==> TextOf(first) == text)
  {
    TextIsJoined(first);
    EncodedPrefix(text, TextOf(first), rest);
  }

  /**
   * The server's stream for any rows, cut into chunks anywhere: the first chunks hand over exactly
   * the rows whose frames they complete, all of the rows once the last chunk is read, and every chunk
   * can be read exactly when no cut falls inside a character.
   */
  lemma ChunkedStream(render: LogRow -> string, decode: string -> Option<LogRow>, rows: seq<LogRow>,
                      first: seq<Chunk>, later: seq<Chunk>)
    requires Codec(render, decode) && Joined(first + later) == Utf8.Bytes(Frames(render, rows)) && AllDecode(first)
    ensures Events(decode, TextOf(first)) == rows[..WholeFrames(render, rows, |TextOf(first)|)]
    ensures later == [] ==> Events(decode, TextOf(first)) == rows
    ensures AllDecode(first + later) <==> CutBetweenCharacters(first + later)
  {
    var text, head := Frames(render, rows), TextOf(first);
    ChunksDecodeIff(first + later, text);
    JoinedAppend(first, later);
    DecodedAreFirst(first, Joined(later), text);
    assert head == text[..|head|];
    StreamDeliversWholeFrames(render, decode, rows, |head|);
  }

  ghost predicate AllOk(handlerOk: nat -> bool, n: nat) {
    forall k | 0 <= k < n :: handlerOk(k)
  }

  ghost predicate SameLines(p: Parser, text: string, q: Parser, rest: string) {
    Lines(p, text) == Lines(q, rest)
  }

  ghost predicate DecodeTo(decode: string -> Option<LogRow>, datas: seq<string>, rows: seq<LogRow>) {
    rows == Decoded(decode, datas)
  }

  /**
   * The loop over the lines of `text`: `p` is the parser, `buffer` what is still to be cut into lines,
   * and what was delivered has been handed over.
   */
  ghost predicate Draining(decode: string -> Option<LogRow>, handlerOk: nat -> bool, text: string,
                           p: Parser, buffer: string, handled: seq<LogRow>)
  {
    SameLines(Parser([], []), text, p, buffer) && DecodeTo(decode, p.delivered, handled) && AllOk(handlerOk, |handled|)
  }

  /** The text's lines are used up: `buffer` holds none. */
  ghost predicate Settled(decode: string -> Option<LogRow>, handlerOk: nat -> bool, text: string,
                          p: Parser, buffer: string, handled: seq<LogRow>)
  {
    Draining(decode, handlerOk, text, p, buffer, handled) && Find(buffer, '\n') == |buffer|
  }

  /** The handler's first failure, at some event of the text, was the end. */
  ghost predicate StoppedAt(decode: string -> Option<LogRow>, handlerOk: nat -> bool, text: string,
                            handled: seq<LogRow>) {
    && handled != [] && handled <= Events(decode, text)
    && AllOk(handlerOk, |handled| - 1) && !handlerOk(|handled| - 1)
  }

  datatype End = Closed | NonUtf8 | HandlerFailed

  /**
   * The client's loop over the chunks of the response, up to the end of the connection. `handlerOk`
   * says of each call of the handler, in order, whether it succeeds; `used` counts the chunks whose
   * text was read.
   */
  method Subscribe(chunks: seq<Chunk>, decode: string -> Option<LogRow>, handlerOk: nat -> bool)
    returns (handled: seq<LogRow>, end: End, used: nat)
    ensures used <= |chunks| && AllDecode(chunks[..used])
    ensures end == Closed ==> used == |chunks|
    ensures end == NonUtf8 ==> used < |chunks| && Utf8.Decode(chunks[used]).None?
    ensures end != HandlerFailed ==> handled == Events(decode, TextOf(chunks[..used])) && AllOk(handlerOk, |handled|)
    ensures end == HandlerFailed ==> StoppedAt(decode, handlerOk, TextOf(chunks[..used]), handled)
  {
    var buffer, currentData := [], [];
    ghost var delivered := [];
    handled, end, used := [], Closed, 0;
    for i := 0 to |chunks|
      invariant used == i && end == Closed && AllDecode(chunks[..i])
      invariant Settled(decode, handlerOk, TextOf(chunks[..i]), Parser(currentData, delivered), buffer, handled)
    {
      var text := Utf8.Decode(chunks[i]);
      if text.None? {
        end := NonUtf8;
        break;
      }
      ChunkStep(chunks, i);
      MoreText(decode, handlerOk, TextOf(chunks[..i]), Parser(currentData, delivered), buffer, handled, text.value);
      used := i + 1;
      var ok;
      handled, ok, buffer, currentData, delivered :=
        Drain(handled, buffer + text.value, currentData, delivered, decode, handlerOk, TextOf(chunks[..i + 1]));
      if !ok {
        end := HandlerFailed;
        break;
      }
    }
  }

  lemma ChunkStep(chunks: seq<Chunk>, i: nat)
    requires i < |chunks| && AllDecode(chunks[..i]) && IsText(chunks[i])
    ensures AllDecode(chunks[..i + 1])
    ensures TextOf(chunks[..i + 1]) == TextOf(chunks[..i]) + Utf8.Decode(chunks[i]).value
  {
    assert chunks[..i + 1][..i] == chunks[..i];
  }

  /** More text goes behind what is left of the text so far. */
  lemma MoreText(decode: string -> Option<LogRow>, handlerOk: nat -> bool, text: string,
                 p: Parser, buffer: string, handled: seq<LogRow>, more: string)
    requires Settled(decode, handlerOk, text, p, buffer, handled)
    ensures Draining(decode, handlerOk, text + more, p, buffer + more, handled)
  {
    LinesSplit(Parser([], []), text, more);
  }

  /** Takes the complete lines out of the buffer and hands over the events they complete. */
  method Drain(handled: seq<LogRow>, buffer: string, currentData: string, ghost delivered: seq<string>,
               decode: string -> Option<LogRow>, handlerOk: nat -> bool, ghost whole: string)
    returns (handled': seq<LogRow>, ok: bool, buffer': string, currentData': string, ghost delivered': seq<string>)
    requires Draining(decode, handlerOk, whole, Parser(currentData, delivered), buffer, handled)
    ensures ok ==> Settled(decode, handlerOk, whole, Parser(currentData', delivered'), buffer', handled')
    ensures !ok ==> StoppedAt(decode, handlerOk, whole, handled')
  {
    handled', ok, buffer', currentData', delivered' := handled, true, buffer, currentData, delivered;
    while Find(buffer', '\n') < |buffer'|
      invariant Draining(decode, handlerOk, whole, Parser(currentData', delivered'), buffer', handled')
      decreases |buffer'|
    {
      var idx := Find(buffer', '\n');
      var line := DropTrailing(buffer'[..idx], '\r');
      ghost var p := OnLine(Parser(currentData', delivered'), buffer'[..idx]);
      buffer' := buffer'[idx + 1..];
      if StartsWith(line, "data:") {
        currentData' := Trim(line[5..]);
      } else if Trim(line) == [] && currentData' != [] {
        delivered' := delivered' + [currentData'];
        var ev := decode(currentData');
        currentData' := [];
        if ev.Some? {
          handled' := handled' + [ev.value];
          ok := handlerOk(|handled'| - 1);
          if !ok {
            FailureStops(decode, handlerOk, whole, p, buffer', handled');
            return;
          }
        }
      }
      assert Parser(currentData', delivered') == p;
    }
  }

  lemma FailureStops(decode: string -> Option<LogRow>, handlerOk: nat -> bool, whole: string,
                     p: Parser, buffer: string, handled: seq<LogRow>)
    requires SameLines(Parser([], []), whole, p, buffer)
    requires DecodeTo(decode, p.delivered, handled) && handled != []
    requires AllOk(handlerOk, |handled| - 1) && !handlerOk(|handled| - 1)
    ensures StoppedAt(decode, handlerOk, whole, handled)
  {
    LinesDeliverMore(p, buffer);
    DecodedPrefix(decode, p.delivered, Lines(p, buffer).0.delivered);
  }

  lemma DecodedPrefix(decode: string -> Option<LogRow>, a: seq<string>, b: seq<string>)
    requires a <= b
    ensures Decoded(decode, a) <= Decoded(decode, b)
  {
    DecodedAppend(decode, a, b[|a|..]);
    assert b == a + b[|a|..];
  }
}
