/** Reading the head of a request to the server, and with it the id a returning client resumes from. */
module RequestHead {
  import opened Wrappers
  import opened Text

  datatype Head = Head(verb: string, path: string, contentLength: nat, lastEventId: int)

  // ---- numbers ---------------------------------------------------------------------------

  /** Digits with at most one sign in front, within bounds; a usize takes no minus. */
  function ParseInt(s: string, low: int, high: int): Option<int> {
    var negative := s != [] && s[0] == '-' && low < 0;
    var digits := if s != [] && (s[0] == '+' || negative) then s[1..] else s;
    if digits == [] || DigitsValue(digits).None? then None
    else
      var n: int := DigitsValue(digits).value;
      var v := if negative then -n else n;
      if low <= v <= high then Some(v) else None
  }

  const I64_MIN := -0x8000_0000_0000_0000
  const I64_MAX := 0x7FFF_FFFF_FFFF_FFFF
  const USIZE_MAX := 0xFFFF_FFFF_FFFF_FFFF

  function ParseId(s: string): int {
    var r := ParseInt(Trim(s), I64_MIN, I64_MAX);
    if r.Some? then r.value else 0
  }

  function ParseLength(s: string): nat {
    var r := ParseInt(Trim(s), 0, USIZE_MAX);
    if r.Some? && r.value >= 0 then r.value else 0
  }

  function LowerChar(c: char): char {
    if 'A' <= c <= 'Z' then (c as int + 32) as char else c
  }

  function Lower(s: string): (r: string)
    ensures |r| == |s|
  {
    if s == [] then [] else [LowerChar(s[0])] + Lower(s[1..])
  }

  // ---- lines -----------------------------------------------------------------------------

  function SplitFirst(s: string): (string, Option<string>) {
    var i := Find(s, ' ');
    if i == |s| then (s, None) else (s[..i], Some(s[i + 1..]))
  }

  /** The first two of the at most three parts between spaces. */
  function RequestLine(line: string): Option<(string, string)> {
    var (verb, rest) := SplitFirst(Trim(line));
    if rest.None? then None else Some((verb, SplitFirst(rest.value).0))
  }

  const CONTENT_LENGTH := "content-length:"
  const LAST_EVENT_ID := "last-event-id:"

  predicate IsHeader(line: string, name: string) {
    StartsWith(Lower(Trim(line)), name)
  }

  function ValueOf(line: string, name: string): string
    requires IsHeader(line, name)
  {
    Trim(line)[|name|..]
  }

  function OnLine(h: Head, line: string): Head {
    if IsHeader(line, CONTENT_LENGTH) then h.(contentLength := ParseLength(ValueOf(line, CONTENT_LENGTH)))
    else if IsHeader(line, LAST_EVENT_ID) then h.(lastEventId := ParseId(ValueOf(line, LAST_EVENT_ID)))
    else h
  }

  /** The header lines up to the first blank one; reading past the end of the connection yields blank lines. */
  function OnLines(h: Head, lines: seq<string>): Head
    decreases lines
  {
    if lines == [] || Trim(lines[0]) == "" then h else OnLines(OnLine(h, lines[0]), lines[1..])
  }

  function Read(request: string, lines: seq<string>): Option<Head> {
    match RequestLine(request)
    case None => None
    case Some((verb, path)) => Some(OnLines(Head(verb, path, 0, 0), lines))
  }

  method ParseHead(request: string, lines: seq<string>) returns (r: Option<Head>)
    ensures r == Read(request, lines)
  {
    var first := RequestLine(request);
    if first.None? {
      return None;
    }
    var contentLength: nat, lastEventId: int := 0, 0;
    ghost var start := Head(first.value.0, first.value.1, 0, 0);
    var i := 0;
    while i < |lines| && Trim(lines[i]) != ""
      invariant i <= |lines|
      invariant OnLines(Head(first.value.0, first.value.1, contentLength, lastEventId), lines[i..])
                == OnLines(start, lines)
    {
      var line := lines[i];
      assert lines[i..][0] == line && lines[i..][1..] == lines[i + 1..];
      if IsHeader(line, CONTENT_LENGTH) {
        contentLength := ParseLength(ValueOf(line, CONTENT_LENGTH));
      } else if IsHeader(line, LAST_EVENT_ID) {
        lastEventId := ParseId(ValueOf(line, LAST_EVENT_ID));
      }
      i := i + 1;
    }
    r := Some(Head(first.value.0, first.value.1, contentLength, lastEventId));
  }

  // ---- what the client's header becomes ------------------------------------------------------

  /** None of the lines is blank or names a last event. */
  ghost predicate Unrelated(lines: seq<string>) {
    forall i | 0 <= i < |lines| :: Trim(lines[i]) != "" && !IsHeader(lines[i], LAST_EVENT_ID)
  }

  lemma {:induction false} UnrelatedKeep(h: Head, lines: seq<string>, rest: seq<string>)
    requires Unrelated(lines)
    decreases lines
    ensures exists length: nat :: OnLines(h, lines + rest) == OnLines(h.(contentLength := length), rest)
  {
    if lines == [] {
      assert lines + rest == rest && h.(contentLength := h.contentLength) == h;
    } else {
      assert (lines + rest)[0] == lines[0] && (lines + rest)[1..] == lines[1..] + rest;
      UnrelatedKeep(OnLine(h, lines[0]), lines[1..], rest);
      var length: nat :| OnLines(OnLine(h, lines[0]), lines[1..] + rest)
          == OnLines(OnLine(h, lines[0]).(contentLength := length), rest);
      assert OnLine(h, lines[0]).(contentLength := length) == h.(contentLength := length);
    }
  }

  /** A request without the header starts at id 0, that is, gets the whole log. */
  lemma NoHeaderMeansZero(request: string, lines: seq<string>)
    requires RequestLine(request).Some? && Unrelated(lines)
    ensures Read(request, lines).value.lastEventId == 0
  {
    var h := Head(RequestLine(request).value.0, RequestLine(request).value.1, 0, 0);
    UnrelatedKeep(h, lines, []);
    assert lines + [] == lines;
  }

  lemma IntRead(id: int)
    requires I64_MIN <= id <= I64_MAX
    ensures ParseInt(IdText(id), I64_MIN, I64_MAX) == Some(id)
  {
    DecimalRead(if id < 0 then -id else id);
    assert id < 0 ==> IdText(id)[1..] == Decimal(-id);
  }

  lemma IdTextRead(id: int)
    requires I64_MIN <= id <= I64_MAX
    ensures ParseId(" " + IdText(id)) == id && Trimmed(IdText(id))
  {
    IntRead(id);
    TrimLeadingSpace(IdText(id));
  }

  lemma {:induction false} LowerAppend(a: string, b: string)
    ensures Lower(a + b) == Lower(a) + Lower(b)
  {
    if a == [] {
      assert a + b == b;
    } else {
      assert (a + b)[1..] == a[1..] + b;
      LowerAppend(a[1..], b);
    }
  }

  lemma TrimLineEnd(s: string)
    requires s != [] && Trimmed(s)
    ensures Trim(s + "\r\n") == s
  {
    assert (s + "\r\n")[..|s| + 1] == s + "\r" && (s + "\r")[..|s|] == s;
    assert (s + "\r\n")[0] == s[0];
    assert TrimStart(s + "\r\n") == s + "\r\n";
    assert TrimEnd(s + "\r\n") == TrimEnd(s + "\r") == TrimEnd(s) == s;
  }

  /** The header as a client sends it, in any case. */
  function IdHeader(name: string, id: int): string {
    name + ": " + IdText(id) + "\r\n"
  }

  lemma IdHeaderTrims(name: string, id: int)
    requires name != [] && !IsWhitespace(name[0]) && Trimmed(IdText(id))
    ensures Trim(IdHeader(name, id)) == name + (": " + IdText(id))
  {
    var text := name + (": " + IdText(id));
    assert text[0] == name[0] && text[|text| - 1] == IdText(id)[|IdText(id)| - 1];
    TrimLineEnd(text);
    assert IdHeader(name, id) == text + "\r\n";
  }

  lemma NamesLastEvent(name: string, value: string)
    requires Lower(name) == "last-event-id"
    ensures var lower := Lower(name + (": " + value));
            StartsWith(lower, LAST_EVENT_ID) && !StartsWith(lower, CONTENT_LENGTH)
    ensures (name + (": " + value))[14..] == " " + value
  {
    LowerAppend(name, ": " + value);
    var rest := Lower(": " + value);
    assert rest[0] == ':';
    assert ("last-event-id" + rest)[..14] == LAST_EVENT_ID;
    assert ("last-event-id" + rest)[0] == 'l';
  }

  lemma IdHeaderRead(h: Head, name: string, id: int)
    requires Lower(name) == "last-event-id" && I64_MIN <= id <= I64_MAX
    ensures Trim(IdHeader(name, id)) != "" && OnLine(h, IdHeader(name, id)) == h.(lastEventId := id)
  {
    IdTextRead(id);
    assert LowerChar(name[0]) == Lower(name)[0] == 'l';
    IdHeaderTrims(name, id);
    NamesLastEvent(name, IdText(id));
  }

  /**
   * A client that names the last event it has seen, in a header of any case between any other
   * headers, is served from exactly that id.
   */
  lemma HeaderKeepsId(request: string, before: seq<string>, name: string, id: int, after: seq<string>)
    requires RequestLine(request).Some? && Unrelated(before) && Unrelated(after)
    requires Lower(name) == "last-event-id" && I64_MIN <= id <= I64_MAX
    ensures Read(request, before + [IdHeader(name, id)] + after).value.lastEventId == id
  {
    var h := Head(RequestLine(request).value.0, RequestLine(request).value.1, 0, 0);
    var rest := [IdHeader(name, id)] + after;
    assert before + [IdHeader(name, id)] + after == before + rest;
    UnrelatedKeep(h, before, rest);
    var length: nat :| OnLines(h, before + rest) == OnLines(h.(contentLength := length), rest);
    IdHeaderRead(h.(contentLength := length), name, id);
    assert rest[1..] == after && after + [] == after;
    UnrelatedKeep(h.(contentLength := length).(lastEventId := id), after, []);
  }
}
