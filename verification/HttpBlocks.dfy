/**
 * Reading the output of `gh api --include`: one or more response blocks, of which the last counts.
 *
 * A block is a status line, header lines, an empty line and a body, with one kind of line ending
 * throughout the head; a paginated call would print one block a page. The program looks for the last line
 * that starts an HTTP version and then for an empty line after it, so a body may mislead it.
 * The printer beside it follows sections 4 and 5 of RFC 9112; lower-casing is a parameter.
 */
module HttpBlocks {
  import opened Wrappers
  import opened Text

  // ---- the reader ------------------------------------------------------------------------------

  predicate Occurs(s: string, pat: string, i: nat) {
    i + |pat| <= |s| && s[i..i + |pat|] == pat
  }

  function FindText(s: string, pat: string): (r: Option<nat>)
    ensures r.Some? ==> r.value + |pat| <= |s|
  {
    if StartsWith(s, pat) then Some(0) else if s == [] then None else Shift(FindText(s[1..], pat), 1)
  }

  function Shift(r: Option<nat>, n: nat): Option<nat> {
    if r.Some? then Some(r.value + n) else None
  }

  function FindLast(s: string, pat: string): (r: Option<nat>)
    ensures r.Some? ==> Occurs(s, pat, r.value) && forall j: nat | j > r.value :: !Occurs(s, pat, j)
    ensures r.None? ==> forall j: nat :: !Occurs(s, pat, j)
  {
    FindLastBelow(s, pat, |s|)
  }

  /** The last occurrence that starts at or before n. */
  function FindLastBelow(s: string, pat: string, n: nat): (r: Option<nat>)
    ensures r.Some? ==>
            r.value <= n && Occurs(s, pat, r.value) && forall j: nat | r.value < j <= n :: !Occurs(s, pat, j)
    ensures r.None? ==> forall j: nat | j <= n :: !Occurs(s, pat, j)
  {
    if Occurs(s, pat, n) then Some(n) else if n == 0 then None else FindLastBelow(s, pat, n - 1)
  }

  function Words(s: string): seq<string>
    decreases |s|
  {
    if s == [] then []
    else if IsWhitespace(s[0]) then Words(s[1..])
    else
      var n := WordLength(s);
      [s[..n]] + Words(s[n..])
  }

  function WordLength(s: string): (n: nat)
    ensures n <= |s| && (s != [] && !IsWhitespace(s[0]) ==> n > 0)
  {
    if s == [] || IsWhitespace(s[0]) then 0 else 1 + WordLength(s[1..])
  }

  /** Reading a u16: an optional plus sign, then digits, and no more than 65535. */
  function ParseU16(s: string): Option<nat> {
    var digits := if s != [] && s[0] == '+' then s[1..] else s;
    if digits == [] || DigitsValue(digits).None? || DigitsValue(digits).value > 65535 then None else DigitsValue(digits)
  }

  datatype HttpError = NoSeparator | EmptyHead | NoStatus | BadStatus

  datatype Response = Response(status: nat, headers: map<string, string>, body: string)

  type Lower = string -> string

  function AddHeader(headers: map<string, string>, line: string, lower: Lower): map<string, string> {
    var i := Find(line, ':');
    if i == |line| then headers else headers[lower(Trim(line[..i])) := Trim(line[i + 1..])]
  }

  function AddHeaders(headers: map<string, string>, lines: seq<string>, lower: Lower): map<string, string>
    decreases lines
  {
    if lines == [] then headers else AddHeaders(AddHeader(headers, lines[0], lower), lines[1..], lower)
  }

  /** The last block: from after the last newline that an HTTP version follows. */
  function LastBlock(raw: string): string {
    match FindLast(raw, "\nHTTP/")
    case None => raw
    case Some(i) => raw[i + 1..]
  }

  datatype Ending = Crlf | Lf

  /** The end of one line and an empty line. */
  function Gap(e: Ending): string {
    if e.Crlf? then "\r\n\r\n" else "\n\n"
  }

  function CutAt(block: string, i: nat, e: Ending): (string, string)
    requires i + |Gap(e)| <= |block|
  {
    (block[..i], block[i + |Gap(e)|..])
  }

  /** Head and body; an empty line with carriage returns is preferred to one without. */
  function Cut(block: string): Option<(string, string)> {
    var crlf, lf := FindText(block, Gap(Crlf)), FindText(block, Gap(Lf));
    if crlf.Some? then Some(CutAt(block, crlf.value, Crlf))
    else if lf.Some? then Some(CutAt(block, lf.value, Lf))
    else None
  }

  function ParseHead(head: string, body: string, lower: Lower): Result<Response, HttpError> {
    var lines := SplitLines(head);
    if lines == [] then Err(EmptyHead)
    else if |Words(lines[0])| < 2 then Err(NoStatus)
    else match ParseU16(Words(lines[0])[1])
         case None => Err(BadStatus)
         case Some(status) => Ok(Response(status, AddHeaders(map[], lines[1..], lower), body))
  }

  function Parse(raw: string, lower: Lower): Result<Response, HttpError> {
    match Cut(LastBlock(raw))
    case None => Err(NoSeparator)
    case Some((head, body)) => ParseHead(head, body, lower)
  }

  method ReadHeaders(lines: seq<string>, lower: Lower) returns (headers: map<string, string>)
    ensures headers == AddHeaders(map[], lines, lower)
  {
    headers := map[];
    for i := 0 to |lines|
      invariant AddHeaders(headers, lines[i..], lower) == AddHeaders(map[], lines, lower)
    {
      var line := lines[i];
      assert lines[i..][0] == line && lines[i..][1..] == lines[i + 1..];
      var colon := Find(line, ':');
      if colon < |line| {
        headers := headers[lower(Trim(line[..colon])) := Trim(line[colon + 1..])];
      }
    }
  }

  method ParseResponse(raw: string, lower: Lower) returns (r: Result<Response, HttpError>)
    ensures r == Parse(raw, lower)
  {
    var cut := Cut(LastBlock(raw));
    if cut.None? {
      return Err(NoSeparator);
    }
    var (head, body) := cut.value;
    var lines := SplitLines(head);
    if lines == [] {
      return Err(EmptyHead);
    }
    var words := Words(lines[0]);
    if |words| < 2 {
      return Err(NoStatus);
    }
    var status := ParseU16(words[1]);
    if status.None? {
      return Err(BadStatus);
    }
    var headers := ReadHeaders(lines[1..], lower);
    r := Ok(Response(status.value, headers, body));
  }

  // ---- the printer -----------------------------------------------------------------------------

  datatype Block = Block(ending: Ending, version: string, status: nat, reason: string, headers: seq<(string, string)>,
                         body: string)

  predicate IsTokenChar(c: char) {
    'a' <= c <= 'z' || 'A' <= c <= 'Z' || IsDigit(c) || c in "!#$%&'*+-.^_`|~"
  }

  ghost predicate OneLine(s: string) {
    forall i | 0 <= i < |s| :: s[i] != '\n' && s[i] != '\r'
  }

  ghost predicate IsHeader(h: (string, string)) {
    && h.0 != [] && (forall i | 0 <= i < |h.0| :: IsTokenChar(h.0[i]))
    && OneLine(h.1) && Trimmed(h.1)
  }

  ghost predicate Printable(b: Block) {
    && (forall i | 0 <= i < |b.version| :: IsDigit(b.version[i]) || b.version[i] == '.')
    && b.status <= 65535 && OneLine(b.reason)
    && forall i | 0 <= i < |b.headers| :: IsHeader(b.headers[i])
  }

  function StatusLine(b: Block): string {
    "HTTP/" + b.version + " " + Decimal(b.status) + " " + b.reason
  }

  function HeaderLine(h: (string, string)): string {
    h.0 + ": " + h.1
  }

  function HeaderLines(headers: seq<(string, string)>): seq<string> {
    if headers == [] then [] else [HeaderLine(headers[0])] + HeaderLines(headers[1..])
  }

  function Lines(b: Block): seq<string> {
    [StatusLine(b)] + HeaderLines(b.headers)
  }

  function Eol(e: Ending): string {
    if e.Crlf? then "\r\n" else "\n"
  }

  /** Each line ended, then the tail. */
  function Ended(lines: seq<string>, e: Ending, tail: string): string {
    if lines == [] then tail else lines[0] + Eol(e) + Ended(lines[1..], e, tail)
  }

  function Print(b: Block): string {
    Ended(Lines(b), b.ending, Eol(b.ending) + b.body)
  }

  function PrintAll(bs: seq<Block>): string {
    if bs == [] then "" else PrintAll(bs[..|bs| - 1]) + Print(bs[|bs| - 1])
  }

  /** All printable, and each but the last leaves off at the start of a line. */
  ghost predicate PrintableAll(bs: seq<Block>) {
    forall i | 0 <= i < |bs| :: Printable(bs[i]) && (i < |bs| - 1 ==> EndsLine(bs[i].body))
  }

  ghost predicate EndsLine(body: string) {
    body == "" || body[|body| - 1] == '\n'
  }

  // ---- finding the last block --------------------------------------------------------------------

  ghost predicate Free(s: string, pat: string) {
    forall i: nat :: !Occurs(s, pat, i)
  }

  lemma TailSlice(s: string, i: nat, n: nat)
    requires i + 1 + n <= |s|
    ensures s[1..][i..i + n] == s[i + 1..i + 1 + n]
  {
  }

  /** The search finds the first occurrence, and nothing exactly when there is none. */
  lemma {:induction false} FindTextIs(s: string, pat: string)
    ensures FindText(s, pat).None? <==> Free(s, pat)
    ensures FindText(s, pat).Some? ==>
            Occurs(s, pat, FindText(s, pat).value) && forall j: nat | j < FindText(s, pat).value :: !Occurs(s, pat, j)
  {
    if StartsWith(s, pat) {
      assert Occurs(s, pat, 0);
    } else if s != [] {
      FindTextIs(s[1..], pat);
      var r := FindText(s[1..], pat);
      forall i: nat ensures Occurs(s, pat, i + 1) <==> Occurs(s[1..], pat, i) {
        OccursShifts(s, pat, i);
      }
      forall i: nat | i > 0 && Occurs(s, pat, i) ensures Occurs(s[1..], pat, i - 1) {
        OccursShifts(s, pat, i - 1);
      }
      assert !Occurs(s, pat, 0);
      if r.Some? {
        assert Occurs(s, pat, r.value + 1);
      }
    }
  }

  lemma OccursShifts(s: string, pat: string, i: nat)
    requires s != []
    ensures Occurs(s, pat, i + 1) <==> Occurs(s[1..], pat, i)
  {
    if i + 1 + |pat| <= |s| {
      TailSlice(s, i, |pat|);
    }
  }

  /** A line neither contains nor starts the version of a block that was not there. */
  lemma LineIsFree(line: string, rest: string)
    requires forall i | 0 <= i < |line| :: line[i] != '\n'
    ensures Free(line + "\n" + rest, "\nHTTP/") <==> Free("\n" + rest, "\nHTTP/")
  {
    var s, t, n := line + "\n" + rest, "\n" + rest, |line|;
    assert s == line + t;
    forall i: nat ensures Occurs(s, "\nHTTP/", i) <==> i >= n && Occurs(t, "\nHTTP/", i - n) {
      if i < n {
        assert s[i] == line[i];
      } else if i + 6 <= |s| {
        assert s[i..i + 6] == t[i - n..i - n + 6];
      }
    }
    forall i: nat ensures Occurs(t, "\nHTTP/", i) <==> Occurs(s, "\nHTTP/", n + i) {}
  }

  lemma NewlineFree(rest: string)
    ensures Free("\n" + rest, "\nHTTP/") <==> !StartsWith(rest, "HTTP/") && Free(rest, "\nHTTP/")
  {
    var t := "\n" + rest;
    assert Occurs(t, "\nHTTP/", 0) <==> StartsWith(rest, "HTTP/") by {
      if |rest| >= 5 {
        assert t[0..6] == "\n" + rest[..5];
        assert ("\n" + rest[..5])[1..] == rest[..5] && "\nHTTP/"[1..] == "HTTP/";
        assert "\n" + "HTTP/" == "\nHTTP/";
      }
    }
    forall i: nat ensures Occurs(t, "\nHTTP/", i + 1) <==> Occurs(rest, "\nHTTP/", i) {
      if i + 6 <= |rest| {
        assert t[i + 1..i + 7] == rest[i..i + 6];
      }
    }
    forall i: nat | i > 0 && Occurs(t, "\nHTTP/", i) ensures Occurs(rest, "\nHTTP/", i - 1) {
      assert Occurs(t, "\nHTTP/", (i - 1) + 1);
    }
  }

  /** A line of the head: not empty, without line ends. */
  ghost predicate HeadLine(line: string) {
    line != [] && OneLine(line)
  }

  lemma HeaderLineIs(h: (string, string))
    requires IsHeader(h)
    ensures HeadLine(HeaderLine(h)) && !StartsWith(HeaderLine(h), "HTTP/")
  {
    var name, line := h.0, HeaderLine(h);
    assert forall i | 0 <= i < |name| :: IsTokenChar(name[i]);
    assert line[|name|] == ':' && line[0] == name[0];
    if |name| > 4 {
      assert line[4] == name[4] && IsTokenChar(name[4]);
      NotPrefix(line, "HTTP/", 4);
    } else {
      NotPrefix(line, "HTTP/", |name|);
    }
  }

  lemma {:induction false} HeaderLinesAre(headers: seq<(string, string)>)
    requires forall i | 0 <= i < |headers| :: IsHeader(headers[i])
    ensures var lines := HeaderLines(headers);
            |lines| == |headers| && forall i | 0 <= i < |lines| :: HeadLine(lines[i]) && !StartsWith(lines[i], "HTTP/")
  {
    if headers != [] {
      HeaderLinesAre(headers[1..]);
      HeaderLineIs(headers[0]);
    }
  }

  lemma NotPrefix(s: string, pat: string, i: nat)
    requires i < |pat| && (i < |s| ==> s[i] != pat[i])
    ensures !StartsWith(s, pat)
  {
  }

  lemma LinesAre(b: Block)
    requires Printable(b)
    ensures forall i | 0 <= i < |Lines(b)| :: HeadLine(Lines(b)[i]) && (i > 0 ==> !StartsWith(Lines(b)[i], "HTTP/"))
  {
    HeaderLinesAre(b.headers);
  }

  function Cr(e: Ending): string {
    if e.Crlf? then "\r" else ""
  }

  lemma {:induction false} EndedIsFree(lines: seq<string>, e: Ending, tail: string)
    requires forall i | 0 <= i < |lines| :: HeadLine(lines[i]) && !StartsWith(lines[i], "HTTP/")
    ensures Free("\n" + Ended(lines, e, tail), "\nHTTP/") <==> Free("\n" + tail, "\nHTTP/")
  {
    if lines != [] {
      var line, rest := lines[0] + Cr(e), Ended(lines[1..], e, tail);
      var text := Ended(lines, e, tail);
      assert text == line + "\n" + rest;
      NewlineFree(text);
      LineIsFree(line, rest);
      EndedIsFree(lines[1..], e, tail);
      var n := |lines[0]|;
      if n < 5 {
        assert text[n] == '\r' || text[n] == '\n';
        NotPrefix(text, "HTTP/", n);
      } else {
        assert lines[0][..5] == text[..5];
      }
    }
  }

  /** The block is taken for one block exactly when its body does not look like another. */
  lemma PrintIsFree(b: Block)
    requires Printable(b)
    ensures Free(Print(b), "\nHTTP/") <==> Free("\n" + b.body, "\nHTTP/")
  {
    var e, headers := b.ending, HeaderLines(b.headers);
    var tail := Eol(e) + b.body;
    var rest := Ended(headers, e, tail);
    HeaderLinesAre(b.headers);
    LinesAre(b);
    assert HeadLine(Lines(b)[0]);
    assert Lines(b)[1..] == headers;
    assert Print(b) == (StatusLine(b) + Cr(e)) + "\n" + rest;
    LineIsFree(StatusLine(b) + Cr(e), rest);
    EndedIsFree(headers, e, tail);
    assert tail == Cr(e) + "\n" + b.body;
    NotPrefix(tail, "HTTP/", 0);
    NewlineFree(tail);
    LineIsFree(Cr(e), b.body);
  }

  lemma {:induction false} EndedSplits(lines: seq<string>, e: Ending, a: string, b: string)
    ensures Ended(lines, e, a + b) == Ended(lines, e, a) + b
  {
    if lines != [] {
      EndedSplits(lines[1..], e, a, b);
    }
  }

  lemma PrintStarts(b: Block)
    ensures StartsWith(Print(b), "HTTP/")
  {
    assert StatusLine(b)[..5] == "HTTP/";
    assert Print(b)[..5] == StatusLine(b)[..5];
  }

  lemma PrintShape(b: Block)
    ensures Print(b) == (Ended(Lines(b), b.ending, Cr(b.ending)) + "\n") + b.body
  {
    var e := b.ending;
    EndedSplits(Lines(b), e, Cr(e), "\n" + b.body);
    assert Eol(e) + b.body == Cr(e) + ("\n" + b.body);
  }

  lemma {:induction false} PriorEndsLine(bs: seq<Block>)
    requires forall i | 0 <= i < |bs| :: EndsLine(bs[i].body)
    ensures bs != [] ==> PrintAll(bs) != [] && PrintAll(bs)[|PrintAll(bs)| - 1] == '\n'
  {
    if bs != [] {
      PrintShape(bs[|bs| - 1]);
    }
  }

  lemma LastBlockIs(prior: string, text: string)
    requires StartsWith(text, "HTTP/") && Free(text, "\nHTTP/")
    requires prior != [] ==> prior[|prior| - 1] == '\n'
    ensures LastBlock(prior + text) == text
  {
    var raw, n := prior + text, |prior|;
    forall j: nat | j >= n ensures !Occurs(raw, "\nHTTP/", j) {
      if j + 6 <= |raw| {
        assert text[j - n..j - n + 6] == raw[j..j + 6];
      }
      assert !Occurs(text, "\nHTTP/", j - n);
    }
    if n > 0 {
      assert raw[n - 1..n + 5] == "\n" + text[..5];
      assert "\n" + "HTTP/" == "\nHTTP/";
      assert Occurs(raw, "\nHTTP/", n - 1);
    }
  }

  /** When the body looks like another block, what is parsed is part of the body. */
  lemma LastBlockInBody(front: string, body: string)
    requires front != [] && front[|front| - 1] == '\n' && !Free("\n" + body, "\nHTTP/")
    ensures |LastBlock(front + body)| <= |body|
  {
    var raw, n := front + body, |front| - 1;
    var k: nat :| Occurs("\n" + body, "\nHTTP/", k);
    assert raw[n + k..n + k + 6] == ("\n" + body)[k..k + 6];
    assert Occurs(raw, "\nHTTP/", n + k);
  }

  // ---- finding the end of the head -----------------------------------------------------------------

  lemma {:induction false} FindSkips(a: string, t: string, pat: string)
    requires forall i | 0 <= i < |a| :: !Occurs(a + t, pat, i)
    ensures FindText(a + t, pat) == Shift(FindText(t, pat), |a|)
  {
    var s := a + t;
    if a == [] {
      assert s == t;
    } else {
      var s' := a[1..] + t;
      assert s[1..] == s' && !Occurs(s, pat, 0);
      forall i | 0 <= i < |a[1..]| ensures !Occurs(s', pat, i) {
        if i + |pat| <= |s'| {
          TailSlice(s, i, |pat|);
        }
        assert !Occurs(s, pat, i + 1);
      }
      FindSkips(a[1..], t, pat);
    }
  }

  /** Where the first character of the pattern does not occur, neither does the pattern. */
  lemma SkipsWithout(a: string, t: string, pat: string)
    requires pat != [] && forall i | 0 <= i < |a| :: a[i] != pat[0]
    ensures FindText(a + t, pat) == Shift(FindText(t, pat), |a|)
  {
    forall i | 0 <= i < |a| ensures !Occurs(a + t, pat, i) {
      assert (a + t)[i] == a[i];
      if i + |pat| <= |a + t| {
        assert (a + t)[i..i + |pat|][0] == a[i];
      }
    }
    FindSkips(a, t, pat);
  }

  function Head(lines: seq<string>, e: Ending): string {
    if lines == [] then "" else if |lines| == 1 then lines[0] else lines[0] + Eol(e) + Head(lines[1..], e)
  }

  lemma {:induction false} EndedHead(lines: seq<string>, e: Ending, tail: string)
    requires lines != []
    ensures Ended(lines, e, tail) == Head(lines, e) + Eol(e) + tail
  {
    if |lines| > 1 {
      EndedHead(lines[1..], e, tail);
    }
  }

  lemma GapHere(e: Ending, body: string)
    ensures FindText(Eol(e) + (Eol(e) + body), Gap(e)) == Some(0)
  {
    assert Eol(e) + Eol(e) == Gap(e);
    assert Eol(e) + (Eol(e) + body) == Gap(e) + body;
    assert StartsWith(Gap(e) + body, Gap(e));
  }

  lemma EndedStarts(lines: seq<string>, e: Ending, tail: string)
    requires lines != [] && HeadLine(lines[0])
    ensures var text := Ended(lines, e, tail);
            && text == lines[0] + (Eol(e) + Ended(lines[1..], e, tail))
                == (lines[0] + Eol(e)) + Ended(lines[1..], e, tail)
            && text != [] && text[0] != '\r' && text[0] != '\n'
  {
  }

  lemma Mismatch(s: string, pat: string, i: nat, k: nat)
    requires k < |pat| && i + k < |s| && s[i + k] != pat[k]
    ensures !Occurs(s, pat, i)
  {
    if i + |pat| <= |s| {
      assert s[i..i + |pat|][k] == s[i + k];
    }
  }

  lemma NoGapInLine(line: string, e: Ending, rest: string, i: nat)
    requires HeadLine(line) && rest != [] && rest[0] != '\r' && rest[0] != '\n' && i < |line| + |Eol(e)|
    ensures !Occurs((line + Eol(e)) + rest, Gap(e), i)
  {
    var s, n := (line + Eol(e)) + rest, |line|;
    assert s[n + |Eol(e)|] == rest[0];
    if i < n {
      assert s[i] == line[i];
      Mismatch(s, Gap(e), i, 0);
    } else if i == n {
      Mismatch(s, Gap(e), i, |Eol(e)|);
    } else {
      Mismatch(s, Gap(e), i, 0);
    }
  }

  /** The search for a gap passes over a line and its end when another line follows. */
  lemma LinePassed(line: string, e: Ending, rest: string)
    requires HeadLine(line) && rest != [] && rest[0] != '\r' && rest[0] != '\n'
    ensures FindText((line + Eol(e)) + rest, Gap(e)) == Shift(FindText(rest, Gap(e)), |line| + |Eol(e)|)
  {
    forall i | 0 <= i < |line + Eol(e)| ensures !Occurs((line + Eol(e)) + rest, Gap(e), i) {
      NoGapInLine(line, e, rest, i);
    }
    FindSkips(line + Eol(e), rest, Gap(e));
  }

  lemma {:induction false} FindsHeadEnd(lines: seq<string>, e: Ending, body: string)
    requires lines != [] && forall i | 0 <= i < |lines| :: HeadLine(lines[i])
    ensures FindText(Ended(lines, e, Eol(e) + body), Gap(e)) == Some(|Head(lines, e)|)
  {
    var tail := Eol(e) + body;
    EndedStarts(lines, e, tail);
    if |lines| == 1 {
      GapHere(e, body);
      SkipsWithout(lines[0], Eol(e) + tail, Gap(e));
    } else {
      FindsHeadEnd(lines[1..], e, body);
      EndedStarts(lines[1..], e, tail);
      LinePassed(lines[0], e, Ended(lines[1..], e, tail));
      assert |Head(lines, e)| == |lines[0]| + |Eol(e)| + |Head(lines[1..], e)|;
    }
  }

  lemma {:induction false} NoCarriageReturn(lines: seq<string>)
    requires forall i | 0 <= i < |lines| :: HeadLine(lines[i])
    ensures forall i | 0 <= i < |Ended(lines, Lf, "\n")| :: Ended(lines, Lf, "\n")[i] != '\r'
  {
    if lines != [] {
      assert HeadLine(lines[0]);
      NoCarriageReturn(lines[1..]);
    }
  }

  lemma PrintParts(b: Block)
    requires Printable(b)
    ensures var head := Head(Lines(b), b.ending);
            && Print(b) == head + Gap(b.ending) + b.body
            && FindText(Print(b), Gap(b.ending)) == Some(|head|)
  {
    LinesAre(b);
    EndedHead(Lines(b), b.ending, Eol(b.ending) + b.body);
    FindsHeadEnd(Lines(b), b.ending, b.body);
    assert Eol(b.ending) + Eol(b.ending) == Gap(b.ending);
  }

  /** With plain newlines, the first empty CRLF line, if any, is in the body. */
  lemma CrlfInBody(b: Block)
    requires Printable(b) && b.ending.Lf?
    ensures FindText(Print(b), Gap(Crlf)) == Shift(FindText(b.body, Gap(Crlf)), |Head(Lines(b), Lf)| + 2)
  {
    LinesAre(b);
    NoCarriageReturn(Lines(b));
    EndedSplits(Lines(b), Lf, "\n", b.body);
    EndedHead(Lines(b), Lf, "\n");
    SkipsWithout(Ended(Lines(b), Lf, "\n"), b.body, Gap(Crlf));
  }

  lemma CutsParts(b: Block)
    requires Printable(b)
    ensures var head := Head(Lines(b), b.ending);
            && FindText(Print(b), Gap(b.ending)) == Some(|head|)
            && |head| + |Gap(b.ending)| <= |Print(b)| && CutAt(Print(b), |head|, b.ending) == (head, b.body)
  {
    var text, head := Print(b), Head(Lines(b), b.ending);
    PrintParts(b);
    assert text[..|head|] == head && text[|head| + |Gap(b.ending)|..] == b.body;
  }

  lemma CutCrlf(b: Block)
    requires Printable(b) && b.ending.Crlf?
    ensures Cut(Print(b)) == Some((Head(Lines(b), Crlf), b.body))
  {
    CutsParts(b);
  }

  lemma CutLf(b: Block)
    requires Printable(b) && b.ending.Lf?
    ensures Free(b.body, Gap(Crlf)) ==> Cut(Print(b)) == Some((Head(Lines(b), Lf), b.body))
    ensures !Free(b.body, Gap(Crlf)) ==> Cut(Print(b)).Some? && |Cut(Print(b)).value.1| < |b.body|
  {
    FindTextIs(b.body, Gap(Crlf));
    CrlfInBody(b);
    if Free(b.body, Gap(Crlf)) {
      CutsParts(b);
    } else {
      PrintParts(b);
    }
  }

  /** A block with plain newlines is cut where it should be unless its body has an empty CRLF line. */
  lemma CutIs(b: Block)
    requires Printable(b)
    ensures b.ending.Crlf? || Free(b.body, Gap(Crlf)) ==> Cut(Print(b)) == Some((Head(Lines(b), b.ending), b.body))
    ensures b.ending.Lf? && !Free(b.body, Gap(Crlf)) ==> Cut(Print(b)).Some? && |Cut(Print(b)).value.1| < |b.body|
  {
    if b.ending.Crlf? {
      CutCrlf(b);
    } else {
      CutLf(b);
    }
  }

  // ---- reading the head ------------------------------------------------------------------------------

  lemma {:induction false} SplitHead(lines: seq<string>, e: Ending)
    requires lines != [] && forall i | 0 <= i < |lines| :: HeadLine(lines[i])
    ensures SplitLines(Head(lines, e)) == lines
  {
    assert HeadLine(lines[0]);
    var s, n := Head(lines, e), |lines[0]|;
    if |lines| == 1 {
      assert Find(s, '\n') == |s|;
    } else {
      var k := n + |Cr(e)|;
      assert s[..k] == lines[0] + Cr(e) && s[k + 1..] == Head(lines[1..], e) && s[k] == '\n';
      FindIs(s, '\n', k);
      assert StripCr(lines[0] + Cr(e)) == lines[0];
      SplitHead(lines[1..], e);
    }
  }

  ghost predicate Word(w: string) {
    w != [] && forall i | 0 <= i < |w| :: !IsWhitespace(w[i])
  }

  lemma {:induction false} WordEnds(w: string, rest: string)
    requires forall i | 0 <= i < |w| :: !IsWhitespace(w[i])
    ensures WordLength(w + " " + rest) == |w|
  {
    if w != [] {
      assert (w + " " + rest)[1..] == w[1..] + " " + rest;
      WordEnds(w[1..], rest);
    }
  }

  lemma WordsStep(w: string, rest: string)
    requires Word(w)
    ensures Words(w + " " + rest) == [w] + Words(rest)
  {
    var s := w + " " + rest;
    WordEnds(w, rest);
    assert s[0] == w[0] && s[..|w|] == w && s[|w|..] == " " + rest;
    assert (" " + rest)[1..] == rest;
  }

  lemma StatusRead(b: Block)
    requires Printable(b)
    ensures var words := Words(StatusLine(b)); |words| >= 2 && ParseU16(words[1]) == Some(b.status)
  {
    var version, digits := "HTTP/" + b.version, Decimal(b.status);
    assert StatusLine(b) == version + " " + (digits + " " + b.reason);
    WordsStep(version, digits + " " + b.reason);
    WordsStep(digits, b.reason);
    DecimalRead(b.status);
  }

  /** The last value given to a name. */
  function ValueOf(headers: seq<(string, string)>, lower: Lower, key: string): Option<string> {
    if headers == [] then None
    else
      var h := headers[|headers| - 1];
      if lower(h.0) == key then Some(h.1) else ValueOf(headers[..|headers| - 1], lower, key)
  }

  lemma {:induction false} ValueOfFirst(headers: seq<(string, string)>, lower: Lower, key: string)
    requires headers != []
    ensures ValueOf(headers, lower, key) ==
            if ValueOf(headers[1..], lower, key).Some? then ValueOf(headers[1..], lower, key)
            else if lower(headers[0].0) == key then Some(headers[0].1) else None
  {
    if |headers| > 1 {
      var init := headers[..|headers| - 1];
      ValueOfFirst(init, lower, key);
      assert init[1..] == headers[1..][..|headers| - 2];
    }
  }

  lemma TokenPlain(name: string)
    requires forall i | 0 <= i < |name| :: IsTokenChar(name[i])
    ensures Trimmed(name) && forall i | 0 <= i < |name| :: name[i] != ':'
  {
  }

  lemma HeaderRead(headers: map<string, string>, h: (string, string), lower: Lower)
    requires IsHeader(h)
    ensures AddHeader(headers, HeaderLine(h), lower) == headers[lower(h.0) := h.1]
  {
    var line, n := HeaderLine(h), |h.0|;
    TokenPlain(h.0);
    assert line[..n] == h.0 && line[n + 1..] == " " + h.1;
    FindIs(line, ':', n);
    TrimTrimmed(h.0);
    if h.1 == [] {
      assert Trim(" ") == "" by { assert " "[1..] == ""; }
      assert " " + h.1 == " ";
    } else {
      TrimLeadingSpace(h.1);
    }
  }

  lemma {:induction false} HeadersRead(m: map<string, string>, headers: seq<(string, string)>, lower: Lower,
                                       key: string)
    requires forall i | 0 <= i < |headers| :: IsHeader(headers[i])
    decreases headers
    ensures var r, v := AddHeaders(m, HeaderLines(headers), lower), ValueOf(headers, lower, key);
            && (key in r <==> v.Some? || key in m)
            && (key in r ==> r[key] == if v.Some? then v.value else m[key])
  {
    if headers != [] {
      HeaderRead(m, headers[0], lower);
      ValueOfFirst(headers, lower, key);
      HeadersRead(m[lower(headers[0].0) := headers[0].1], headers[1..], lower, key);
    }
  }

  // ---- the round trip ------------------------------------------------------------------------------------

  /** The block came back: status, body verbatim, and every name with the last value given to it. */
  ghost predicate IsBlock(r: Response, b: Block, lower: Lower) {
    && r.status == b.status && r.body == b.body
    && (forall key :: key in r.headers <==> ValueOf(b.headers, lower, key).Some?)
    && (forall key :: key in r.headers ==> Some(r.headers[key]) == ValueOf(b.headers, lower, key))
  }

  ghost predicate Recovered(raw: string, b: Block, lower: Lower) {
    Parse(raw, lower).Ok? && IsBlock(Parse(raw, lower).value, b, lower)
  }

  lemma HeadParsed(b: Block, lower: Lower)
    requires Printable(b)
    ensures var r := ParseHead(Head(Lines(b), b.ending), b.body, lower); r.Ok? && IsBlock(r.value, b, lower)
  {
    LinesAre(b);
    SplitHead(Lines(b), b.ending);
    StatusRead(b);
    assert Lines(b)[1..] == HeaderLines(b.headers);
    forall key ensures var headers := AddHeaders(map[], HeaderLines(b.headers), lower);
                       && (key in headers <==> ValueOf(b.headers, lower, key).Some?)
                       && (key in headers ==> Some(headers[key]) == ValueOf(b.headers, lower, key))
    {
      HeadersRead(map[], b.headers, lower, key);
    }
  }

  lemma LastParsed(prior: string, b: Block, lower: Lower)
    requires Printable(b) && (prior != [] ==> prior[|prior| - 1] == '\n') && Free("\n" + b.body, "\nHTTP/")
    ensures Recovered(prior + Print(b), b, lower) <==> b.ending.Crlf? || Free(b.body, Gap(Crlf))
  {
    PrintIsFree(b);
    PrintStarts(b);
    LastBlockIs(prior, Print(b));
    OneParsed(prior + Print(b), b, lower);
  }

  lemma OneParsed(raw: string, b: Block, lower: Lower)
    requires Printable(b) && LastBlock(raw) == Print(b)
    ensures Recovered(raw, b, lower) <==> b.ending.Crlf? || Free(b.body, Gap(Crlf))
  {
    CutIs(b);
    HeadParsed(b, lower);
  }

  lemma BodyMistaken(prior: string, b: Block, lower: Lower)
    requires !Free("\n" + b.body, "\nHTTP/")
    ensures !Recovered(prior + Print(b), b, lower)
  {
    PrintShape(b);
    var front := prior + (Ended(Lines(b), b.ending, Cr(b.ending)) + "\n");
    assert prior + Print(b) == front + b.body;
    LastBlockInBody(front, b.body);
  }

  /**
   * Round trip. Of any list of printed blocks, the last comes back exactly when its body neither
   * starts with an HTTP version nor has one at the start of a line, and, if its lines end in plain
   * newlines, its body holds no empty line ended by carriage returns.
   */
  lemma RecoveredIff(bs: seq<Block>, lower: Lower)
    requires bs != [] && PrintableAll(bs)
    ensures var b := bs[|bs| - 1];
            Recovered(PrintAll(bs), b, lower) <==>
            Free("\n" + b.body, "\nHTTP/") && (b.ending.Lf? ==> Free(b.body, Gap(Crlf)))
  {
    var prior, b := PrintAll(bs[..|bs| - 1]), bs[|bs| - 1];
    PriorEndsLine(bs[..|bs| - 1]);
    if Free("\n" + b.body, "\nHTTP/") {
      LastParsed(prior, b, lower);
    } else {
      BodyMistaken(prior, b, lower);
    }
  }
}
