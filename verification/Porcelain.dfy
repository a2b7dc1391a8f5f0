/**
 * Reading `git worktree list --porcelain`, and what of git's printout survives it.
 *
 * Git prints one block of lines per worktree with an empty line after each: first `worktree` and the
 * path, then `HEAD` and a commit, then `branch` and a full reference, `detached` or `bare`, and then
 * notes such as `locked` or `prunable`. The program trims the whole output, cuts it at empty lines and
 * reads each block line by line.
 */
module Porcelain {
  import opened Text

  // ---- the reader --------------------------------------------------------------------------

  /** The index of the first empty line's first newline, or the length. */
  function FindGap(s: string): (i: nat)
    ensures i < |s| ==> i + 2 <= |s| && s[i] == s[i + 1] == '\n'
    ensures i <= |s|
  {
    if |s| < 2 then |s|
    else if s[0] == '\n' && s[1] == '\n' then 0
    else 1 + FindGap(s[1..])
  }

  function Split(s: string): seq<string>
    decreases |s|
  {
    var i := FindGap(s);
    if i == |s| then [s] else [s[..i]] + Split(s[i + 2..])
  }

  function NonBlank(blocks: seq<string>): seq<string> {
    if blocks == [] then []
    else (if Trim(blocks[0]) != "" then [blocks[0]] else []) + NonBlank(blocks[1..])
  }

  function TrimStartMatches(s: string, prefix: string): string
    requires prefix != []
  {
    if StartsWith(s, prefix) then TrimStartMatches(s[|prefix|..], prefix) else s
  }

  function Take8(s: string): string {
    if |s| <= 8 then s else s[..8]
  }

  datatype Fields = Fields(wt: string, head: string, branch: string)

  function OnLine(f: Fields, line: string): Fields {
    if StartsWith(line, "worktree ") then f.(wt := line[9..])
    else if StartsWith(line, "HEAD ") then f.(head := Take8(line[5..]))
    else if StartsWith(line, "branch ") then f.(branch := TrimStartMatches(line[7..], "refs/heads/"))
    else if line == "detached" then f.(branch := "(detached)")
    else if line == "bare" then f.(branch := "(bare)")
    else f
  }

  function ReadLines(f: Fields, lines: seq<string>): Fields
    decreases lines
  {
    if lines == [] then f else ReadLines(OnLine(f, lines[0]), lines[1..])
  }

  const NO_FIELDS := Fields("", "", "")

  /** The path on the first line that gives one, or nothing. */
  function MainPath(lines: seq<string>): string {
    if lines == [] then ""
    else if StartsWith(lines[0], "worktree ") then lines[0][9..]
    else MainPath(lines[1..])
  }

  datatype Pending = Pending(clone: string, worktree: string, branch: string, head: string, isMain: bool)

  function PendingFrom(f: Fields, main: string): seq<Pending> {
    if f.wt == "" then [] else [Pending(main, f.wt, f.branch, f.head, f.wt == main)]
  }

  function PendingOf(blocks: seq<string>, main: string): seq<Pending> {
    if blocks == [] then []
    else PendingFrom(ReadLines(NO_FIELDS, SplitLines(blocks[0])), main) + PendingOf(blocks[1..], main)
  }

  function Read(text: string): seq<Pending> {
    var blocks := NonBlank(Split(text));
    PendingOf(blocks, if blocks == [] then "" else MainPath(SplitLines(blocks[0])))
  }

  method ReadBlock(block: string) returns (f: Fields)
    ensures f == ReadLines(NO_FIELDS, SplitLines(block))
  {
    var lines := SplitLines(block);
    var wt, head, branch := "", "", "";
    for i := 0 to |lines|
      invariant ReadLines(Fields(wt, head, branch), lines[i..]) == ReadLines(NO_FIELDS, lines)
    {
      var line := lines[i];
      assert lines[i..][0] == line && lines[i..][1..] == lines[i + 1..];
      if StartsWith(line, "worktree ") {
        wt := line[9..];
      } else if StartsWith(line, "HEAD ") {
        head := Take8(line[5..]);
      } else if StartsWith(line, "branch ") {
        branch := TrimStartMatches(line[7..], "refs/heads/");
      } else if line == "detached" {
        branch := "(detached)";
      } else if line == "bare" {
        branch := "(bare)";
      }
    }
    f := Fields(wt, head, branch);
  }

  method ReadBlocks(blocks: seq<string>, main: string) returns (pending: seq<Pending>)
    ensures pending == PendingOf(blocks, main)
  {
    pending := [];
    for i := 0 to |blocks|
      invariant pending + PendingOf(blocks[i..], main) == PendingOf(blocks, main)
    {
      var f := ReadBlock(blocks[i]);
      PendingStep(blocks, main, i, pending);
      if f.wt == "" {
        continue;
      }
      pending := pending + [Pending(main, f.wt, f.branch, f.head, f.wt == main)];
    }
  }

  method Enumerate(text: string) returns (pending: seq<Pending>)
    ensures pending == Read(text)
  {
    var blocks := NonBlank(Split(text));
    var main := if blocks == [] then "" else MainPath(SplitLines(blocks[0]));
    pending := ReadBlocks(blocks, main);
  }

  lemma PendingStep(blocks: seq<string>, main: string, i: nat, pending: seq<Pending>)
    requires i < |blocks|
    ensures var f := ReadLines(NO_FIELDS, SplitLines(blocks[i]));
            pending + PendingOf(blocks[i..], main) ==
              (if f.wt == "" then pending else pending + [Pending(main, f.wt, f.branch, f.head, f.wt == main)])
              + PendingOf(blocks[i + 1..], main)
  {
    assert blocks[i..][0] == blocks[i] && blocks[i..][1..] == blocks[i + 1..];
    var read, rest := PendingFrom(ReadLines(NO_FIELDS, SplitLines(blocks[i])), main), PendingOf(blocks[i + 1..], main);
    assert pending + (read + rest) == (pending + read) + rest;
    assert pending + [] == pending;
  }

  // ---- what git prints ---------------------------------------------------------------------

  datatype Checkout = Branch(name: string) | Detached | Bare

  /** `notes` are the lines about locks and pruning. */
  datatype Record = Record(path: string, sha: string, at: Checkout, notes: seq<string>)

  ghost predicate OneLine(s: string) {
    forall i | 0 <= i < |s| :: s[i] != '\n'
  }

  /** Git forbids spaces and control characters in branch names; it does not forbid other whitespace. */
  ghost predicate RefName(s: string) {
    s != [] && forall i | 0 <= i < |s| :: s[i] > ' ' && s[i] != 0x7f as char
  }

  ghost predicate Hex(s: string) {
    s != [] && forall i | 0 <= i < |s| :: '0' <= s[i] <= '9' || 'a' <= s[i] <= 'f'
  }

  ghost predicate Note(s: string) {
    OneLine(s) && (StartsWith(s, "locked") || StartsWith(s, "prunable"))
  }

  ghost predicate Printable(r: Record) {
    && OneLine(r.path) && r.path != [] && r.path[0] != '\r'
    && Hex(r.sha)
    && (r.at.Branch? ==> RefName(r.at.name))
    && forall i | 0 <= i < |r.notes| :: Note(r.notes[i])
  }

  ghost predicate AllPrintable(rs: seq<Record>) {
    forall i | 0 <= i < |rs| :: Printable(rs[i])
  }

  function HeadLines(r: Record): seq<string> {
    match r.at
    case Bare => ["worktree " + r.path, "bare"]
    case Detached => ["worktree " + r.path, "HEAD " + r.sha, "detached"]
    case Branch(name) => ["worktree " + r.path, "HEAD " + r.sha, "branch refs/heads/" + name]
  }

  function LinesOf(r: Record): seq<string> {
    HeadLines(r) + r.notes
  }

  function Joined(lines: seq<string>): string {
    if lines == [] then ""
    else if |lines| == 1 then lines[0]
    else lines[0] + "\n" + Joined(lines[1..])
  }

  function Print(rs: seq<Record>): string {
    if rs == [] then "" else Joined(LinesOf(rs[0])) + "\n\n" + Print(rs[1..])
  }

  // ---- trimming the whole output reaches only the last line -------------------------------------

  /** Lines as git prints them: not empty, one line each, and starting with a letter. */
  ghost predicate Line(s: string) {
    s != [] && !IsWhitespace(s[0]) && OneLine(s)
  }

  ghost predicate AreLines(lines: seq<string>) {
    lines != [] && forall i | 0 <= i < |lines| :: Line(lines[i])
  }

  lemma HeadsAreLines(r: Record)
    requires Printable(r)
    ensures forall i | 0 <= i < |HeadLines(r)| :: Line(HeadLines(r)[i])
  {
    assert Line("worktree " + r.path);
    assert Line("HEAD " + r.sha);
    assert r.at.Branch? ==> Line("branch refs/heads/" + r.at.name);
    assert Line("bare") && Line("detached");
  }

  lemma PrintsLines(r: Record)
    requires Printable(r)
    ensures AreLines(LinesOf(r))
  {
    HeadsAreLines(r);
    forall i | 0 <= i < |r.notes| ensures Line(r.notes[i]) {
      assert Note(r.notes[i]);
      assert r.notes[i][0] == 'l' || r.notes[i][0] == 'p';
    }
  }

  function Clip(lines: seq<string>): seq<string>
    requires lines != []
  {
    lines[|lines| - 1 := TrimEnd(lines[|lines| - 1])]
  }

  lemma {:induction false} TrimEndFar(a: string, b: string)
    requires b != [] && !IsWhitespace(b[0])
    ensures TrimEnd(a + b) == a + TrimEnd(b)
  {
    if IsWhitespace(b[|b| - 1]) {
      TrimEndFar(a, b[..|b| - 1]);
      assert (a + b)[..|a + b| - 1] == a + b[..|b| - 1];
    }
  }

  lemma TrimEndDropsGap(s: string)
    ensures TrimEnd(s + "\n\n") == TrimEnd(s)
  {
    assert (s + "\n\n")[..|s| + 1] == s + "\n" && (s + "\n")[..|s|] == s;
  }

  lemma {:induction false} TrimEndJoined(lines: seq<string>)
    requires AreLines(lines)
    ensures TrimEnd(Joined(lines)) == Joined(Clip(lines))
  {
    if |lines| > 1 {
      TrimEndJoined(lines[1..]);
      assert Line(lines[1]);
      assert Joined(lines[1..])[0] == lines[1][0];
      TrimEndFar(lines[0] + "\n", Joined(lines[1..]));
      assert Clip(lines)[1..] == Clip(lines[1..]);
    }
  }

  /** The blocks between the gaps once the output is trimmed. */
  function BlocksOf(rs: seq<Record>): seq<seq<string>> {
    if rs == [] then []
    else if |rs| == 1 then [Clip(LinesOf(rs[0]))]
    else [LinesOf(rs[0])] + BlocksOf(rs[1..])
  }

  function Gapped(blocks: seq<seq<string>>): string {
    if blocks == [] then ""
    else if |blocks| == 1 then Joined(blocks[0])
    else Joined(blocks[0]) + "\n\n" + Gapped(blocks[1..])
  }

  lemma {:induction false} TrimEndPrint(rs: seq<Record>)
    requires rs != [] && AllPrintable(rs)
    ensures TrimEnd(Print(rs)) == Gapped(BlocksOf(rs))
  {
    PrintsLines(rs[0]);
    var here := Joined(LinesOf(rs[0]));
    if |rs| == 1 {
      assert Print(rs) == here + "\n\n";
      TrimEndDropsGap(here);
      TrimEndJoined(LinesOf(rs[0]));
    } else {
      TrimEndPrint(rs[1..]);
      TrimEndFar(here + "\n\n", Print(rs[1..]));
      assert |BlocksOf(rs)| > 1 && BlocksOf(rs)[1..] == BlocksOf(rs[1..]);
    }
  }

  lemma {:induction false} BlocksAreLines(rs: seq<Record>)
    requires rs != [] && AllPrintable(rs)
    ensures |BlocksOf(rs)| == |rs| && forall i | 0 <= i < |rs| :: AreLines(BlocksOf(rs)[i])
  {
    PrintsLines(rs[0]);
    if |rs| == 1 {
      var lines := LinesOf(rs[0]);
      var last := lines[|lines| - 1];
      TrimEndKeepsFirst(last);
      TrimEndIsPrefix(last);
    } else {
      BlocksAreLines(rs[1..]);
    }
  }

  lemma {:induction false} TrimEndIsPrefix(s: string)
    ensures TrimEnd(s) <= s && (TrimEnd(s) == s <==> s == [] || !IsWhitespace(s[|s| - 1]))
  {
    if s != [] && IsWhitespace(s[|s| - 1]) {
      TrimEndIsPrefix(s[..|s| - 1]);
    }
  }

  // ---- the gaps and the lines are found again -----------------------------------------------------

  ghost predicate NoGap(s: string) {
    forall i | 0 <= i < |s| - 1 :: !(s[i] == s[i + 1] == '\n')
  }

  lemma {:induction false} JoinedHasNoGap(lines: seq<string>)
    requires AreLines(lines)
    ensures var s := Joined(lines); NoGap(s) && s != [] && s[0] == lines[0][0] && s[|s| - 1] != '\n'
  {
    assert Line(lines[0]);
    if |lines| > 1 {
      JoinedHasNoGap(lines[1..]);
      var s, rest, n := Joined(lines), Joined(lines[1..]), |lines[0]|;
      assert s[n + 1..] == rest && Line(lines[1]);
      forall i | 0 <= i < |s| - 1 ensures !(s[i] == s[i + 1] == '\n') {
        if i < n {
          assert s[i] == lines[0][i];
        } else if i > n {
          assert s[i] == rest[i - n - 1] && s[i + 1] == rest[i - n];
        } else {
          assert s[i + 1] == rest[0] == lines[1][0];
        }
      }
    }
  }

  lemma {:induction false} FindGapFinds(s: string, rest: string)
    requires NoGap(s) && s != [] && s[|s| - 1] != '\n'
    ensures FindGap(s + "\n\n" + rest) == |s| && FindGap(s) == |s|
  {
    var t := s + "\n\n" + rest;
    assert t[0] == s[0] && (|s| > 1 ==> t[1] == s[1]) && (|s| == 1 ==> t[1..] == "\n\n" + rest);
    if |s| > 1 {
      assert t[1..] == s[1..] + "\n\n" + rest;
      assert forall i | 0 <= i < |s[1..]| :: s[1..][i] == s[i + 1];
      FindGapFinds(s[1..], rest);
    }
  }

  function JoinedEach(blocks: seq<seq<string>>): seq<string> {
    if blocks == [] then [] else [Joined(blocks[0])] + JoinedEach(blocks[1..])
  }

  lemma {:induction false} SplitGapped(blocks: seq<seq<string>>)
    requires blocks != [] && forall i | 0 <= i < |blocks| :: AreLines(blocks[i])
    ensures Split(Gapped(blocks)) == JoinedEach(blocks) && NonBlank(JoinedEach(blocks)) == JoinedEach(blocks)
  {
    var here := Joined(blocks[0]);
    JoinedHasNoGap(blocks[0]);
    assert Line(blocks[0][0]);
    TrimEndKeepsFirst(here);
    if |blocks| == 1 {
      FindGapFinds(here, "");
    } else {
      var rest := Gapped(blocks[1..]);
      FindGapFinds(here, rest);
      var s := here + "\n\n" + rest;
      assert s[..|here|] == here && s[|here| + 2..] == rest;
      SplitGapped(blocks[1..]);
    }
  }

  /** Every line but the last loses a carriage return at its end. */
  function Stripped(lines: seq<string>): seq<string> {
    if |lines| <= 1 then lines else [StripCr(lines[0])] + Stripped(lines[1..])
  }

  lemma {:induction false} SplitJoined(lines: seq<string>)
    requires AreLines(lines)
    ensures SplitLines(Joined(lines)) == Stripped(lines)
  {
    assert Line(lines[0]);
    var s := Joined(lines);
    if |lines| == 1 {
      assert s == lines[0];
      assert Find(s, '\n') == |s|;
    } else {
      var n := |lines[0]|;
      assert s[..n] == lines[0] && s[n + 1..] == Joined(lines[1..]);
      FindIs(s, '\n', n);
      SplitJoined(lines[1..]);
    }
  }

  // ---- reading one block back -----------------------------------------------------------------------

  lemma {:induction false} StrippedAt(lines: seq<string>)
    ensures |Stripped(lines)| == |lines|
    ensures forall i | 0 <= i < |lines| :: Stripped(lines)[i] == if i < |lines| - 1 then StripCr(lines[i]) else lines[i]
  {
    if |lines| > 1 {
      StrippedAt(lines[1..]);
    }
  }

  lemma {:induction false} TrimEndStops(a: string, b: string)
    requires a != [] && !IsWhitespace(a[|a| - 1])
    ensures TrimEnd(a + b) == a + TrimEnd(b)
  {
    if b == [] {
      assert a + b == a;
    } else if IsWhitespace(b[|b| - 1]) {
      TrimEndStops(a, b[..|b| - 1]);
      assert (a + b)[..|a + b| - 1] == a + b[..|b| - 1];
    }
  }

  ghost predicate ReadsAsNote(line: string) {
    StartsWith(line, "lock") || StartsWith(line, "prun")
  }

  lemma {:induction false} NotesIgnored(f: Fields, lines: seq<string>)
    requires forall i | 0 <= i < |lines| :: ReadsAsNote(lines[i])
    ensures ReadLines(f, lines) == f
  {
    if lines != [] {
      assert ReadsAsNote(lines[0]);
      assert lines[0][0] == 'l' || lines[0][0] == 'p';
      assert OnLine(f, lines[0]) == f;
      NotesIgnored(f, lines[1..]);
    }
  }

  function Head8(r: Record): string {
    if r.at.Bare? then "" else Take8(r.sha)
  }

  function Label(at: Checkout, name: string): string {
    match at
    case Bare => "(bare)"
    case Detached => "(detached)"
    case Branch(_) => TrimStartMatches(name, "refs/heads/")
  }

  /** The lines that arrive for a record: its path perhaps cut at the end, its branch now called `name`. */
  ghost predicate Arrives(r: Record, lines: seq<string>, name: string) {
    && |lines| == |LinesOf(r)|
    && lines[0] == "worktree " + StripCr(r.path)
    && (match r.at
        case Bare => lines[1] == "bare"
        case Detached => lines[1] == "HEAD " + r.sha && lines[2] == "detached"
        case Branch(_) => lines[1] == "HEAD " + r.sha && lines[2] == "branch refs/heads/" + name)
    && forall i | |HeadLines(r)| <= i < |lines| :: ReadsAsNote(lines[i])
  }

  lemma OnHead(f: Fields, sha: string)
    ensures OnLine(f, "HEAD " + sha) == f.(head := Take8(sha))
  {
    var line := "HEAD " + sha;
    assert line[0] == 'H' && line[5..] == sha;
  }

  lemma OnBranch(f: Fields, name: string)
    ensures OnLine(f, "branch refs/heads/" + name) == f.(branch := TrimStartMatches(name, "refs/heads/"))
  {
    var line := "branch refs/heads/" + name;
    assert line[0] == 'b' && line[..7] == "branch ";
    var rest := line[7..];
    assert rest == "refs/heads/" + name && rest[11..] == name;
  }

  lemma OnWord(f: Fields)
    ensures OnLine(f, "detached") == f.(branch := "(detached)") && OnLine(f, "bare") == f.(branch := "(bare)")
  {
    assert "detached"[0] == 'd' && "bare"[0] == 'b' && |"bare"| == 4;
  }

  lemma ReadsHead(r: Record, lines: seq<string>, name: string)
    requires Arrives(r, lines, name)
    ensures MainPath(lines) == StripCr(r.path)
    ensures var k := |HeadLines(r)|;
            ReadLines(NO_FIELDS, lines) == ReadLines(Fields(StripCr(r.path), Head8(r), Label(r.at, name)), lines[k..])
  {
    var f := NO_FIELDS.(wt := StripCr(r.path));
    assert ReadLines(NO_FIELDS, lines) == ReadLines(f, lines[1..]);
    OnWord(f);
    assert lines[1..][0] == lines[1] && lines[1..][1..] == lines[2..];
    if !r.at.Bare? {
      var g := f.(head := Take8(r.sha));
      OnHead(f, r.sha);
      OnWord(g);
      OnBranch(g, name);
      assert ReadLines(f, lines[1..]) == ReadLines(g, lines[2..]);
      assert lines[2..][0] == lines[2] && lines[2..][1..] == lines[3..];
    }
  }

  lemma ReadRecord(r: Record, lines: seq<string>, name: string)
    requires Arrives(r, lines, name)
    ensures MainPath(lines) == StripCr(r.path)
    ensures ReadLines(NO_FIELDS, lines) == Fields(StripCr(r.path), Head8(r), Label(r.at, name))
  {
    ReadsHead(r, lines, name);
    NotesIgnored(Fields(StripCr(r.path), Head8(r), Label(r.at, name)), lines[|HeadLines(r)|..]);
  }

  /** The branch name as it arrives: trimming the whole output reaches it when it ends the last line. */
  function Arriving(r: Record, last: bool): string {
    if !r.at.Branch? then "" else if last && r.notes == [] then TrimEnd(r.at.name) else r.at.name
  }

  lemma NoteStays(note: string)
    requires Note(note)
    ensures ReadsAsNote(StripCr(note)) && ReadsAsNote(note) && ReadsAsNote(TrimEnd(note))
  {
    var k := if StartsWith(note, "locked") then 6 else 7;
    var rest := note[k..];
    assert note == note[..k] + rest;
    TrimEndStops(note[..k], rest);
    assert note[..4] == "lock" || note[..4] == "prun";
  }

  lemma BranchStays(name: string)
    requires RefName(name)
    ensures StripCr("branch refs/heads/" + name) == "branch refs/heads/" + name
    ensures TrimEnd("branch refs/heads/" + name) == "branch refs/heads/" + TrimEnd(name)
  {
    var line := "branch refs/heads/" + name;
    assert line[|line| - 1] == name[|name| - 1] > ' ';
    TrimEndStops("branch refs/heads/", name);
  }

  /** Line i as it arrives. */
  function ArrivingLine(r: Record, last: bool, i: nat): string
    requires i < |LinesOf(r)|
  {
    var line := LinesOf(r)[i];
    if i < |LinesOf(r)| - 1 then StripCr(line) else if last then TrimEnd(line) else line
  }

  lemma NotesArrive(r: Record, last: bool, i: nat)
    requires Printable(r) && |HeadLines(r)| <= i < |LinesOf(r)|
    ensures ReadsAsNote(ArrivingLine(r, last, i))
  {
    assert LinesOf(r)[i] == r.notes[i - |HeadLines(r)|];
    NoteStays(r.notes[i - |HeadLines(r)|]);
  }

  lemma HeadArrives(r: Record, last: bool)
    requires Printable(r)
    ensures ArrivingLine(r, last, 0) == "worktree " + StripCr(r.path)
    ensures match r.at
            case Bare => ArrivingLine(r, last, 1) == "bare"
            case Detached => ArrivingLine(r, last, 1) == "HEAD " + r.sha && ArrivingLine(r, last, 2) == "detached"
            case Branch(_) => ArrivingLine(r, last, 1) == "HEAD " + r.sha
                              && ArrivingLine(r, last, 2) == "branch refs/heads/" + Arriving(r, last)
  {
    if r.at.Branch? {
      BranchStays(r.at.name);
    }
  }

  lemma LineArrives(r: Record, last: bool, i: nat)
    requires i < |LinesOf(r)|
    ensures var lines := Stripped(if last then Clip(LinesOf(r)) else LinesOf(r));
            |lines| == |LinesOf(r)| && lines[i] == ArrivingLine(r, last, i)
  {
    StrippedAt(if last then Clip(LinesOf(r)) else LinesOf(r));
  }

  lemma RecordArrives(r: Record, last: bool)
    requires Printable(r)
    ensures Arrives(r, Stripped(if last then Clip(LinesOf(r)) else LinesOf(r)), Arriving(r, last))
  {
    LineArrives(r, last, 0);
    LineArrives(r, last, 1);
    if !r.at.Bare? {
      LineArrives(r, last, 2);
    }
    HeadArrives(r, last);
    var lines := Stripped(if last then Clip(LinesOf(r)) else LinesOf(r));
    forall i | |HeadLines(r)| <= i < |lines| ensures ReadsAsNote(lines[i]) {
      LineArrives(r, last, i);
      NotesArrive(r, last, i);
    }
  }

  // ---- the whole output ----------------------------------------------------------------------------

  /** What the program makes of record r when the first record has path `main`. */
  function Got(r: Record, last: bool, main: string): Pending {
    Pending(StripCr(main), StripCr(r.path), Label(r.at, Arriving(r, last)), Head8(r), StripCr(r.path) == StripCr(main))
  }

  /** What it should make of it. */
  function Meant(r: Record, main: string): Pending {
    Pending(main, r.path, match r.at case Bare => "(bare)" case Detached => "(detached)" case Branch(name) => name,
            Head8(r), r.path == main)
  }

  function GotAll(rs: seq<Record>, main: string): seq<Pending> {
    if rs == [] then [] else [Got(rs[0], |rs| == 1, main)] + GotAll(rs[1..], main)
  }

  lemma BlockRead(r: Record, last: bool)
    requires Printable(r)
    ensures var lines := if last then Clip(LinesOf(r)) else LinesOf(r);
            && AreLines(lines)
            && ReadLines(NO_FIELDS, SplitLines(Joined(lines)))
                == Fields(StripCr(r.path), Head8(r), Label(r.at, Arriving(r, last)))
            && MainPath(SplitLines(Joined(lines))) == StripCr(r.path)
  {
    BlocksAreLines([r]);
    PrintsLines(r);
    var lines := if last then Clip(LinesOf(r)) else LinesOf(r);
    assert BlocksOf([r])[0] == Clip(LinesOf(r));
    SplitJoined(lines);
    RecordArrives(r, last);
    ReadRecord(r, Stripped(lines), Arriving(r, last));
  }

  lemma {:induction false} BlocksRead(rs: seq<Record>, main: string)
    requires AllPrintable(rs)
    ensures PendingOf(JoinedEach(BlocksOf(rs)), StripCr(main)) == GotAll(rs, main)
  {
    if rs != [] {
      BlockRead(rs[0], |rs| == 1);
      assert BlocksOf(rs)[1..] == BlocksOf(rs[1..]);
      BlocksRead(rs[1..], main);
    }
  }

  /** Reading git's output gives one entry per record, in order, each as `Got` says. */
  lemma ReadPrinted(rs: seq<Record>)
    requires rs != [] && AllPrintable(rs)
    ensures Read(Trim(Print(rs))) == GotAll(rs, rs[0].path)
  {
    TrimEndPrint(rs);
    BlocksAreLines(rs);
    SplitGapped(BlocksOf(rs));
    BlockRead(rs[0], |rs| == 1);
    BlocksRead(rs, rs[0].path);
  }

  lemma {:induction false} GotAllAt(rs: seq<Record>, main: string)
    ensures |GotAll(rs, main)| == |rs|
    ensures forall i | 0 <= i < |rs| :: GotAll(rs, main)[i] == Got(rs[i], i == |rs| - 1, main)
  {
    if rs != [] {
      GotAllAt(rs[1..], main);
    }
  }

  // ---- the round trip --------------------------------------------------------------------------------

  /** What the program's cutting does not touch. */
  ghost predicate Intact(r: Record, last: bool)
    requires Printable(r)
  {
    && r.path[|r.path| - 1] != '\r'
    && (r.at.Branch? ==> !StartsWith(r.at.name, "refs/heads/"))
    && (r.at.Branch? && last && r.notes == [] ==> !IsWhitespace(r.at.name[|r.at.name| - 1]))
  }

  lemma {:induction false} TrimStartShrinks(s: string, prefix: string)
    requires prefix != []
    ensures |TrimStartMatches(s, prefix)| <= |s|
    ensures TrimStartMatches(s, prefix) == s <==> !StartsWith(s, prefix)
  {
    if StartsWith(s, prefix) {
      TrimStartShrinks(s[|prefix|..], prefix);
    }
  }

  lemma GotIsMeantIff(r: Record, last: bool, main: string)
    requires Printable(r) && main != [] && main[|main| - 1] != '\r'
    ensures Got(r, last, main) == Meant(r, main) <==> Intact(r, last)
  {
    if r.at.Branch? {
      var name := Arriving(r, last);
      TrimEndIsPrefix(r.at.name);
      TrimStartShrinks(name, "refs/heads/");
    }
  }

  ghost predicate Recovered(rs: seq<Record>)
    requires rs != []
  {
    var got := Read(Trim(Print(rs)));
    |got| == |rs| && forall i | 0 <= i < |rs| :: got[i] == Meant(rs[i], rs[0].path)
  }

  ghost predicate AllIntact(rs: seq<Record>)
    requires forall i | 0 <= i < |rs| :: Printable(rs[i])
  {
    forall i | 0 <= i < |rs| :: Intact(rs[i], i == |rs| - 1)
  }

  /**
   * Round trip. For every list of worktrees git can print, the program recovers every path, branch,
   * short head and main mark, in order, exactly when no path ends in a carriage return, no branch is
   * itself called refs/heads/..., and the output does not end in a branch name that ends in whitespace.
   */
  lemma RecoveredIff(rs: seq<Record>)
    requires rs != [] && AllPrintable(rs)
    ensures Recovered(rs) <==> AllIntact(rs)
  {
    var main := rs[0].path;
    ReadPrinted(rs);
    GotAllAt(rs, main);
    if main[|main| - 1] == '\r' {
      assert Got(rs[0], |rs| == 1, main).worktree != Meant(rs[0], main).worktree;
      assert !Intact(rs[0], 0 == |rs| - 1);
    } else {
      forall i | 0 <= i < |rs|
        ensures Got(rs[i], i == |rs| - 1, main) == Meant(rs[i], main) <==> Intact(rs[i], i == |rs| - 1) {
        GotIsMeantIff(rs[i], i == |rs| - 1, main);
      }
    }
  }

  /** Exactly one entry is the main worktree, the first, when paths are distinct as they arrive. */
  lemma OneMain(rs: seq<Record>, i: nat)
    requires i < |rs| && AllPrintable(rs)
    requires forall j, k | 0 <= j < k < |rs| :: StripCr(rs[j].path) != StripCr(rs[k].path)
    ensures var got := Read(Trim(Print(rs))); |got| == |rs| && (got[i].isMain <==> i == 0)
  {
    ReadPrinted(rs);
    GotAllAt(rs, rs[0].path);
  }
}
