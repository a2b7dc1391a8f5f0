/**
 * Forcing a clone's default branch to its remote, over an abstract repository.
 *
 * The program looks at HEAD first. Off the default branch it fetches and moves the branch by force; on
 * it, it stashes tracked edits if there are any, fetches, and resets. Every git command may fail, a
 * stash or a reset may stop half way, and the user may write files between the commands; git is taken
 * to do what its documentation says of these commands.
 */
module Checkout {
  import opened Wrappers
  import opened Text

  type File = string
  type Content = string
  type Commit = nat
  type Tree = map<File, Content>

  /** What a user does to files: a content to write, or None to delete. */
  type Writes = map<File, Option<Content>>

  datatype Head = On(branch: string) | At(commit: Commit)

  datatype Stashed = Stashed(base: Commit, edits: Writes)

  /** `added` are the staged files that HEAD does not have; `elsewhere` the branches of linked worktrees. */
  datatype Repo = Repo(
    trees: Commit -> Tree, head: Head, branches: map<string, Commit>, remotes: map<string, Commit>,
    elsewhere: set<string>, added: set<File>, files: Tree, stash: seq<Stashed>)

  function Look(files: Tree, f: File): Option<Content> {
    if f in files then Some(files[f]) else None
  }

  function HeadCommit(s: Repo): Option<Commit> {
    match s.head
    case At(c) => Some(c)
    case On(b) => if b in s.branches then Some(s.branches[b]) else None
  }

  function HeadTree(s: Repo): Tree {
    match HeadCommit(s)
    case None => map[]
    case Some(c) => s.trees(c)
  }

  function Tracked(s: Repo): set<File> {
    HeadTree(s).Keys + s.added
  }

  predicate Edited(s: Repo, f: File) {
    f in Tracked(s) && (f in s.added || Look(s.files, f) != Look(HeadTree(s), f))
  }

  predicate Dirty(s: Repo) {
    exists f :: f in Tracked(s) && Edited(s, f)
  }

  function Edits(s: Repo): Writes {
    map f | f in Tracked(s) && Edited(s, f) :: Look(s.files, f)
  }

  // ---- the git commands ------------------------------------------------------------------------

  /** Prints the branch's name, or nothing when HEAD is detached. */
  function CurrentBranch(s: Repo): string {
    match s.head
    case On(b) => b
    case At(_) => ""
  }

  /** The files with these paths made as in the tree. */
  function CheckedOut(files: Tree, paths: set<File>, tree: Tree): Tree {
    map f | f in files.Keys + tree.Keys && (f in paths ==> f in tree) && (f !in paths ==> f in files) ::
      if f in paths then tree[f] else files[f]
  }

  /** No branch has an empty name, so fetching one fails. */
  predicate FetchOk(branch: string, tip: Option<Commit>) {
    branch != "" && tip.Some?
  }

  function Fetched(s: Repo, branch: string, tip: Commit): Repo {
    s.(remotes := s.remotes[branch := tip])
  }

  /** Git refuses to move a branch that is checked out, here or in a linked worktree. */
  predicate CanForce(s: Repo, branch: string) {
    branch in s.remotes && s.head != On(branch) && branch !in s.elsewhere
  }

  function Forced(s: Repo, branch: string): Repo
    requires branch in s.remotes
  {
    s.(branches := s.branches[branch := s.remotes[branch]])
  }

  /** Saves the edits of tracked files and takes them out of the worktree; untracked files stay. */
  function StashedAway(s: Repo): Repo
    requires HeadCommit(s).Some?
  {
    if !Dirty(s) then s
    else s.(stash := [Stashed(HeadCommit(s).value, Edits(s))] + s.stash,
            files := CheckedOut(s.files, Tracked(s), HeadTree(s)), added := {})
  }

  /** What a hard reset writes: tracked files, and whatever the target has. */
  function ResetPaths(s: Repo, target: Commit): set<File> {
    Tracked(s) + s.trees(target).Keys
  }

  function HardReset(s: Repo, target: Commit): Repo {
    s.(head := if s.head.On? then s.head else At(target),
       branches := if s.head.On? then s.branches[s.head.branch := target] else s.branches,
       files := CheckedOut(s.files, ResetPaths(s, target), s.trees(target)), added := {})
  }

  /** A reset that failed after writing some of its files. */
  function TornReset(s: Repo, target: Commit, written: set<File>): Repo {
    s.(files := CheckedOut(s.files, ResetPaths(s, target) * written, s.trees(target)))
  }

  function UserWrites(s: Repo, writes: Writes): Repo {
    s.(files := map f | f in s.files.Keys + writes.Keys && (f in writes ==> writes[f].Some?) ::
                  if f in writes then writes[f].value else s.files[f])
  }

  // ---- is the working tree clean? --------------------------------------------------------------

  /** A line of `git status --porcelain`: two letters and a path. */
  datatype StatusEntry = StatusEntry(code: string, path: string)

  ghost predicate StatusCode(code: string) {
    code == "??" || code == "!!" || (|code| == 2 && code != "  " && forall c | c in code :: c in " MTADRCU")
  }

  ghost predicate PrintableEntry(e: StatusEntry) {
    StatusCode(e.code) && forall i | 0 <= i < |e.path| :: e.path[i] != '\n' && e.path[i] != '\r'
  }

  function StatusText(entries: seq<StatusEntry>): string {
    if entries == [] then "" else entries[0].code + " " + entries[0].path + "\n" + StatusText(entries[1..])
  }

  predicate IsTrackedChange(e: StatusEntry) {
    e.code != "??" && e.code != "!!"
  }

  /** Git reports a tracked change exactly when there is one. */
  ghost predicate Reports(s: Repo, entries: seq<StatusEntry>) {
    && (forall i | 0 <= i < |entries| :: PrintableEntry(entries[i]))
    && (Dirty(s) <==> exists i :: 0 <= i < |entries| && IsTrackedChange(entries[i]))
  }

  predicate ShowsChange(line: string) {
    Trim(line) != "" && !StartsWith(line, "??") && !StartsWith(line, "!!")
  }

  lemma {:induction false} TrimKeeps(s: string, i: nat)
    requires i < |s| && !IsWhitespace(s[i])
    ensures Trim(s) != ""
  {
    if IsWhitespace(s[0]) {
      TrimKeeps(s[1..], i - 1);
    } else {
      TrimEndKeepsFirst(s);
    }
  }

  lemma CodeShows(e: StatusEntry)
    requires PrintableEntry(e)
    ensures |e.code| == 2 && (!IsWhitespace(e.code[0]) || (e.code[0] == ' ' && !IsWhitespace(e.code[1])))
    ensures e.code[0] != '\n' && e.code[1] != '\n'
  {
    assert forall c | c in " MTADRCU" :: c == ' ' || !IsWhitespace(c);
    assert e.code[0] in e.code && e.code[1] in e.code;
  }

  lemma EntryLine(e: StatusEntry)
    requires PrintableEntry(e)
    ensures var line := e.code + " " + e.path;
            && (ShowsChange(line) <==> IsTrackedChange(e))
            && StripCr(line) == line && forall i | 0 <= i < |line| :: line[i] != '\n'
  {
    var line := e.code + " " + e.path;
    CodeShows(e);
    TrimKeeps(line, if IsWhitespace(e.code[0]) then 1 else 0);
    assert line[..2] == e.code && line[2] == ' ' && line[3..] == e.path;
  }

  lemma FirstStatusLine(e: StatusEntry, rest: string)
    requires PrintableEntry(e)
    ensures SplitLines(e.code + " " + e.path + "\n" + rest) == [e.code + " " + e.path] + SplitLines(rest)
  {
    var line := e.code + " " + e.path;
    var text := line + "\n" + rest;
    EntryLine(e);
    FindIs(text, '\n', |line|);
    assert text[..|line|] == line && text[|line| + 1..] == rest;
  }

  /** Read line by line, the text shows a change exactly where an entry is one. */
  lemma {:induction false} StatusRead(entries: seq<StatusEntry>)
    requires forall i | 0 <= i < |entries| :: PrintableEntry(entries[i])
    ensures var lines := SplitLines(StatusText(entries));
            |lines| == |entries|
                && forall i | 0 <= i < |entries| :: ShowsChange(lines[i]) <==> IsTrackedChange(entries[i])
  {
    if entries != [] {
      FirstStatusLine(entries[0], StatusText(entries[1..]));
      EntryLine(entries[0]);
      StatusRead(entries[1..]);
    }
  }

  method WorkingTreeClean(ghost s: Repo, ghost entries: seq<StatusEntry>, text: string) returns (clean: bool)
    requires Reports(s, entries) && text == StatusText(entries)
    ensures clean <==> !Dirty(s)
  {
    var lines := SplitLines(text);
    clean := true;
    for i := 0 to |lines|
      invariant clean <==> forall j | 0 <= j < i :: !ShowsChange(lines[j])
    {
      if ShowsChange(lines[i]) {
        clean := false;
      }
    }
    StatusRead(entries);
  }

  // ---- the update ------------------------------------------------------------------------------

  /** How the stash command goes: failing, it may have saved the edits and taken some of them out of the worktree. */
  datatype StashRun = StashDone | StashUnsaved | StashSaved(cleared: set<File>)

  datatype ResetRun = ResetDone | ResetFailed(written: set<File>)

  /** Whether the three `rev-parse` calls could be started; what they print is only logged. */
  datatype Looks = Looks(before: bool, remote: bool, after: bool)

  /** How the commands of one update go; `tip` None is a failed fetch. */
  datatype World = World(
    currentOk: bool, looks: Looks, statusOk: bool, early: Writes, stash: StashRun, late: Writes, tip: Option<Commit>,
    reset: ResetRun, forceOk: bool)

  /** The edits saved, and the files in `cleared` back as HEAD has them. */
  function SavedPart(s: Repo, cleared: set<File>): Repo
    requires HeadCommit(s).Some?
  {
    if !Dirty(s) then s
    else s.(stash := [Stashed(HeadCommit(s).value, Edits(s))] + s.stash,
            files := CheckedOut(s.files, Tracked(s) * cleared, HeadTree(s)))
  }

  /** `git stash push`, which refuses without a commit to go back to. */
  function StashPush(s: Repo, run: StashRun): (Repo, bool) {
    if HeadCommit(s).None? then (s, false)
    else match run
         case StashDone => (StashedAway(s), true)
         case StashUnsaved => (s, false)
         case StashSaved(cleared) => (SavedPart(s, cleared), false)
  }

  function Reset(s: Repo, target: Commit, run: ResetRun): (Repo, bool) {
    match run
    case ResetDone => (HardReset(s, target), true)
    case ResetFailed(written) => (TornReset(s, target, written), false)
  }

  function ForceOff(s: Repo, branch: string, w: World): (Repo, bool) {
    if !w.looks.before || !FetchOk(branch, w.tip) then (s, false)
    else
      var fetched := Fetched(s, branch, w.tip.value);
      if w.looks.remote && w.forceOk && CanForce(fetched, branch) then (Forced(fetched, branch), w.looks.after)
      else (fetched, false)
  }

  /** Status and stash. */
  function Prepare(s: Repo, w: World): (Repo, bool) {
    if !w.statusOk || !w.looks.before then (s, false)
    else if Dirty(s) then StashPush(UserWrites(s, w.early), w.stash)
    else (UserWrites(s, w.early), true)
  }

  function ForceOn(s: Repo, branch: string, w: World): (Repo, bool) {
    var (prepared, ok) := Prepare(s, w);
    if !ok then (prepared, false)
    else
      var written := UserWrites(prepared, w.late);
      if !FetchOk(branch, w.tip) then (written, false)
      else
        var fetched := Fetched(written, branch, w.tip.value);
        if !w.looks.remote then (fetched, false)
        else
          var (after, done) := Reset(fetched, w.tip.value, w.reset);
          (after, done && w.looks.after)
  }

  function ForceUpdate(s: Repo, branch: string, w: World): (Repo, bool) {
    if !w.currentOk then (s, false)
    else if CurrentBranch(s) != branch then ForceOff(s, branch, w)
    else ForceOn(s, branch, w)
  }

  class GitClone {
    var repo: Repo

    constructor (repo: Repo)
      ensures this.repo == repo
    {
      this.repo := repo;
    }

    method RunStash(run: StashRun) returns (ok: bool)
      modifies this
      ensures (repo, ok) == StashPush(old(repo), run)
    {
      if HeadCommit(repo).None? {
        return false;
      }
      match run {
        case StashDone =>
          repo := StashedAway(repo);
          ok := true;
        case StashUnsaved =>
          ok := false;
        case StashSaved(cleared) =>
          repo := SavedPart(repo, cleared);
          ok := false;
      }
    }

    method RunFetchDefaultBranch(branch: string, tip: Option<Commit>) returns (ok: bool)
      modifies this
      ensures ok == FetchOk(branch, tip) && repo == if ok then Fetched(old(repo), branch, tip.value) else old(repo)
    {
      ok := FetchOk(branch, tip);
      if ok {
        repo := Fetched(repo, branch, tip.value);
      }
    }

    method RunForceBranch(branch: string, forceOk: bool) returns (ok: bool)
      modifies this
      ensures ok == (forceOk && CanForce(old(repo), branch))
      ensures repo == if ok then Forced(old(repo), branch) else old(repo)
    {
      ok := forceOk && CanForce(repo, branch);
      if ok {
        repo := Forced(repo, branch);
      }
    }

    /** The reset follows the remote-tracking branch that the fetch has just written. */
    method RunReset(branch: string, run: ResetRun) returns (ok: bool)
      requires branch in repo.remotes
      modifies this
      ensures (repo, ok) == Reset(old(repo), old(repo.remotes)[branch], run)
    {
      var target := repo.remotes[branch];
      match run {
        case ResetDone =>
          repo := HardReset(repo, target);
          ok := true;
        case ResetFailed(written) =>
          repo := TornReset(repo, target, written);
          ok := false;
      }
    }

    method ForceUpdateDefaultBranch(branch: string, w: World, ghost entries: seq<StatusEntry>, status: string)
      returns (ok: bool)
      requires Reports(repo, entries) && status == StatusText(entries)
      modifies this
      ensures (repo, ok) == ForceUpdate(old(repo), branch, w)
    {
      if !w.currentOk {
        return false;
      }
      if CurrentBranch(repo) != branch {
        ok := ForceElsewhere(branch, w);
        return;
      }
      if !w.statusOk {
        return false;
      }
      var clean := WorkingTreeClean(repo, entries, status);
      if !w.looks.before {
        return false;
      }
      repo := UserWrites(repo, w.early);
      if !clean {
        ok := RunStash(w.stash);
        if !ok {
          return;
        }
      }
      repo := UserWrites(repo, w.late);
      ok := RunFetchDefaultBranch(branch, w.tip);
      if !ok || !w.looks.remote {
        return false;
      }
      ok := RunReset(branch, w.reset);
      ok := ok && w.looks.after;
    }

    method ForceElsewhere(branch: string, w: World) returns (ok: bool)
      modifies this
      ensures (repo, ok) == ForceOff(old(repo), branch, w)
    {
      if !w.looks.before {
        return false;
      }
      ok := RunFetchDefaultBranch(branch, w.tip);
      if !ok || !w.looks.remote {
        return false;
      }
      ok := RunForceBranch(branch, w.forceOk);
      ok := ok && w.looks.after;
    }
  }

  // ---- what the commands mean ----------------------------------------------------------------------

  /** A done stash leaves no edit, keeps untracked files, and writing its entry back restores every file. */
  lemma StashRestores(s: Repo, f: File)
    requires HeadCommit(s).Some? && Dirty(s)
    ensures var s' := StashPush(s, StashDone).0;
            && s'.stash != [] && s'.stash[1..] == s.stash && !Dirty(s')
            && (f !in Tracked(s) ==> Look(s'.files, f) == Look(s.files, f))
            && Look(UserWrites(s', s'.stash[0].edits).files, f) == Look(s.files, f)
  {
    var s' := StashedAway(s);
    assert s'.stash[0].edits == Edits(s);
    assert f !in Tracked(s) || !Edited(s, f) ==> f !in Edits(s);
  }

  /** The same entry restores every file after a stash that failed once it had saved, however far it got. */
  lemma CutStashRestores(s: Repo, cleared: set<File>, f: File)
    requires HeadCommit(s).Some? && Dirty(s)
    ensures var r := StashPush(s, StashSaved(cleared));
            && !r.1 && r.0.stash != [] && r.0.stash[1..] == s.stash
            && Look(UserWrites(r.0, r.0.stash[0].edits).files, f) == Look(s.files, f)
  {
    assert SavedPart(s, cleared).stash[0].edits == Edits(s);
    assert f !in Tracked(s) || !Edited(s, f) ==> f !in Edits(s);
  }

  /**
   * A done reset puts the checked-out branch at the target with nothing edited, and leaves alone what
   * neither the old nor the new tree tracks; a failed one has, file by file, done that or nothing.
   */
  lemma ResetMeans(s: Repo, target: Commit, run: ResetRun, f: File)
    ensures var r := Reset(s, target, run);
            && r.1 == run.ResetDone? && r.0.stash == s.stash
            && (r.1 ==> HeadCommit(r.0) == Some(target) && !Dirty(r.0))
            && (!r.1 ==> r.0.head == s.head && r.0.branches == s.branches)
            && (f !in Tracked(s) && f !in s.trees(target) ==> Look(r.0.files, f) == Look(s.files, f))
            && (Look(r.0.files, f) == Look(s.files, f) || Look(r.0.files, f) == Look(s.trees(target), f))
  {
    if run.ResetDone? {
      var s' := HardReset(s, target);
      assert HeadTree(s') == s.trees(target) && s'.added == {};
    }
  }

  /** Forcing moves the branch and nothing else, and what is checked out anywhere keeps its commit. */
  lemma ForceMeans(s: Repo, branch: string)
    requires CanForce(s, branch)
    ensures var s' := Forced(s, branch);
            && branch in s'.branches && s'.branches[branch] == s.remotes[branch]
            && HeadCommit(s') == HeadCommit(s) && HeadTree(s') == HeadTree(s) && (Dirty(s') <==> Dirty(s))
            && forall b | b in s.elsewhere && b in s.branches :: s'.branches[b] == s.branches[b]
  {
    var s' := Forced(s, branch);
    assert HeadTree(s') == HeadTree(s) && Tracked(s') == Tracked(s);
    assert forall f :: Edited(s', f) <==> Edited(s, f);
  }

  // ---- what an update reaches ------------------------------------------------------------------

  ghost predicate SameRefs(s: Repo, s': Repo) {
    s'.head == s.head && s'.branches == s.branches && s'.remotes == s.remotes && s'.trees == s.trees
        && s'.elsewhere == s.elsewhere
  }

  lemma StashKeepsRefs(s: Repo, run: StashRun)
    ensures SameRefs(s, StashPush(s, run).0)
  {
  }

  lemma PrepareKeepsRefs(s: Repo, w: World)
    ensures SameRefs(s, Prepare(s, w).0)
  {
    StashKeepsRefs(UserWrites(s, w.early), w.stash);
  }

  /** The repository just before the reset, when an update on the default branch gets there. */
  function Fetching(s: Repo, branch: string, w: World): Repo
    requires w.tip.Some?
  {
    Fetched(UserWrites(Prepare(s, w).0, w.late), branch, w.tip.value)
  }

  lemma SuccessIsReset(s: Repo, branch: string, w: World)
    requires CurrentBranch(s) == branch && ForceUpdate(s, branch, w).1
    ensures FetchOk(branch, w.tip) && Prepare(s, w).1
    ensures ForceUpdate(s, branch, w).0 == HardReset(Fetching(s, branch, w), w.tip.value)
    ensures s.head == On(branch) && SameRefs(s, Prepare(s, w).0)
  {
    PrepareKeepsRefs(s, w);
  }

  /** A successful update leaves the local default branch at the fetched remote tip. */
  lemma SuccessReachesRemote(s: Repo, branch: string, w: World)
    requires ForceUpdate(s, branch, w).1
    ensures var s' := ForceUpdate(s, branch, w).0;
            && w.tip.Some? && branch in s'.branches && branch in s'.remotes
            && s'.branches[branch] == s'.remotes[branch] == w.tip.value
            && s'.head == s.head
  {
    if CurrentBranch(s) == branch {
      SuccessIsReset(s, branch, w);
    }
  }

  /** Off the default branch, detached or not, nothing the user sees moves, however far the update gets. */
  lemma OffBranchUntouched(s: Repo, branch: string, w: World)
    requires CurrentBranch(s) != branch
    ensures var r := ForceUpdate(s, branch, w);
            && r.0.head == s.head && r.0.files == s.files && r.0.added == s.added && r.0.stash == s.stash
            && (HeadCommit(r.0) == HeadCommit(s))
            && (r.1 <==>
                w.currentOk && w.looks == Looks(true, true, true) && FetchOk(branch, w.tip) && w.forceOk
                    && branch !in s.elsewhere)
            && (!r.1 && w.looks.after ==> r.0.branches == s.branches)
  {
  }

  ghost predicate SameAt(a: map<string, Commit>, b: map<string, Commit>, name: string) {
    (name in a <==> name in b) && (name in a ==> a[name] == b[name])
  }

  lemma ResetKeepsOthers(s: Repo, branch: string, tip: Commit, run: ResetRun, other: string)
    requires s.head == On(branch) && other != branch
    ensures var s' := Reset(Fetched(s, branch, tip), tip, run).0;
            SameAt(s'.branches, s.branches, other) && SameAt(s'.remotes, s.remotes, other)
  {
  }

  /** Only the default branch and its remote-tracking branch are ever written. */
  lemma OtherBranchesUntouched(s: Repo, branch: string, w: World, other: string)
    requires other != branch
    ensures var s' := ForceUpdate(s, branch, w).0;
            SameAt(s'.branches, s.branches, other) && SameAt(s'.remotes, s.remotes, other)
  {
    if w.currentOk && CurrentBranch(s) == branch {
      PrepareKeepsRefs(s, w);
      var prepared := Prepare(s, w);
      if prepared.1 && FetchOk(branch, w.tip) && w.looks.remote {
        ResetKeepsOthers(UserWrites(prepared.0, w.late), branch, w.tip.value, w.reset, other);
      }
    }
  }

  // ---- no work is lost ----------------------------------------------------------------------------

  ghost predicate StashGrew(s: Repo, s': Repo) {
    exists k :: 0 <= k <= |s'.stash| && s'.stash[k..] == s.stash
  }

  ghost predicate Holds(e: Stashed, f: File, v: Option<Content>) {
    f in e.edits && e.edits[f] == v
  }

  ghost predicate InStash(s: Repo, f: File, v: Option<Content>) {
    exists e :: e in s.stash && Holds(e, f, v)
  }

  ghost predicate Kept(s: Repo, f: File, v: Option<Content>) {
    Look(s.files, f) == v || InStash(s, f, v)
  }

  /** The user leaves the file alone while the update runs. */
  ghost predicate LeftAlone(w: World, f: File) {
    f !in w.early && f !in w.late
  }

  lemma PrepareKeeps(s: Repo, w: World, f: File)
    requires Edited(s, f) && LeftAlone(w, f)
    ensures var r := Prepare(s, w);
            && Kept(r.0, f, Look(s.files, f))
            && (r.1 ==> InStash(r.0, f, Look(s.files, f)))
  {
    assert Dirty(s);
    if w.statusOk {
      var written := UserWrites(s, w.early);
      assert Edited(written, f) && Dirty(written);
      if StashPush(written, w.stash).0.stash != s.stash {
        assert Holds(StashPush(written, w.stash).0.stash[0], f, Look(s.files, f));
      }
    }
  }

  /** After status and stash the stash stays as it is, and without them everything does. */
  lemma AfterPrepare(s: Repo, branch: string, w: World)
    requires w.currentOk && CurrentBranch(s) == branch
    ensures ForceUpdate(s, branch, w).0.stash == Prepare(s, w).0.stash
    ensures !Prepare(s, w).1 ==> ForceUpdate(s, branch, w).0 == Prepare(s, w).0
  {
  }

  /**
   * On the default branch, wherever the update fails and even if the reset stops half way, every
   * tracked edit that was there is still in the worktree or is in the stash.
   */
  lemma EditKept(s: Repo, branch: string, w: World, f: File)
    requires Edited(s, f) && LeftAlone(w, f)
    ensures Kept(ForceUpdate(s, branch, w).0, f, Look(s.files, f))
  {
    if w.currentOk && CurrentBranch(s) == branch {
      PrepareKeeps(s, w, f);
      AfterPrepare(s, branch, w);
    }
  }

  lemma StashSkipsUntracked(s: Repo, run: StashRun, f: File)
    requires f !in Tracked(s)
    ensures var s' := StashPush(s, run).0; f !in Tracked(s') && Look(s'.files, f) == Look(s.files, f)
  {
  }

  lemma PrepareSkipsUntracked(s: Repo, w: World, f: File)
    requires f !in Tracked(s) && LeftAlone(w, f)
    ensures var r := Prepare(s, w); f !in Tracked(r.0) && Look(r.0.files, f) == Look(s.files, f)
  {
    StashSkipsUntracked(UserWrites(s, w.early), w.stash, f);
  }

  lemma ResetOfUntracked(s: Repo, branch: string, tip: Commit, run: ResetRun, f: File)
    requires f !in Tracked(s)
    ensures var r := Reset(Fetched(s, branch, tip), tip, run);
            && (Look(r.0.files, f) == Look(s.files, f)
                || (f in s.trees(tip) && Look(r.0.files, f) == Look(s.trees(tip), f)))
            && (r.1 && f in s.trees(tip) ==> Look(r.0.files, f) == Look(s.trees(tip), f))
  {
  }

  /** The new tree has the file, with other contents. */
  ghost predicate Collides(s: Repo, w: World, f: File) {
    w.tip.Some? && f in s.trees(w.tip.value) && Look(s.trees(w.tip.value), f) != Look(s.files, f)
  }

  /** An untracked file survives, whatever fails, unless it collides; and then a success overwrites it. */
  lemma UntrackedKept(s: Repo, branch: string, w: World, f: File)
    requires f !in Tracked(s) && LeftAlone(w, f)
    ensures var r := ForceUpdate(s, branch, w);
            && (!Collides(s, w, f) || CurrentBranch(s) != branch ==> Look(r.0.files, f) == Look(s.files, f))
            && (r.1 && CurrentBranch(s) == branch ==> (Look(r.0.files, f) == Look(s.files, f) <==> !Collides(s, w, f)))
  {
    if w.currentOk && CurrentBranch(s) == branch {
      PrepareSkipsUntracked(s, w, f);
      PrepareKeepsRefs(s, w);
      var prepared := Prepare(s, w);
      if prepared.1 && FetchOk(branch, w.tip) && w.looks.remote {
        ResetOfUntracked(UserWrites(prepared.0, w.late), branch, w.tip.value, w.reset, f);
      }
    }
  }

  /** After success the tracked files are the remote's and nothing is left to stash. */
  lemma SuccessIsClean(s: Repo, branch: string, w: World)
    requires CurrentBranch(s) == branch && ForceUpdate(s, branch, w).1
    ensures var s' := ForceUpdate(s, branch, w).0;
            !Dirty(s') && HeadTree(s') == s.trees(w.tip.value)
            && forall f | f in HeadTree(s') :: Look(s'.files, f) == Look(HeadTree(s'), f)
  {
    SuccessIsReset(s, branch, w);
  }

  /**
   * What is not protected: a file written after the stash, or after a clean status, is overwritten by
   * the reset. It survives a successful update exactly when nothing tracks it, before or after, or the
   * new tree has it just so.
   */
  lemma LateWriteSurvivesIff(s: Repo, branch: string, w: World, f: File)
    requires CurrentBranch(s) == branch && ForceUpdate(s, branch, w).1 && f in w.late
    ensures var s' := ForceUpdate(s, branch, w).0;
            var tracked := f in Tracked(Prepare(s, w).0) || f in s.trees(w.tip.value);
            Look(s'.files, f) == w.late[f] <==> (tracked ==> Look(s.trees(w.tip.value), f) == w.late[f])
  {
    SuccessIsReset(s, branch, w);
  }

  /** And nothing else would hold it: after a clean status the stash stays as it was. */
  lemma CleanStashesNothing(s: Repo, branch: string, w: World)
    requires !Dirty(s)
    ensures ForceUpdate(s, branch, w).0.stash == s.stash
  {
  }

  lemma PrepareGrowsStash(s: Repo, w: World)
    ensures StashGrew(s, Prepare(s, w).0)
  {
    var s' := Prepare(s, w).0;
    assert s'.stash != s.stash ==> s'.stash[1..] == s.stash;
    assert s'.stash == s.stash ==> s'.stash[0..] == s.stash;
  }

  lemma UpdateGrowsStash(s: Repo, branch: string, w: World)
    ensures StashGrew(s, ForceUpdate(s, branch, w).0)
  {
    var s' := ForceUpdate(s, branch, w).0;
    PrepareGrowsStash(s, w);
    if w.currentOk && CurrentBranch(s) == branch {
      AfterPrepare(s, branch, w);
    } else {
      assert s'.stash[0..] == s.stash;
    }
  }

  // ---- runs of updates -----------------------------------------------------------------------------

  datatype Turn = Update(branch: string, w: World) | User(writes: Writes)

  function Take(s: Repo, t: Turn): Repo {
    match t
    case Update(branch, w) => ForceUpdate(s, branch, w).0
    case User(writes) => UserWrites(s, writes)
  }

  ghost predicate IsRun(states: seq<Repo>, turns: seq<Turn>) {
    |states| == |turns| + 1 && forall i | 0 <= i < |turns| :: states[i + 1] == Take(states[i], turns[i])
  }

  lemma GrewKeeps(s: Repo, s': Repo, f: File, v: Option<Content>)
    requires StashGrew(s, s') && InStash(s, f, v)
    ensures InStash(s', f, v)
  {
    var k :| 0 <= k <= |s'.stash| && s'.stash[k..] == s.stash;
    var e :| e in s.stash && Holds(e, f, v);
    assert e in s'.stash[k..];
  }

  lemma TurnGrowsStash(s: Repo, t: Turn)
    ensures StashGrew(s, Take(s, t))
  {
    match t
    case Update(branch, w) => UpdateGrowsStash(s, branch, w);
    case User(writes) => assert UserWrites(s, writes).stash[0..] == s.stash;
  }

  /** Nothing ever leaves the stash. */
  lemma {:induction false} StashStays(states: seq<Repo>, i: nat, j: nat, f: File, v: Option<Content>)
    requires forall k | 0 <= k < |states| - 1 :: StashGrew(states[k], states[k + 1])
    requires i <= j < |states| && InStash(states[i], f, v)
    ensures InStash(states[j], f, v)
  {
    if i < j {
      StashStays(states, i, j - 1, f, v);
      GrewKeeps(states[j - 1], states[j - 1 + 1], f, v);
    }
  }

  /**
   * In any run of updates and user writes, with any failures: a tracked edit that an update finds is
   * still in the worktree when that update is over, or is in the stash from then on.
   */
  lemma EditSurvivesRun(states: seq<Repo>, turns: seq<Turn>, i: nat, j: nat, f: File)
    requires IsRun(states, turns) && i < |turns| && i < j < |states|
    requires turns[i].Update? && LeftAlone(turns[i].w, f) && Edited(states[i], f)
    ensures Look(states[i + 1].files, f) == Look(states[i].files, f) || InStash(states[j], f, Look(states[i].files, f))
  {
    forall k | 0 <= k < |states| - 1 ensures StashGrew(states[k], states[k + 1]) {
      TurnGrowsStash(states[k], turns[k]);
    }
    EditKept(states[i], turns[i].branch, turns[i].w, f);
    if InStash(states[i + 1], f, Look(states[i].files, f)) {
      StashStays(states, i + 1, j, f, Look(states[i].files, f));
    }
  }
}
