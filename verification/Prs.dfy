/** Fetching pull requests: a batched sweep over many repositories, and a targeted fetch by number. */
module Prs {
  import opened Wrappers
  import opened ChangeLog
  import opened Database
  import opened Text

  datatype Label = Label(name: Option<string>, color: Option<string>)

  datatype ReviewNode = ReviewNode(ghId: int, author: Option<string>, state: string)

  /** A context of the first commit's status; others than these two kinds are skipped. */
  datatype StatusNode =
    | StatusContext(context: Option<string>, state: Option<string>, url: Option<string>, description: Option<string>)
    | CheckRun(name: Option<string>, conclusion: Option<string>, url: Option<string>)
    | OtherContext

  /** `requests` are the logins, or else names, of the requested reviewers. */
  datatype PrNode = PrNode(
    number: Option<int>, state: Option<string>, title: Option<string>, headRef: Option<string>, headSha: Option<string>,
    createdAt: Option<string>, updatedAt: Option<string>, labels: seq<Label>, reviews: seq<ReviewNode>,
    requests: seq<Option<string>>, contexts: seq<StatusNode>, rest: string)

  // ---- one pull request -----------------------------------------------------------------

  function StateOf(s: Option<string>): PrState {
    if s == Some("MERGED") then Merged else if s == Some("CLOSED") then Closed else Open
  }

  /** INSERT OR IGNORE into an emptied table: nameless labels are refused, and the first of a name stays. */
  function LabelsOf(labels: seq<Label>): map<string, Option<string>> {
    if labels == [] then map[]
    else
      var before, last := LabelsOf(labels[..|labels| - 1]), labels[|labels| - 1];
      if last.name.None? || last.name.value in before then before else before[last.name.value := last.color]
  }

  /** Reviews accumulate; a known one keeps its author. */
  function AddReviews(prior: map<int, Review>, nodes: seq<ReviewNode>): map<int, Review> {
    if nodes == [] then prior
    else
      var before, last := AddReviews(prior, nodes[..|nodes| - 1]), nodes[|nodes| - 1];
      if last.ghId in before then before[last.ghId := before[last.ghId].(state := last.state)]
      else before[last.ghId := Review(last.author, last.state)]
  }

  /** Requested reviewers go into an emptied table too. */
  function ReviewersOf(requests: seq<Option<string>>): set<string> {
    if requests == [] then {}
    else
      var before, last := ReviewersOf(requests[..|requests| - 1]), requests[|requests| - 1];
      if last.Some? then before + {last.value} else before
  }

  function ContextOf(node: StatusNode): Option<string> {
    match node
    case StatusContext(context, _, _, _) => Some(Or(context, ""))
    case CheckRun(name, _, _) => Some(Or(name, ""))
    case OtherContext => None
  }

  function CheckOf(node: StatusNode): Check {
    match node
    case StatusContext(_, state, url, description) => Check(Or(state, ""), url, description)
    case CheckRun(_, conclusion, url) => Check(Or(conclusion, "pending"), url, None)
    case OtherContext => Check("", None, None)
  }

  /** Checks accumulate by context. */
  function AddChecks(prior: map<string, Check>, nodes: seq<StatusNode>): map<string, Check> {
    if nodes == [] then prior
    else
      var before, last := AddChecks(prior, nodes[..|nodes| - 1]), nodes[|nodes| - 1];
      if ContextOf(last).Some? then before[ContextOf(last).value := CheckOf(last)] else before
  }

  /** The row's own columns, with the dependent rows it had; an existing row keeps its id and its creation date. */
  function BareRow(node: PrNode, prior: Option<PrRow>, newId: nat): PrRow {
    PrRow(if prior.Some? then prior.value.id else newId,
          StateOf(node.state), Or(node.title, ""), node.headRef, node.headSha,
          if prior.Some? then prior.value.createdAt else Or(node.createdAt, ""), Or(node.updatedAt, ""),
          if prior.Some? then prior.value.labels else map[], if prior.Some? then prior.value.reviews else map[],
          if prior.Some? then prior.value.reviewers else {}, if prior.Some? then prior.value.checks else map[],
          node.rest)
  }

  /** And then its dependent rows. */
  function RowFor(node: PrNode, prior: Option<PrRow>, newId: nat): PrRow {
    var bare := BareRow(node, prior, newId);
    bare.(labels := LabelsOf(node.labels), reviews := AddReviews(bare.reviews, node.reviews),
          reviewers := ReviewersOf(node.requests), checks := AddChecks(bare.checks, node.contexts))
  }

  function NumberOf(node: PrNode): int {
    Or(node.number, 0)
  }

  function Lookup(db: Db, key: (nat, int)): Option<PrRow> {
    if key in db.prs then Some(db.prs[key]) else None
  }

  /** INSERT ... ON CONFLICT(repo_id, number) DO UPDATE; only an insert takes a new id. */
  function StoreRow(db: Db, key: (nat, int), row: PrRow): Db {
    db.(prs := db.prs[key := row], prSeq := if key in db.prs then db.prSeq else db.prSeq + 1)
  }

  function UpsertPr(db: Db, repoId: nat, slug: Slug, node: PrNode, isNew: bool): Db {
    var key := (repoId, NumberOf(node));
    var row := RowFor(node, Lookup(db, key), db.prSeq + 1);
    LogChange(StoreRow(db, key, row), PullRequest, row.id, if isNew then Inserted else Updated, SlugText(slug))
  }

  /**
   * Which of its dependent rows an upsert had got to, and how many of that kind it had written; None
   * where not even the old rows were deleted. The kinds before are written in full.
   */
  datatype Parts =
    | InReviews(done: nat) | InLabels(deleted: Option<nat>) | InRequests(deleted: Option<nat>) | InChecks(done: nat)

  /** Where SQLite refuses a statement of an upsert: at the row or before it, at its log row, or after these parts. */
  datatype Stage = AtRow | AtLog | AtParts(parts: Parts)

  function Take<T>(s: seq<T>, n: nat): seq<T> {
    if n <= |s| then s[..n] else s
  }

  function PartRow(bare: PrRow, node: PrNode, parts: Parts): PrRow {
    match parts
    case InReviews(n) => bare.(reviews := AddReviews(bare.reviews, Take(node.reviews, n)))
    case InLabels(n) =>
      bare.(reviews := AddReviews(bare.reviews, node.reviews),
            labels := if n.Some? then LabelsOf(Take(node.labels, n.value)) else bare.labels)
    case InRequests(n) =>
      bare.(reviews := AddReviews(bare.reviews, node.reviews), labels := LabelsOf(node.labels),
            reviewers := if n.Some? then ReviewersOf(Take(node.requests, n.value)) else bare.reviewers)
    case InChecks(n) =>
      bare.(reviews := AddReviews(bare.reviews, node.reviews), labels := LabelsOf(node.labels),
            reviewers := ReviewersOf(node.requests), checks := AddChecks(bare.checks, Take(node.contexts, n)))
  }

  /** What an upsert leaves behind that was refused a statement outside a transaction. */
  function PartUpsert(db: Db, repoId: nat, slug: Slug, node: PrNode, isNew: bool, stage: Stage): Db {
    var key := (repoId, NumberOf(node));
    var bare := BareRow(node, Lookup(db, key), db.prSeq + 1);
    match stage
    case AtRow => db
    case AtLog => StoreRow(db, key, bare)
    case AtParts(parts) =>
      LogChange(StoreRow(db, key, PartRow(bare, node, parts)), PullRequest, bare.id,
                if isNew then Inserted else Updated, SlugText(slug))
  }

  function Stored(db: Db, repoId: nat): set<int> {
    set k | k in db.prs && k.0 == repoId :: k.1
  }

  // ---- one repository -------------------------------------------------------------------

  /** All nodes upserted, each called new if its number was not stored before the first of them. */
  function UpsertAll(db: Db, repoId: nat, slug: Slug, existing: set<int>, nodes: seq<PrNode>): Db {
    if nodes == [] then db
    else
      var node := nodes[|nodes| - 1];
      UpsertPr(UpsertAll(db, repoId, slug, existing, nodes[..|nodes| - 1]), repoId, slug, node,
               NumberOf(node) !in existing)
  }

  function UpdatedAt(db: Db, repoId: nat, number: int): Option<string> {
    if (repoId, number) in db.prs then Some(db.prs[(repoId, number)].updatedAt) else None
  }

  /** Whether some node is new or differs in its date from what is stored when its turn comes. */
  predicate NodesChange(db: Db, repoId: nat, slug: Slug, existing: set<int>, nodes: seq<PrNode>) {
    nodes != [] &&
    var init, node := nodes[..|nodes| - 1], nodes[|nodes| - 1];
    || NodesChange(db, repoId, slug, existing, init)
    || NumberOf(node) !in existing
    || UpdatedAt(UpsertAll(db, repoId, slug, existing, init), repoId, NumberOf(node)) != node.updatedAt
  }

  predicate Returned(nodes: seq<PrNode>, number: int) {
    exists i :: 0 <= i < |nodes| && nodes[i].number == Some(number)
  }

  datatype Target = Target(id: nat, slug: Slug)

  /** What the sweep does for one repository, given GitHub's answer for it; no list means no answer. */
  function SyncRepo(db: Db, t: Target, answer: Option<seq<PrNode>>): (Db, bool) {
    match answer
    case None => (db, false)
    case Some(nodes) =>
      var existing := Stored(db, t.id);
      (UpsertAll(db, t.id, t.slug, existing, nodes),
       NodesChange(db, t.id, t.slug, existing, nodes) || exists n :: n in existing && !Returned(nodes, n))
  }

  /** A statement refused for node `node` of a repository's answer. */
  datatype NodeFault = NodeFault(node: nat, stage: Stage)

  /** The statement is one that the repository's answer leads to; the first ones come even before node 0. */
  predicate Hits(answer: Option<seq<PrNode>>, fault: NodeFault) {
    answer.Some? && (fault.node < |answer.value| || (fault.node == 0 && fault.stage.AtRow?))
  }

  /** What is left behind then: the nodes before, and a part of this one. */
  function SyncRepoStopped(db: Db, t: Target, nodes: seq<PrNode>, fault: NodeFault): Db
    requires Hits(Some(nodes), fault)
  {
    if fault.node == |nodes| then db
    else
      var existing, node := Stored(db, t.id), nodes[fault.node];
      PartUpsert(UpsertAll(db, t.id, t.slug, existing, nodes[..fault.node]), t.id, t.slug, node,
                 NumberOf(node) !in existing, fault.stage)
  }

  /** The repositories one at a time, each with its own call. */
  function SyncEach(db: Db, repos: seq<Target>, upstream: Slug -> Option<seq<PrNode>>): (Db, set<Slug>) {
    if repos == [] then (db, {})
    else
      var t := repos[|repos| - 1];
      var (before, changed) := SyncEach(db, repos[..|repos| - 1], upstream);
      var (after, itChanged) := SyncRepo(before, t, upstream(t.slug));
      (after, if itChanged then changed + {t.slug} else changed)
  }

  // ---- the statements of one upsert -------------------------------------------------------

  method UpsertOn(conn: Connection, repoId: nat, slug: Slug, node: PrNode, isNew: bool, fault: Option<Stage>)
    returns (ok: bool)
    modifies conn
    ensures ok == fault.None?
    ensures conn.db == if ok then UpsertPr(old(conn.db), repoId, slug, node, isNew)
                       else PartUpsert(old(conn.db), repoId, slug, node, isNew, fault.value)
  {
    if fault == Some(AtRow) {
      return false;
    }
    var key := (repoId, NumberOf(node));
    var row := BareRow(node, Lookup(conn.db, key), conn.db.prSeq + 1);
    conn.db := StoreRow(conn.db, key, row);
    if fault == Some(AtLog) {
      return false;
    }
    conn.db := LogChange(conn.db, PullRequest, row.id, if isNew then Inserted else ChangeEvent.Updated, SlugText(slug));
    ok := fault.None?;
    row := WriteDependents(row, node, if ok then None else Some(fault.value.parts));
    conn.db := conn.db.(prs := conn.db.prs[key := row]);
  }

  /** Reviews and checks accumulate, labels and requested reviewers are deleted and written anew. */
  method WriteDependents(bare: PrRow, node: PrNode, stop: Option<Parts>) returns (row: PrRow)
    ensures stop.Some? ==> row == PartRow(bare, node, stop.value)
    ensures stop.None? ==>
            row == bare.(labels := LabelsOf(node.labels), reviews := AddReviews(bare.reviews, node.reviews),
                         reviewers := ReviewersOf(node.requests), checks := AddChecks(bare.checks, node.contexts))
  {
    row := bare;
    var reviews := WriteReviews(
      bare.reviews, if stop.Some? && stop.value.InReviews? then Take(node.reviews, stop.value.done) else node.reviews);
    row := row.(reviews := reviews);
    if stop.Some? && (stop.value.InReviews? || stop.value == InLabels(None)) {
      return;
    }
    var labels := WriteLabels(
      if stop.Some? && stop.value.InLabels? then Take(node.labels, stop.value.deleted.value) else node.labels);
    row := row.(labels := labels);
    if stop.Some? && (stop.value.InLabels? || stop.value == InRequests(None)) {
      return;
    }
    var reviewers := WriteReviewers(
      if stop.Some? && stop.value.InRequests? then Take(node.requests, stop.value.deleted.value) else node.requests);
    row := row.(reviewers := reviewers);
    if stop.Some? && stop.value.InRequests? {
      return;
    }
    var checks := WriteChecks(bare.checks, if stop.Some? then Take(node.contexts, stop.value.done) else node.contexts);
    row := row.(checks := checks);
  }

  method WriteReviews(prior: map<int, Review>, nodes: seq<ReviewNode>) returns (reviews: map<int, Review>)
    ensures reviews == AddReviews(prior, nodes)
  {
    reviews := prior;
    for i := 0 to |nodes|
      invariant reviews == AddReviews(prior, nodes[..i])
    {
      var rv := nodes[i];
      assert nodes[..i + 1][..i] == nodes[..i];
      var review := if rv.ghId in reviews then reviews[rv.ghId].(state := rv.state) else Review(rv.author, rv.state);
      reviews := reviews[rv.ghId := review];
    }
    assert nodes[..|nodes|] == nodes;
  }

  method WriteLabels(nodes: seq<Label>) returns (labels: map<string, Option<string>>)
    ensures labels == LabelsOf(nodes)
  {
    labels := map[];
    for i := 0 to |nodes|
      invariant labels == LabelsOf(nodes[..i])
    {
      var lbl := nodes[i];
      assert nodes[..i + 1][..i] == nodes[..i];
      if lbl.name.Some? && lbl.name.value !in labels {
        labels := labels[lbl.name.value := lbl.color];
      }
    }
    assert nodes[..|nodes|] == nodes;
  }

  method WriteReviewers(requests: seq<Option<string>>) returns (reviewers: set<string>)
    ensures reviewers == ReviewersOf(requests)
  {
    reviewers := {};
    for i := 0 to |requests|
      invariant reviewers == ReviewersOf(requests[..i])
    {
      assert requests[..i + 1][..i] == requests[..i];
      if requests[i].Some? {
        reviewers := reviewers + {requests[i].value};
      }
    }
    assert requests[..|requests|] == requests;
  }

  method WriteChecks(prior: map<string, Check>, nodes: seq<StatusNode>) returns (checks: map<string, Check>)
    ensures checks == AddChecks(prior, nodes)
  {
    checks := prior;
    for i := 0 to |nodes|
      invariant checks == AddChecks(prior, nodes[..i])
    {
      assert nodes[..i + 1][..i] == nodes[..i];
      if ContextOf(nodes[i]).Some? {
        checks := checks[ContextOf(nodes[i]).value := CheckOf(nodes[i])];
      }
    }
    assert nodes[..|nodes|] == nodes;
  }

  // ---- the batched sweep --------------------------------------------------------------------

  const BATCH_SIZE: nat := 20

  function Alias(i: nat): string {
    "repo_" + Decimal(i)
  }

  /** One GraphQL call: each aliased repository of the query is answered under its alias. */
  function Graphql(chunk: seq<Target>, upstream: Slug -> Option<seq<PrNode>>): map<string, Option<seq<PrNode>>> {
    if chunk == [] then map[]
    else
      var i := |chunk| - 1;
      Graphql(chunk[..i], upstream)[Alias(i) := upstream(chunk[i].slug)]
  }

  lemma {:induction false} AliasAnswered(chunk: seq<Target>, upstream: Slug -> Option<seq<PrNode>>, i: nat)
    requires i < |chunk|
    ensures Alias(i) in Graphql(chunk, upstream) && Graphql(chunk, upstream)[Alias(i)] == upstream(chunk[i].slug)
  {
    var n := |chunk| - 1;
    if i < n {
      AliasAnswered(chunk[..n], upstream, i);
      if Alias(i) == Alias(n) {
        assert Alias(i)[5..] == Decimal(i) && Alias(n)[5..] == Decimal(n);
        DecimalInjective(i, n);
      }
    }
  }

  /** The answer for one repository goes into the tables node by node. */
  method ApplyAnswer(conn: Connection, t: Target, answer: Option<seq<PrNode>>, fault: Option<NodeFault>)
    returns (changed: bool, ok: bool)
    modifies conn
    ensures ok <==> fault.None? || !Hits(answer, fault.value)
    ensures ok ==> (conn.db, changed) == SyncRepo(old(conn.db), t, answer)
    ensures !ok ==> conn.db == SyncRepoStopped(old(conn.db), t, answer.value, fault.value)
  {
    if answer.None? {
      return false, true;
    }
    if fault == Some(NodeFault(0, AtRow)) {
      assert answer.value[..0] == [];
      return false, false;
    }
    var existing := Stored(conn.db, t.id);
    changed, ok := ApplyNodes(conn, t, existing, answer.value, fault);
    if ok {
      var gone := exists n :: n in existing && !Returned(answer.value, n);
      changed := changed || gone;
    }
  }

  method ApplyNodes(conn: Connection, t: Target, existing: set<int>, nodes: seq<PrNode>, fault: Option<NodeFault>)
    returns (changed: bool, ok: bool)
    requires fault != Some(NodeFault(0, AtRow)) && existing == Stored(conn.db, t.id)
    modifies conn
    ensures ok <==> fault.None? || !Hits(Some(nodes), fault.value)
    ensures ok ==> conn.db == UpsertAll(old(conn.db), t.id, t.slug, existing, nodes)
                   && changed == NodesChange(old(conn.db), t.id, t.slug, existing, nodes)
    ensures !ok ==> conn.db == SyncRepoStopped(old(conn.db), t, nodes, fault.value)
  {
    changed, ok := false, true;
    ghost var before := conn.db;
    for i := 0 to |nodes|
      invariant ok && (fault.Some? ==> i <= fault.value.node || |nodes| <= fault.value.node)
      invariant conn.db == UpsertAll(before, t.id, t.slug, existing, nodes[..i])
      invariant changed == NodesChange(before, t.id, t.slug, existing, nodes[..i])
    {
      var node := nodes[i];
      assert nodes[..i + 1][..i] == nodes[..i];
      var isNew := NumberOf(node) !in existing;
      if isNew || UpdatedAt(conn.db, t.id, NumberOf(node)) != node.updatedAt {
        changed := true;
      }
      var stage := if fault.Some? && fault.value.node == i then Some(fault.value.stage) else None;
      ok := UpsertOn(conn, t.id, t.slug, node, isNew, stage);
      if !ok {
        return;
      }
    }
    assert nodes[..|nodes|] == nodes;
  }

  /** A statement refused for a node of repository `repo` of the sweep. */
  datatype SweepFault = SweepFault(repo: nat, at: NodeFault)

  predicate HitsAt(repos: seq<Target>, upstream: Slug -> Option<seq<PrNode>>, fault: Option<SweepFault>, i: nat) {
    i < |repos| && fault.Some? && fault.value.repo == i && Hits(upstream(repos[i].slug), fault.value.at)
  }

  /** The tables when the sweep stopped within repository i. */
  function StoppedWithin(db: Db, repos: seq<Target>, upstream: Slug -> Option<seq<PrNode>>, fault: Option<SweepFault>,
                         i: nat): Db
    requires HitsAt(repos, upstream, fault, i)
  {
    SyncRepoStopped(SyncEach(db, repos[..i], upstream).0, repos[i], upstream(repos[i].slug).value, fault.value.at)
  }

  /** The tables and the changed set after these repositories one at a time. */
  ghost predicate Swept(before: Db, db: Db, repos: seq<Target>, upstream: Slug -> Option<seq<PrNode>>,
                        changed: set<Slug>) {
    (db, changed) == SyncEach(before, repos, upstream)
  }

  /** Takes the answers of one call apart again, by alias, repository by repository. */
  method ApplyChunk(conn: Connection, repos: seq<Target>, start: nat, end: nat,
                    ghost upstream: Slug -> Option<seq<PrNode>>, data: map<string, Option<seq<PrNode>>>,
                    changed0: set<Slug>, fault: Option<SweepFault>, ghost before: Db)
    returns (changed: set<Slug>, ok: bool, ghost done: nat)
    requires start <= end <= |repos| && data == Graphql(repos[start..end], upstream)
    requires Swept(before, conn.db, repos[..start], upstream, changed0)
    modifies conn
    ensures ok ==> Swept(before, conn.db, repos[..end], upstream, changed)
    ensures ok ==> forall i | start <= i < end :: !HitsAt(repos, upstream, fault, i)
    ensures !ok ==>
            start <= done < end && HitsAt(repos, upstream, fault, done)
                && conn.db == StoppedWithin(before, repos, upstream, fault, done)
  {
    changed, ok, done := changed0, true, end;
    for i := start to end
      invariant ok && done == end && Swept(before, conn.db, repos[..i], upstream, changed)
      invariant forall j | start <= j < i :: !HitsAt(repos, upstream, fault, j)
    {
      AliasAnswered(repos[start..end], upstream, i - start);
      assert repos[..i + 1][..i] == repos[..i];
      var itChanged;
      var at := if fault.Some? && fault.value.repo == i then Some(fault.value.at) else None;
      itChanged, ok := ApplyAnswer(conn, repos[i], data[Alias(i - start)], at);
      if !ok {
        done := i;
        return;
      }
      if itChanged {
        changed := changed + {repos[i].slug};
      }
    }
  }

  function Calls(n: nat): nat {
    (n + BATCH_SIZE - 1) / BATCH_SIZE
  }

  /** That many calls have got to `start` of n repositories. */
  ghost predicate Reaches(n: nat, calls: nat, start: nat) {
    start <= n && (start == BATCH_SIZE * calls || (start == n && start <= BATCH_SIZE * calls < start + BATCH_SIZE))
  }

  lemma ReachesNext(n: nat, calls: nat, start: nat)
    requires Reaches(n, calls, start) && start < n
    ensures start == BATCH_SIZE * calls && calls < Calls(n)
    ensures Reaches(n, calls + 1, if start + BATCH_SIZE <= n then start + BATCH_SIZE else n)
  {
  }

  /** The state of the sweep after `calls` calls, which took it to repository `start`. */
  ghost predicate Sweeping(before: Db, db: Db, repos: seq<Target>, upstream: Slug -> Option<seq<PrNode>>,
                           callOk: nat -> bool, fault: Option<SweepFault>, changed: set<Slug>, calls: nat, start: nat)
  {
    && Reaches(|repos|, calls, start)
    && Swept(before, db, repos[..start], upstream, changed)
    && (forall k | 0 <= k < calls :: callOk(k))
    && (forall i | 0 <= i < start :: !HitsAt(repos, upstream, fault, i))
  }

  /**
   * How a sweep ends. It succeeds if and only if every call is answered and no statement is refused.
   * Otherwise it ends at a call that is not answered, before the repositories of that call, or within
   * repository `done`; the sweep is not a transaction, and what was written before stays.
   */
  ghost predicate SweepEnds(before: Db, db: Db, repos: seq<Target>, upstream: Slug -> Option<seq<PrNode>>,
                            callOk: nat -> bool, fault: Option<SweepFault>, r: Result<set<Slug>, ()>, calls: nat,
                            done: nat)
  {
    && (r.Ok? <==>
        (forall k | 0 <= k < Calls(|repos|) :: callOk(k))
            && (forall i | 0 <= i < |repos| :: !HitsAt(repos, upstream, fault, i)))
    && (r.Ok? ==> (db, r.value) == SyncEach(before, repos, upstream) && calls == Calls(|repos|))
    && (r.Err? ==> 0 < calls && done < |repos| && (forall k | 0 <= k < calls - 1 :: callOk(k)))
    && (r.Err? ==> forall i | 0 <= i < done :: !HitsAt(repos, upstream, fault, i))
    && (r.Err? && !callOk(calls - 1) ==>
        done == BATCH_SIZE * (calls - 1) && db == SyncEach(before, repos[..done], upstream).0)
    && (r.Err? && callOk(calls - 1) ==>
          BATCH_SIZE * (calls - 1) <= done < BATCH_SIZE * calls && HitsAt(repos, upstream, fault, done)
          && db == StoppedWithin(before, repos, upstream, fault, done))
  }

  /** One more call answered and taken apart without a refusal. */
  lemma SweepMoves(before: Db, was: Db, db: Db, repos: seq<Target>, upstream: Slug -> Option<seq<PrNode>>,
                   callOk: nat -> bool, fault: Option<SweepFault>, changed0: set<Slug>, changed: set<Slug>, calls: nat,
                   start: nat, end: nat)
    requires Sweeping(before, was, repos, upstream, callOk, fault, changed0, calls, start) && start < |repos|
             && callOk(calls)
    requires end == if start + BATCH_SIZE <= |repos| then start + BATCH_SIZE else |repos|
    requires Swept(before, db, repos[..end], upstream, changed)
             && forall i | start <= i < end :: !HitsAt(repos, upstream, fault, i)
    ensures Sweeping(before, db, repos, upstream, callOk, fault, changed, calls + 1, end)
  {
    ReachesNext(|repos|, calls, start);
  }

  lemma SweepAtEnd(before: Db, db: Db, repos: seq<Target>, upstream: Slug -> Option<seq<PrNode>>, callOk: nat -> bool,
                   fault: Option<SweepFault>, changed: set<Slug>, calls: nat)
    requires Sweeping(before, db, repos, upstream, callOk, fault, changed, calls, |repos|)
    ensures SweepEnds(before, db, repos, upstream, callOk, fault, Ok(changed), calls, |repos|)
  {
    assert repos[..|repos|] == repos;
  }

  lemma SweepAtFailedCall(before: Db, db: Db, repos: seq<Target>, upstream: Slug -> Option<seq<PrNode>>,
                          callOk: nat -> bool, fault: Option<SweepFault>, changed: set<Slug>, calls: nat, start: nat)
    requires Sweeping(before, db, repos, upstream, callOk, fault, changed, calls, start) && start < |repos|
             && !callOk(calls)
    ensures SweepEnds(before, db, repos, upstream, callOk, fault, Err(()), calls + 1, start)
  {
    ReachesNext(|repos|, calls, start);
  }

  lemma SweepAtRefusal(before: Db, db: Db, repos: seq<Target>, upstream: Slug -> Option<seq<PrNode>>,
                       callOk: nat -> bool, fault: Option<SweepFault>, start: nat, calls: nat, done: nat)
    requires start == BATCH_SIZE * calls && start <= done < start + BATCH_SIZE
             && forall k | 0 <= k <= calls :: callOk(k)
    requires HitsAt(repos, upstream, fault, done) && db == StoppedWithin(before, repos, upstream, fault, done)
    ensures SweepEnds(before, db, repos, upstream, callOk, fault, Err(()), calls + 1, done)
  {
  }

  /** One call, and its answers taken apart; `ended` when the call or a statement fails. */
  method SweepCall(conn: Connection, repos: seq<Target>, upstream: Slug -> Option<seq<PrNode>>, callOk: nat -> bool,
                   fault: Option<SweepFault>, changed0: set<Slug>, calls: nat, start: nat, ghost before: Db)
    returns (ended: bool, changed: set<Slug>, end: nat, ghost done: nat)
    requires Sweeping(before, conn.db, repos, upstream, callOk, fault, changed0, calls, start) && start < |repos|
    modifies conn
    ensures !ended ==> start < end && Sweeping(before, conn.db, repos, upstream, callOk, fault, changed, calls + 1, end)
    ensures ended ==> SweepEnds(before, conn.db, repos, upstream, callOk, fault, Err(()), calls + 1, done)
  {
    ReachesNext(|repos|, calls, start);
    changed, end, done := changed0, if start + BATCH_SIZE <= |repos| then start + BATCH_SIZE else |repos|, start;
    ended := !callOk(calls);
    if ended {
      SweepAtFailedCall(before, conn.db, repos, upstream, callOk, fault, changed, calls, start);
      return;
    }
    ghost var was := conn.db;
    var ok;
    changed, ok, done :=
      ApplyChunk(conn, repos, start, end, upstream, Graphql(repos[start..end], upstream), changed, fault, before);
    ended := !ok;
    if ended {
      SweepAtRefusal(before, conn.db, repos, upstream, callOk, fault, start, calls, done);
    } else {
      SweepMoves(before, was, conn.db, repos, upstream, callOk, fault, changed0, changed, calls, start, end);
    }
  }

  /**
   * Sweeps the repositories, BATCH_SIZE to a call. `callOk(k)` says whether call k is answered, and
   * `fault` which statement SQLite refuses, if any.
   */
  method SyncBatch(conn: Connection, repos: seq<Target>, upstream: Slug -> Option<seq<PrNode>>, callOk: nat -> bool,
                   fault: Option<SweepFault>)
    returns (r: Result<set<Slug>, ()>, calls: nat, ghost done: nat)
    modifies conn
    ensures SweepEnds(old(conn.db), conn.db, repos, upstream, callOk, fault, r, calls, done)
  {
    var changed, start := {}, 0;
    calls, done := 0, |repos|;
    ghost var before := conn.db;
    SweepStarts(before, repos, upstream, callOk, fault);
    while start < |repos|
      invariant start <= |repos| && Sweeping(before, conn.db, repos, upstream, callOk, fault, changed, calls, start)
    {
      var ended;
      ended, changed, start, done := SweepCall(conn, repos, upstream, callOk, fault, changed, calls, start, before);
      calls := calls + 1;
      if ended {
        return Err(()), calls, done;
      }
    }
    SweepAtEnd(before, conn.db, repos, upstream, callOk, fault, changed, calls);
    r, done := Ok(changed), |repos|;
  }

  lemma SweepStarts(before: Db, repos: seq<Target>, upstream: Slug -> Option<seq<PrNode>>, callOk: nat -> bool,
                    fault: Option<SweepFault>)
    ensures Sweeping(before, before, repos, upstream, callOk, fault, {}, 0, 0)
  {
  }

  // ---- the targeted fetch ---------------------------------------------------------------------

  /** The answers to a targeted fetch: None is a null or missing pull request. */
  type Answers = int -> Option<PrNode>

  function TargetedAll(db: Db, t: Target, existing: set<int>, numbers: seq<int>, answers: Answers): Db {
    if numbers == [] then db
    else
      var n := numbers[|numbers| - 1];
      var before := TargetedAll(db, t, existing, numbers[..|numbers| - 1], answers);
      match answers(n)
      case None => before
      case Some(node) => UpsertPr(before, t.id, t.slug, node, n !in existing)
  }

  function SyncTargetedSpec(db: Db, t: Target, numbers: seq<int>, answers: Answers): Db {
    TargetedAll(db, t, Stored(db, t.id), numbers, answers)
  }

  method SyncTargeted(conn: Connection, t: Target, numbers: seq<int>, answers: Answers, callOk: bool)
    returns (ok: bool)
    modifies conn
    ensures ok <==> numbers == [] || callOk
    ensures conn.db == if ok then SyncTargetedSpec(old(conn.db), t, numbers, answers) else old(conn.db)
  {
    if numbers == [] {
      return true;
    }
    if !callOk {
      return false;
    }
    var existing := Stored(conn.db, t.id);
    ghost var before := conn.db;
    for i := 0 to |numbers|
      invariant conn.db == TargetedAll(before, t, existing, numbers[..i], answers)
    {
      assert numbers[..i + 1][..i] == numbers[..i];
      var pr := answers(numbers[i]);
      if pr.Some? {
        var stored := UpsertOn(conn, t.id, t.slug, pr.value, numbers[i] !in existing, None);
      }
    }
    assert numbers[..|numbers|] == numbers;
    ok := true;
  }
}
