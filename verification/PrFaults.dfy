/**
 * What a sweep leaves behind when SQLite refuses a statement half way: the sweep is not a transaction,
 * so a pull request's row may be stored and not logged, and later sweeps then log it as updated.
 */
module PrFaults {
  import opened Wrappers
  import opened ChangeLog
  import opened Database
  import opened Prs
  import opened PrLaws

  // ---- a part of an upsert -----------------------------------------------------------------

  /** The same tables and log, and the same pull requests under the same ids, with perhaps other contents. */
  ghost predicate SameLedger(a: Db, b: Db) {
    a == b.(prs := a.prs) && a.prs.Keys == b.prs.Keys && forall k | k in a.prs :: a.prs[k].id == b.prs[k].id
  }

  lemma SameLaws(a: Db, b: Db)
    requires SameLedger(a, b) && Valid(b)
    ensures Valid(a) && (LogCovers(b) ==> LogCovers(a)) && forall k :: EventsAt(a, k) == EventsAt(b, k)
  {
  }

  /** Past its log row, an upsert cut short differs from a whole one in dependent rows only. */
  lemma PartIsUpsert(db: Db, repoId: nat, slug: Slug, node: PrNode, isNew: bool, parts: Parts)
    ensures SameLedger(PartUpsert(db, repoId, slug, node, isNew, AtParts(parts)),
                       UpsertPr(db, repoId, slug, node, isNew))
  {
  }

  lemma BareIsUpsert(db: Db, repoId: nat, slug: Slug, node: PrNode, isNew: bool)
    ensures SameLedger(PartUpsert(db, repoId, slug, node, isNew, AtLog),
                       UpsertPr(db, repoId, slug, node, isNew).(log := db.log))
    ensures (repoId, NumberOf(node)) in db.prs ==> SameLedger(PartUpsert(db, repoId, slug, node, isNew, AtLog), db)
  {
  }

  /** A row stored and not logged: harmless if it was there before, and otherwise out of order for good. */
  lemma StoredUnlogged(db: Db, repoId: nat, slug: Slug, node: PrNode, isNew: bool)
    requires LogCovers(db) && Disciplined(db)
    ensures var db', key := PartUpsert(db, repoId, slug, node, isNew, AtLog), (repoId, NumberOf(node));
            && Valid(db') && (Disciplined(db') <==> key in db.prs) && (key !in db.prs ==> EventsAt(db', key) == [])
  {
    var db', key := PartUpsert(db, repoId, slug, node, isNew, AtLog), (repoId, NumberOf(node));
    BareStaysValid(db, repoId, slug, node, isNew);
    if key in db.prs {
      BareIsUpsert(db, repoId, slug, node, isNew);
    } else {
      assert EventsOf(db.log.rows, PullRequest, db.prSeq + 1) == [];
      assert key in db'.prs && !WellLogged(EventsOf(db'.log.rows, PullRequest, db'.prs[key].id));
    }
  }

  lemma BareStaysValid(db: Db, repoId: nat, slug: Slug, node: PrNode, isNew: bool)
    requires Valid(db)
    ensures Valid(PartUpsert(db, repoId, slug, node, isNew, AtLog))
  {
    UpsertTables(db, repoId, slug, node, isNew);
    BareIsUpsert(db, repoId, slug, node, isNew);
    SameLaws(PartUpsert(db, repoId, slug, node, isNew, AtLog), UpsertPr(db, repoId, slug, node, isNew).(log := db.log));
  }

  /** One upsert cut short keeps the log in order unless it was cut between a new row and its log row. */
  lemma PartDisciplined(db: Db, repoId: nat, slug: Slug, node: PrNode, isNew: bool, stage: Stage)
    requires LogCovers(db) && Disciplined(db) && (isNew <==> (repoId, NumberOf(node)) !in db.prs)
    ensures Disciplined(PartUpsert(db, repoId, slug, node, isNew, stage)) <==> !(stage.AtLog? && isNew)
  {
    match stage
    case AtRow =>
    case AtLog => StoredUnlogged(db, repoId, slug, node, isNew);
    case AtParts(parts) =>
      UpsertDisciplined(db, repoId, slug, node, isNew);
      PartIsUpsert(db, repoId, slug, node, isNew, parts);
  }

  /** The refused statement is the log row of a pull request that was not stored before. */
  ghost predicate TearsNew(db: Db, t: Target, nodes: seq<PrNode>, fault: NodeFault) {
    fault.node < |nodes| && fault.stage.AtLog? && (t.id, NumberOf(nodes[fault.node])) !in db.prs
  }

  /** The nodes before the one at which a sweep stopped have been stored, and its own number has not. */
  lemma BeforeNode(db: Db, t: Target, nodes: seq<PrNode>, k: nat)
    requires LogCovers(db) && Disciplined(db) && DistinctNumbers(nodes) && k < |nodes|
    ensures var mid, key := UpsertAll(db, t.id, t.slug, Stored(db, t.id), nodes[..k]), (t.id, NumberOf(nodes[k]));
            LogCovers(mid) && Disciplined(mid) && Lookup(mid, key) == Lookup(db, key)
  {
    var init := nodes[..k];
    assert forall i | 0 <= i < |init| :: init[i] == nodes[i];
    UpsertAllDisciplined(db, t.id, t.slug, init);
    DistinctNewOnce(init, Stored(db, t.id));
    UpsertAllElsewhere(db, t.id, t.slug, Stored(db, t.id), init, (t.id, NumberOf(nodes[k])));
  }

  lemma StoppedDisciplined(db: Db, t: Target, nodes: seq<PrNode>, fault: NodeFault)
    requires LogCovers(db) && Disciplined(db) && DistinctNumbers(nodes) && Hits(Some(nodes), fault)
    ensures Disciplined(SyncRepoStopped(db, t, nodes, fault)) <==> !TearsNew(db, t, nodes, fault)
    ensures LogCovers(SyncRepoStopped(db, t, nodes, fault)) || TearsNew(db, t, nodes, fault)
    ensures Valid(SyncRepoStopped(db, t, nodes, fault))
  {
    if fault.node < |nodes| {
      var node, existing := nodes[fault.node], Stored(db, t.id);
      var mid, isNew := UpsertAll(db, t.id, t.slug, existing, nodes[..fault.node]), NumberOf(node) !in existing;
      BeforeNode(db, t, nodes, fault.node);
      assert isNew <==> (t.id, NumberOf(node)) !in mid.prs;
      PartLaws(mid, t.id, t.slug, node, isNew, fault.stage);
    }
  }

  lemma PartLaws(db: Db, repoId: nat, slug: Slug, node: PrNode, isNew: bool, stage: Stage)
    requires LogCovers(db) && Disciplined(db) && (isNew <==> (repoId, NumberOf(node)) !in db.prs)
    ensures var db' := PartUpsert(db, repoId, slug, node, isNew, stage);
            Valid(db') && (Disciplined(db') <==> !(stage.AtLog? && isNew))
                && (LogCovers(db') || (stage.AtLog? && isNew))
  {
    PartDisciplined(db, repoId, slug, node, isNew, stage);
    if !(stage.AtLog? && isNew) {
      PartCovers(db, repoId, slug, node, isNew, stage);
    } else {
      BareStaysValid(db, repoId, slug, node, isNew);
    }
  }

  lemma PartCovers(db: Db, repoId: nat, slug: Slug, node: PrNode, isNew: bool, stage: Stage)
    requires LogCovers(db) && !(stage.AtLog? && (repoId, NumberOf(node)) !in db.prs)
    ensures LogCovers(PartUpsert(db, repoId, slug, node, isNew, stage))
  {
    match stage
    case AtRow =>
    case AtLog =>
      BareIsUpsert(db, repoId, slug, node, isNew);
      SameLaws(PartUpsert(db, repoId, slug, node, isNew, stage), db);
    case AtParts(parts) =>
      UpsertLogs(db, repoId, slug, node, isNew);
      PartIsUpsert(db, repoId, slug, node, isNew, parts);
      SameLaws(PartUpsert(db, repoId, slug, node, isNew, stage), UpsertPr(db, repoId, slug, node, isNew));
  }

  // ---- runs with refused statements -------------------------------------------------------------

  /** An operation, or a sweep within which a statement was refused. */
  datatype Op = Whole(op: PrOp) | Cut(repos: seq<Target>, upstream: Slug -> Option<seq<PrNode>>, fault: SweepFault)

  function Perform(db: Db, op: Op): Db {
    match op
    case Whole(o) => Do(db, o)
    case Cut(repos, upstream, fault) =>
      if HitsAt(repos, upstream, Some(fault), fault.repo)
          then StoppedWithin(db, repos, upstream, Some(fault), fault.repo)
      else SyncEach(db, repos, upstream).0
  }

  /** A sweep's answers name each pull request once; a dirty list may name one again and again. */
  ghost predicate DistinctIn(op: Op) {
    match op
    case Whole(Targeted(_, _, answers)) => Honest(answers)
    case Whole(o) => Distinct(o)
    case Cut(repos, upstream, _) => Distinct(Sweep(repos, upstream))
  }

  /** The operation leaves a new pull request stored and not logged. */
  ghost predicate Tears(db: Db, op: Op) {
    op.Cut? && HitsAt(op.repos, op.upstream, Some(op.fault), op.fault.repo) &&
    var i := op.fault.repo;
    TearsNew(SyncEach(db, op.repos[..i], op.upstream).0, op.repos[i], op.upstream(op.repos[i].slug).value, op.fault.at)
  }

  /** A targeted fetch asks for a new pull request, which GitHub answers, more than once. */
  ghost predicate Repeats(db: Db, op: Op) {
    op.Whole? && op.op.Targeted?
        && !NewOnlyOnce(Stored(db, op.op.t.id), NumbersOf(Answered(op.op.numbers, op.op.answers)))
  }

  ghost predicate Breaks(db: Db, op: Op) {
    Tears(db, op) || Repeats(db, op)
  }

  lemma PerformDisciplined(db: Db, op: Op)
    requires LogCovers(db) && Disciplined(db) && DistinctIn(op)
    ensures Disciplined(Perform(db, op)) <==> !Breaks(db, op)
    ensures Valid(Perform(db, op)) && (!Breaks(db, op) ==> LogCovers(Perform(db, op)))
  {
    match op
    case Whole(Sweep(repos, upstream)) => SweepDisciplined(db, repos, upstream);
    case Whole(Targeted(t, numbers, answers)) => TargetedDisciplined(db, t, numbers, answers);
    case Whole(OtherRow(entity, id, event, slug)) => OtherRowDisciplined(db, entity, id, event, slug);
    case Cut(repos, upstream, fault) => CutDisciplined(db, repos, upstream, fault);
  }

  lemma CutDisciplined(db: Db, repos: seq<Target>, upstream: Slug -> Option<seq<PrNode>>, fault: SweepFault)
    requires LogCovers(db) && Disciplined(db) && Distinct(Sweep(repos, upstream))
    ensures var op := Cut(repos, upstream, fault);
            && (Disciplined(Perform(db, op)) <==> !Tears(db, op))
            && Valid(Perform(db, op)) && (!Tears(db, op) ==> LogCovers(Perform(db, op)))
  {
    if HitsAt(repos, upstream, Some(fault), fault.repo) {
      var i := fault.repo;
      assert forall j | 0 <= j < i :: repos[..i][j] == repos[j];
      SweepDisciplined(db, repos[..i], upstream);
      StoppedDisciplined(SyncEach(db, repos[..i], upstream).0, repos[i], upstream(repos[i].slug).value, fault.at);
    } else {
      SweepDisciplined(db, repos, upstream);
    }
  }

  // ---- once out of order, always out of order -------------------------------------------------------

  /** The row's log is not one "inserted" and then only "updated": it lacks the one or has it twice. */
  ghost predicate Misreported(db: Db, key: (nat, int)) {
    Valid(db) && key in db.prs && !WellLogged(EventsAt(db, key))
  }

  lemma EventsMore(db: Db, repoId: nat, slug: Slug, node: PrNode, isNew: bool, key: (nat, int))
    requires Valid(db) && key in db.prs
    ensures EventsAt(UpsertPr(db, repoId, slug, node, isNew), key) ==
            if key == (repoId, NumberOf(node))
                then EventsAt(db, key) + [if isNew then Inserted else ChangeEvent.Updated]
            else EventsAt(db, key)
  {
    UpsertTables(db, repoId, slug, node, isNew);
    var row := RowFor(node, Lookup(db, (repoId, NumberOf(node))), db.prSeq + 1);
    EventsOfAppend(db.log, PullRequest, row.id, if isNew then Inserted else ChangeEvent.Updated, Some(SlugText(slug)),
                   PullRequest, db.prs[key].id);
  }

  lemma UpsertKeepsMisreported(db: Db, repoId: nat, slug: Slug, node: PrNode, isNew: bool, key: (nat, int))
    requires Misreported(db, key) && (key == (repoId, NumberOf(node)) ==> !isNew)
    ensures Misreported(UpsertPr(db, repoId, slug, node, isNew), key)
  {
    UpsertTables(db, repoId, slug, node, isNew);
    WellLoggedSnoc(EventsAt(db, key), ChangeEvent.Updated);
    EventsMore(db, repoId, slug, node, isNew, key);
  }

  lemma {:induction false} UpsertAllKeepsMisreported(db: Db, repoId: nat, slug: Slug, existing: set<int>,
                                                     nodes: seq<PrNode>, key: (nat, int))
    requires Misreported(db, key) && (key.0 == repoId ==> key.1 in existing)
    ensures Misreported(UpsertAll(db, repoId, slug, existing, nodes), key)
  {
    if nodes != [] {
      var init, node := nodes[..|nodes| - 1], nodes[|nodes| - 1];
      UpsertAllKeepsMisreported(db, repoId, slug, existing, init, key);
      UpsertKeepsMisreported(UpsertAll(db, repoId, slug, existing, init), repoId, slug, node,
                             NumberOf(node) !in existing, key);
    }
  }

  lemma {:induction false} SweepKeepsMisreported(db: Db, repos: seq<Target>, upstream: Slug -> Option<seq<PrNode>>,
                                                 key: (nat, int))
    requires Misreported(db, key)
    ensures Misreported(SyncEach(db, repos, upstream).0, key)
  {
    if repos != [] {
      var init, t := repos[..|repos| - 1], repos[|repos| - 1];
      SweepKeepsMisreported(db, init, upstream, key);
      var mid := SyncEach(db, init, upstream).0;
      if upstream(t.slug).Some? {
        UpsertAllKeepsMisreported(mid, t.id, t.slug, Stored(mid, t.id), upstream(t.slug).value, key);
      }
    }
  }

  lemma PartKeepsMisreported(db: Db, repoId: nat, slug: Slug, node: PrNode, isNew: bool, stage: Stage, key: (nat, int))
    requires Misreported(db, key) && (key == (repoId, NumberOf(node)) ==> !isNew)
    ensures Misreported(PartUpsert(db, repoId, slug, node, isNew, stage), key)
  {
    match stage
    case AtRow =>
    case AtLog => BareStaysValid(db, repoId, slug, node, isNew);
    case AtParts(parts) =>
      UpsertKeepsMisreported(db, repoId, slug, node, isNew, key);
      PartIsUpsert(db, repoId, slug, node, isNew, parts);
      SameLaws(PartUpsert(db, repoId, slug, node, isNew, stage), UpsertPr(db, repoId, slug, node, isNew));
  }

  lemma StoppedKeepsMisreported(db: Db, t: Target, nodes: seq<PrNode>, fault: NodeFault, key: (nat, int))
    requires Misreported(db, key) && Hits(Some(nodes), fault)
    ensures Misreported(SyncRepoStopped(db, t, nodes, fault), key)
  {
    if fault.node < |nodes| {
      var existing, node := Stored(db, t.id), nodes[fault.node];
      assert key.0 == t.id ==> key.1 in existing;
      UpsertAllKeepsMisreported(db, t.id, t.slug, existing, nodes[..fault.node], key);
      PartKeepsMisreported(UpsertAll(db, t.id, t.slug, existing, nodes[..fault.node]), t.id, t.slug, node,
                           NumberOf(node) !in existing, fault.stage, key);
    }
  }

  lemma DoKeepsMisreported(db: Db, op: PrOp, key: (nat, int))
    requires Misreported(db, key) && DistinctIn(Whole(op))
    ensures Misreported(Do(db, op), key)
  {
    match op
    case Sweep(repos, upstream) => SweepKeepsMisreported(db, repos, upstream, key);
    case Targeted(t, numbers, answers) => TargetedKeepsMisreported(db, t, numbers, answers, key);
    case OtherRow(entity, id, event, slug) =>
      EventsOfAppend(db.log, entity, id, event, Some(slug), PullRequest, db.prs[key].id);
      assert EventsAt(Do(db, op), key) == EventsAt(db, key) + [] == EventsAt(db, key);
  }

  lemma TargetedKeepsMisreported(db: Db, t: Target, numbers: seq<int>, answers: Answers, key: (nat, int))
    requires Misreported(db, key) && Honest(answers)
    ensures Misreported(SyncTargetedSpec(db, t, numbers, answers), key)
  {
    TargetedIsUpsertAll(db, t, Stored(db, t.id), numbers, answers);
    UpsertAllKeepsMisreported(db, t.id, t.slug, Stored(db, t.id), Answered(numbers, answers), key);
  }

  lemma CutKeepsMisreported(db: Db, repos: seq<Target>, upstream: Slug -> Option<seq<PrNode>>, fault: SweepFault,
                            key: (nat, int))
    requires Misreported(db, key) && HitsAt(repos, upstream, Some(fault), fault.repo)
    ensures Misreported(StoppedWithin(db, repos, upstream, Some(fault), fault.repo), key)
  {
    var i, t := fault.repo, repos[fault.repo];
    SweepKeepsMisreported(db, repos[..i], upstream, key);
    StoppedKeepsMisreported(SyncEach(db, repos[..i], upstream).0, t, upstream(t.slug).value, fault.at, key);
  }

  lemma PerformKeepsMisreported(db: Db, op: Op, key: (nat, int))
    requires Misreported(db, key) && DistinctIn(op)
    ensures Misreported(Perform(db, op), key)
  {
    match op
    case Whole(o) => DoKeepsMisreported(db, o, key);
    case Cut(repos, upstream, fault) =>
      if HitsAt(repos, upstream, Some(fault), fault.repo) {
        CutKeepsMisreported(db, repos, upstream, fault, key);
      } else {
        SweepKeepsMisreported(db, repos, upstream, key);
      }
  }

  function PerformAll(db: Db, ops: seq<Op>): Db {
    if ops == [] then db else Perform(PerformAll(db, ops[..|ops| - 1]), ops[|ops| - 1])
  }

  ghost predicate BreaksAt(db: Db, ops: seq<Op>, i: nat) {
    i < |ops| && Breaks(PerformAll(db, ops[..i]), ops[i])
  }

  /**
   * In every run mixing sweeps, targeted fetches of any dirty lists and rows of other tables, with
   * statements refused anywhere within sweeps, each pull request's log is one "inserted" followed by
   * "updated" only if and only if no refused statement was the log row of a new pull request and no
   * dirty list named a new pull request more than once.
   */
  lemma {:induction false} RunDisciplinedIff(db: Db, ops: seq<Op>)
    requires LogCovers(db) && Disciplined(db) && forall i | 0 <= i < |ops| :: DistinctIn(ops[i])
    ensures Disciplined(PerformAll(db, ops)) <==> forall i: nat :: !BreaksAt(db, ops, i)
    ensures Disciplined(PerformAll(db, ops)) ==> LogCovers(PerformAll(db, ops))
    ensures Valid(PerformAll(db, ops))
  {
    if ops != [] {
      var n := |ops| - 1;
      var init, mid := ops[..n], PerformAll(db, ops[..n]);
      RunDisciplinedIff(db, init);
      forall i: nat ensures BreaksAt(db, ops, i) <==> BreaksAt(db, init, i) || (i == n && Breaks(mid, ops[n])) {
        if i < n {
          assert init[..i] == ops[..i];
        }
      }
      if Disciplined(mid) {
        PerformDisciplined(mid, ops[n]);
        assert BreaksAt(db, ops, n) <==> Breaks(mid, ops[n]);
      } else {
        var key :| key in mid.prs && !WellLogged(EventsAt(mid, key));
        PerformKeepsMisreported(mid, ops[n], key);
        MisreportedIsNotDisciplined(PerformAll(db, ops), key);
      }
    }
  }

  /** A log once out of order, for want of its "inserted" or for having it twice, stays so. */
  lemma {:induction false} MisreportedStays(db: Db, ops: seq<Op>, i: nat, key: (nat, int))
    requires i <= |ops| && Misreported(PerformAll(db, ops[..i]), key) && forall k | i <= k < |ops| :: DistinctIn(ops[k])
    ensures Misreported(PerformAll(db, ops), key) && !Disciplined(PerformAll(db, ops))
  {
    if i < |ops| {
      var n := |ops| - 1;
      var init := ops[..n];
      assert init[..i] == ops[..i];
      MisreportedStays(db, init, i, key);
      OneMoreKeepsMisreported(PerformAll(db, init), ops[n], PerformAll(db, ops), key);
    } else {
      assert ops[..i] == ops;
      MisreportedIsNotDisciplined(PerformAll(db, ops), key);
    }
  }

  lemma OneMoreKeepsMisreported(db: Db, op: Op, after: Db, key: (nat, int))
    requires Misreported(db, key) && DistinctIn(op) && after == Perform(db, op)
    ensures Misreported(after, key) && !Disciplined(after)
  {
    PerformKeepsMisreported(db, op, key);
    MisreportedIsNotDisciplined(after, key);
  }

  lemma MisreportedIsNotDisciplined(db: Db, key: (nat, int))
    requires Misreported(db, key)
    ensures !Disciplined(db)
  {
    assert !WellLogged(EventsOf(db.log.rows, PullRequest, db.prs[key].id));
  }
}
