/** When a full run, which stores events in its turns and pull requests in its sweep, brings one up to date. */
module FullRuns {
  import opened Wrappers
  import opened Database
  import opened Prs
  import opened PrLaws
  import opened SyncPass
  import opened PassLaws
  import opened RunLaws

  // ---- the sweep's batch ----------------------------------------------------------------------------

  /** The ids in the batch are those of their repositories. */
  ghost predicate Known(db: Db, batch: seq<Target>) {
    KnownIds(db)
        && forall b | 0 <= b < |batch| :: batch[b].slug in db.repos && batch[b].id == db.repos[batch[b].slug].id
  }

  /** Repository i's turn puts it into the batch. */
  ghost predicate Joins(r: Plan, i: nat, slug: Slug)
    requires |r.cfgs| == |r.ws|
  {
    Commits(r, i) && r.cfgs[i].slug == slug && WantsPrs(r.cfgs[i], r.filter) && r.ws[i].idOk
  }

  ghost predicate In(batch: seq<Target>, slug: Slug) {
    exists b :: 0 <= b < |batch| && batch[b].slug == slug
  }

  lemma TurnBatch(r: Plan, i: nat)
    requires i < |r.cfgs| == |r.ws| && r.full && KnownIds(r.start)
    ensures var before, after := Before(r, i), Before(r, i + 1);
            && KnownIds(after.db)
            && (forall s | s in before.db.repos :: s in after.db.repos && after.db.repos[s].id == before.db.repos[s].id)
            && (if Joins(r, i, r.cfgs[i].slug)
                then r.cfgs[i].slug in after.db.repos
                     && after.batch == before.batch + [Target(after.db.repos[r.cfgs[i].slug].id, r.cfgs[i].slug)]
                else after.batch == before.batch)
  {
    TurnsKeep(r, i);
    TurnTaken(r, i);
    TurnKeeps(Before(r, i).db, r.cfgs[i], r.filter, r.org, true, r.ws[i]);
    if Commits(r, i) {
      TurnIs(Before(r, i).db, r.cfgs[i], r.filter, r.org, true, r.ws[i]);
      OpeningKeeps(Before(r, i).db, r.cfgs[i], r.filter, r.org, r.ws[i]);
    }
  }

  lemma {:induction false} BatchKnown(r: Plan, i: nat)
    requires i <= |r.cfgs| == |r.ws| && r.full && KnownIds(r.start)
    ensures Known(Before(r, i).db, Before(r, i).batch)
  {
    if i > 0 {
      BatchKnown(r, i - 1);
      TurnBatch(r, i - 1);
      KnownMore(Before(r, i - 1).db, Before(r, i).db, Before(r, i - 1).batch, Before(r, i).batch, r.cfgs[i - 1].slug);
    }
  }

  lemma KnownMore(db: Db, after: Db, batch: seq<Target>, more: seq<Target>, slug: Slug)
    requires Known(db, batch) && KnownIds(after)
    requires forall s | s in db.repos :: s in after.repos && after.repos[s].id == db.repos[s].id
    requires more == batch || (slug in after.repos && more == batch + [Target(after.repos[slug].id, slug)])
    ensures Known(after, more)
  {
  }

  lemma InMore(batch: seq<Target>, t: Target, slug: Slug)
    ensures In(batch + [t], slug) <==> In(batch, slug) || t.slug == slug
  {
    if b :| 0 <= b < |batch| && batch[b].slug == slug {
      assert (batch + [t])[b].slug == slug;
    }
    assert (batch + [t])[|batch|] == t;
  }

  /** A repository is in the batch if and only if a turn of its was reached, committed, and wanted its pull requests. */
  lemma {:induction false} BatchIs(r: Plan, i: nat, slug: Slug)
    requires i <= |r.cfgs| == |r.ws| && r.full && KnownIds(r.start)
    ensures In(Before(r, i).batch, slug) <==> exists k: nat :: k < i && Joins(r, k, slug)
  {
    if i > 0 {
      BatchIs(r, i - 1, slug);
      TurnBatch(r, i - 1);
      var cfg := r.cfgs[i - 1];
      if Joins(r, i - 1, cfg.slug) {
        InMore(Before(r, i - 1).batch, Target(Before(r, i).db.repos[cfg.slug].id, cfg.slug), slug);
      }
    }
  }

  // ---- whole answers ------------------------------------------------------------------------------

  /** The sweep's answer for this repository is true and names each pull request once. */
  ghost predicate Truthful(answer: Option<seq<PrNode>>, truth: Answers) {
    answer.Some? ==> DistinctNumbers(answer.value) && TrueNodes(answer.value, truth)
  }

  /** In the batch, this id is this repository's. */
  ghost predicate Own(batch: seq<Target>, slug: Slug, id: nat) {
    forall b | 0 <= b < |batch| :: batch[b].id == id <==> batch[b].slug == slug
  }

  lemma OneSweptIff(db: Db, t: Target, answer: Option<seq<PrNode>>, slug: Slug, id: nat, n: int, truth: Answers)
    requires (t.id == id <==> t.slug == slug) && (t.slug == slug ==> Truthful(answer, truth))
    ensures Refreshed(SyncRepo(db, t, answer).0, id, n, truth) <==>
            Refreshed(db, id, n, truth) || (t.slug == slug && answer.Some? && Mentions(answer.value, n))
  {
    if answer.Some? {
      if t.slug == slug {
        SweepRefreshesIff(db, t, answer.value, truth, n);
      } else {
        UpsertAllElsewhere(db, t.id, t.slug, Stored(db, t.id), answer.value, (id, n));
      }
    }
  }

  /** Repositories swept in full bring up to date what GitHub returned for them, and nothing else. */
  lemma {:induction false} SweptIff(db: Db, batch: seq<Target>, upstream: Slug -> Option<seq<PrNode>>, slug: Slug,
                                    id: nat, n: int, truth: Answers)
    requires Own(batch, slug, id) && Truthful(upstream(slug), truth)
    ensures Refreshed(SyncEach(db, batch, upstream).0, id, n, truth) <==>
            Refreshed(db, id, n, truth)
                || (In(batch, slug) && upstream(slug).Some? && Mentions(upstream(slug).value, n))
  {
    if batch != [] {
      var init, t := batch[..|batch| - 1], batch[|batch| - 1];
      SweptIff(db, init, upstream, slug, id, n, truth);
      OneSweptIff(SyncEach(db, init, upstream).0, t, upstream(t.slug), slug, id, n, truth);
      if In(init, slug) {
        var b :| 0 <= b < |init| && init[b].slug == slug;
        assert batch[b].slug == slug;
      }
    }
  }

  // ---- answers cut short ---------------------------------------------------------------------------

  /**
   * What a refused statement leaves of the pull request it was about reflects the node if and only if
   * the row was written and the labels and reviewers not written yet were there before. The row may
   * have reflected the node before and no longer do so: the old labels are deleted first.
   */
  ghost predicate CutReflects(prior: Option<PrRow>, node: PrNode, stage: Prs.Stage) {
    var labels := if prior.Some? then prior.value.labels else map[];
    var reviewers := if prior.Some? then prior.value.reviewers else {};
    match stage
    case AtRow => prior.Some? && Reflects(prior.value, node)
    case AtLog => labels == LabelsOf(node.labels) && reviewers == ReviewersOf(node.requests)
    case AtParts(InReviews(_)) => labels == LabelsOf(node.labels) && reviewers == ReviewersOf(node.requests)
    case AtParts(InLabels(n)) =>
      && (if n.Some? then LabelsOf(Take(node.labels, n.value)) else labels) == LabelsOf(node.labels)
      && reviewers == ReviewersOf(node.requests)
    case AtParts(InRequests(n)) =>
      (if n.Some? then ReviewersOf(Take(node.requests, n.value)) else reviewers) == ReviewersOf(node.requests)
    case AtParts(InChecks(_)) => true
  }

  lemma PartReflectsIff(prior: Option<PrRow>, node: PrNode, newId: nat, parts: Parts)
    ensures Reflects(PartRow(BareRow(node, prior, newId), node, parts), node) <==>
            CutReflects(prior, node, AtParts(parts))
  {
  }

  lemma CutReflectsIff(db: Db, t: Target, node: PrNode, isNew: bool, stage: Prs.Stage)
    ensures var row := Lookup(PartUpsert(db, t.id, t.slug, node, isNew, stage), (t.id, NumberOf(node)));
            (row.Some? && Reflects(row.value, node)) <==> CutReflects(Lookup(db, (t.id, NumberOf(node))), node, stage)
  {
    if stage.AtParts? {
      PartReflectsIff(Lookup(db, (t.id, NumberOf(node))), node, db.prSeq + 1, stage.parts);
    }
  }

  lemma CutElsewhere(db: Db, t: Target, node: PrNode, isNew: bool, stage: Prs.Stage, key: (nat, int))
    requires key != (t.id, NumberOf(node))
    ensures Lookup(PartUpsert(db, t.id, t.slug, node, isNew, stage), key) == Lookup(db, key)
  {
  }

  /** Node `node` is this pull request's. */
  ghost predicate IsAt(nodes: seq<PrNode>, node: nat, n: int) {
    node < |nodes| && NumberOf(nodes[node]) == n
  }

  /** A repository's answer cut short: the pull requests before, and the one at which it was cut. */
  lemma StoppedIff(db: Db, t: Target, nodes: seq<PrNode>, fault: NodeFault, n: int, truth: Answers)
    requires Hits(Some(nodes), fault) && Truthful(Some(nodes), truth)
    ensures Refreshed(SyncRepoStopped(db, t, nodes, fault), t.id, n, truth) <==>
            if IsAt(nodes, fault.node, n) then CutReflects(Lookup(db, (t.id, n)), nodes[fault.node], fault.stage)
            else Refreshed(db, t.id, n, truth) || Mentions(nodes[..fault.node], n)
  {
    var first := nodes[..fault.node];
    var mid := UpsertAll(db, t.id, t.slug, Stored(db, t.id), first);
    assert forall i | 0 <= i < |first| :: first[i] == nodes[i];
    SweepRefreshesIff(db, t, first, truth, n);
    if fault.node < |nodes| {
      var node := nodes[fault.node];
      if NumberOf(node) == n {
        UpsertAllElsewhere(db, t.id, t.slug, Stored(db, t.id), first, (t.id, n));
        CutReflectsIff(mid, t, node, NumberOf(node) !in Stored(db, t.id), fault.stage);
        assert truth(n) == Some(node);
      } else {
        CutElsewhere(mid, t, node, NumberOf(node) !in Stored(db, t.id), fault.stage, (t.id, n));
      }
    }
  }

  // ---- how far the sweep comes -----------------------------------------------------------------------

  /** The repositories of a sweep, GitHub's answers, which calls are answered, and the statement refused, if any. */
  datatype Sweep = Sweep(batch: seq<Target>, upstream: Slug -> Option<seq<PrNode>>, callOk: nat -> bool,
                         fault: Option<SweepFault>)

  /** The call for repository b and those before it are answered. */
  ghost predicate Called(s: Sweep, b: nat) {
    forall k | 0 <= k <= b / BATCH_SIZE :: s.callOk(k)
  }

  predicate Cut(s: Sweep, b: nat) {
    HitsAt(s.batch, s.upstream, s.fault, b)
  }

  /** The sweep comes to repository b, and no statement before it is refused. */
  ghost predicate Comes(s: Sweep, b: nat) {
    b < |s.batch| && Called(s, b) && forall j | 0 <= j < b :: !Cut(s, j)
  }

  ghost predicate Ends(s: Sweep, before: Db, after: Db, r: Result<set<Slug>, ()>, calls: nat, done: nat) {
    SweepEnds(before, after, s.batch, s.upstream, s.callOk, s.fault, r, calls, done)
  }

  /** The repositories before `until` are swept in full, and the one there only in part or not at all. */
  ghost predicate Until(s: Sweep, before: Db, after: Db, until: nat) {
    && until <= |s.batch|
    && (forall b: nat | b < until :: Comes(s, b) && !Cut(s, b))
    && (forall b: nat | until < b :: !Comes(s, b))
    && (until < |s.batch| && Comes(s, until) ==> Cut(s, until))
    && after == if until < |s.batch| && Comes(s, until)
                then StoppedWithin(before, s.batch, s.upstream, s.fault, until)
                else SyncEach(before, s.batch[..until], s.upstream).0
  }

  lemma EndsUntil(s: Sweep, before: Db, after: Db, r: Result<set<Slug>, ()>, calls: nat, done: nat) returns (until: nat)
    requires Ends(s, before, after, r, calls, done)
    ensures Until(s, before, after, until)
  {
    if r.Ok? {
      until := |s.batch|;
      assert s.batch[..until] == s.batch;
    } else {
      until := done;
      assert forall k | 0 <= k <= done / BATCH_SIZE && k != calls - 1 :: s.callOk(k);
      if s.callOk(calls - 1) {
        assert Comes(s, done) && Cut(s, done);
      } else {
        assert forall b: nat | done <= b :: calls - 1 <= b / BATCH_SIZE;
      }
    }
  }

  // ---- what the sweep brings -------------------------------------------------------------------------

  /** The sweep writes the whole of pull request n when it comes to repository b. */
  ghost predicate Brings(s: Sweep, b: nat, slug: Slug, n: int) {
    && Comes(s, b) && s.batch[b].slug == slug && s.upstream(slug).Some?
    && Mentions(if Cut(s, b) then Take(s.upstream(slug).value, s.fault.value.at.node) else s.upstream(slug).value, n)
  }

  /** The refused statement is about this pull request. */
  ghost predicate CutsAt(s: Sweep, slug: Slug, n: int) {
    s.fault.Some? &&
    var b, at := s.fault.value.repo, s.fault.value.at;
    Comes(s, b) && Cut(s, b) && s.batch[b].slug == slug && IsAt(s.upstream(slug).value, at.node, n)
  }

  /** The node at which the sweep was cut. */
  ghost function NodeAt(s: Sweep, slug: Slug, n: int): PrNode
    requires CutsAt(s, slug, n)
  {
    s.upstream(slug).value[s.fault.value.at.node]
  }

  /** What the pull request's row was when the refused statement came. */
  ghost function Prior(s: Sweep, before: Db, id: nat, n: int): Option<PrRow>
    requires s.fault.Some? && s.fault.value.repo < |s.batch|
  {
    Lookup(SyncEach(before, s.batch[..s.fault.value.repo], s.upstream).0, (id, n))
  }

  /**
   * However a sweep ends, a pull request is up to date afterwards if and only if it was so before, or
   * the sweep came to its repository and wrote it in full; one at which it was cut is so if and only if
   * what the refused statement left reflects it.
   */
  lemma SweepRefreshesIffBrought(s: Sweep, before: Db, after: Db, r: Result<set<Slug>, ()>, calls: nat, done: nat,
                                 slug: Slug, id: nat, n: int, truth: Answers)
    requires Ends(s, before, after, r, calls, done) && Own(s.batch, slug, id) && Truthful(s.upstream(slug), truth)
    ensures Refreshed(after, id, n, truth) <==>
            if CutsAt(s, slug, n)
            then CutReflects(Prior(s, before, id, n), NodeAt(s, slug, n), s.fault.value.at.stage)
            else Refreshed(before, id, n, truth) || exists b: nat :: Brings(s, b, slug, n)
  {
    var until := EndsUntil(s, before, after, r, calls, done);
    SweptIff(before, s.batch[..until], s.upstream, slug, id, n, truth);
    if until < |s.batch| && Comes(s, until) {
      CutDecides(s, before, after, until, slug, id, n, truth);
    } else {
      WholeBrings(s, before, after, until, slug, n);
    }
  }

  /** Where no statement is refused, the sweep brings what GitHub returned for the repositories it came to. */
  lemma WholeBrings(s: Sweep, before: Db, after: Db, until: nat, slug: Slug, n: int)
    requires Until(s, before, after, until)
    ensures (exists b: nat :: b < until && Brings(s, b, slug, n)) <==>
            In(s.batch[..until], slug) && s.upstream(slug).Some? && Mentions(s.upstream(slug).value, n)
    ensures until == |s.batch| || !Comes(s, until) ==> forall b: nat | until <= b :: !Brings(s, b, slug, n)
  {
    if In(s.batch[..until], slug) && s.upstream(slug).Some? && Mentions(s.upstream(slug).value, n) {
      var b: nat :| b < until && s.batch[..until][b].slug == slug;
      assert Brings(s, b, slug, n);
    }
    if b: nat :| b < until && Brings(s, b, slug, n) {
      assert s.batch[..until][b].slug == slug;
    }
  }

  lemma StoppedElsewhere(db: Db, t: Target, nodes: seq<PrNode>, fault: NodeFault, key: (nat, int))
    requires Hits(Some(nodes), fault) && key.0 != t.id
    ensures Lookup(SyncRepoStopped(db, t, nodes, fault), key) == Lookup(db, key)
  {
    if fault.node < |nodes| {
      var first, node := nodes[..fault.node], nodes[fault.node];
      UpsertAllElsewhere(db, t.id, t.slug, Stored(db, t.id), first, key);
      CutElsewhere(UpsertAll(db, t.id, t.slug, Stored(db, t.id), first), t, node, NumberOf(node) !in Stored(db, t.id),
                   fault.stage, key);
    }
  }

  lemma CutHere(s: Sweep, mid: Db, until: nat, slug: Slug, id: nat, n: int, truth: Answers)
    requires Comes(s, until) && Cut(s, until) && Own(s.batch, slug, id) && Truthful(s.upstream(slug), truth)
    ensures var t := s.batch[until];
            var after := SyncRepoStopped(mid, t, s.upstream(t.slug).value, s.fault.value.at);
            Refreshed(after, id, n, truth) <==>
            if CutsAt(s, slug, n)
            then CutReflects(Lookup(mid, (id, n)), NodeAt(s, slug, n), s.fault.value.at.stage)
            else Refreshed(mid, id, n, truth) || Brings(s, until, slug, n)
  {
    var t, at := s.batch[until], s.fault.value.at;
    if t.slug == slug {
      StoppedIff(mid, t, s.upstream(slug).value, at, n, truth);
      assert Take(s.upstream(slug).value, at.node) == s.upstream(slug).value[..at.node];
    } else {
      StoppedElsewhere(mid, t, s.upstream(t.slug).value, at, (id, n));
    }
  }

  lemma CutDecides(s: Sweep, before: Db, after: Db, until: nat, slug: Slug, id: nat, n: int, truth: Answers)
    requires Until(s, before, after, until) && Comes(s, until) && Own(s.batch, slug, id)
             && Truthful(s.upstream(slug), truth)
    ensures Refreshed(after, id, n, truth) <==>
            if CutsAt(s, slug, n)
            then CutReflects(Prior(s, before, id, n), NodeAt(s, slug, n), s.fault.value.at.stage)
            else Refreshed(before, id, n, truth) || exists b: nat :: Brings(s, b, slug, n)
  {
    var mid := SyncEach(before, s.batch[..until], s.upstream).0;
    SweptIff(before, s.batch[..until], s.upstream, slug, id, n, truth);
    WholeBrings(s, before, after, until, slug, n);
    CutHere(s, mid, until, slug, id, n, truth);
    assert forall b: nat | until < b :: !Brings(s, b, slug, n);
  }

  // ---- a full run -----------------------------------------------------------------------------------

  lemma {:induction false} UpsertAllKeepsRest(db: Db, repoId: nat, slug: Slug, existing: set<int>, nodes: seq<PrNode>)
    ensures var after := UpsertAll(db, repoId, slug, existing, nodes);
            after.events == db.events && after.repos == db.repos
  {
    if nodes != [] {
      UpsertAllKeepsRest(db, repoId, slug, existing, nodes[..|nodes| - 1]);
    }
  }

  lemma {:induction false} SweepKeepsRest(db: Db, batch: seq<Target>, upstream: Slug -> Option<seq<PrNode>>)
    ensures var after := SyncEach(db, batch, upstream).0; after.events == db.events && after.repos == db.repos
  {
    if batch != [] {
      var init, t := batch[..|batch| - 1], batch[|batch| - 1];
      SweepKeepsRest(db, init, upstream);
      if upstream(t.slug).Some? {
        var mid := SyncEach(db, init, upstream).0;
        UpsertAllKeepsRest(mid, t.id, t.slug, Stored(mid, t.id), upstream(t.slug).value);
      }
    }
  }

  lemma StoppedKeepsRest(db: Db, batch: seq<Target>, upstream: Slug -> Option<seq<PrNode>>, fault: Option<SweepFault>,
                         i: nat)
    requires HitsAt(batch, upstream, fault, i)
    ensures var after := StoppedWithin(db, batch, upstream, fault, i);
            after.events == db.events && after.repos == db.repos
  {
    var mid, t, at := SyncEach(db, batch[..i], upstream).0, batch[i], fault.value.at;
    SweepKeepsRest(db, batch[..i], upstream);
    var nodes := upstream(t.slug).value;
    if at.node < |nodes| {
      UpsertAllKeepsRest(mid, t.id, t.slug, Stored(mid, t.id), nodes[..at.node]);
    }
  }

  lemma EndsKeepsRest(s: Sweep, before: Db, after: Db, r: Result<set<Slug>, ()>, calls: nat, done: nat)
    requires Ends(s, before, after, r, calls, done)
    ensures after.events == before.events && after.repos == before.repos
  {
    var until := EndsUntil(s, before, after, r, calls, done);
    SweepKeepsRest(before, s.batch[..until], s.upstream);
    if until < |s.batch| && Comes(s, until) {
      StoppedKeepsRest(before, s.batch, s.upstream, s.fault, until);
    }
  }

  /** The run is this plan's turns and, after them, this sweep's. */
  ghost predicate IsFullRun(r: Plan, s: Sweep, after: Db, res: Result<set<Slug>, ()>, calls: nat, done: nat) {
    && |r.cfgs| == |r.ws| && r.full && KnownIds(r.start) && s.batch == Before(r, |r.cfgs|).batch
    && RunEnds(r.start, after, r.cfgs, r.filter, r.org, true, r.ws, s.upstream, s.callOk, s.fault, res, calls, done)
  }

  lemma FullRunEnds(r: Plan, s: Sweep, after: Db, res: Result<set<Slug>, ()>, calls: nat, done: nat)
    returns (swept: Result<set<Slug>, ()>)
    requires IsFullRun(r, s, after, res, calls, done)
    ensures !Reached(r, |r.cfgs|) ==> after == Before(r, |r.cfgs|).db
    ensures Reached(r, |r.cfgs|) ==> Ends(s, Before(r, |r.cfgs|).db, after, swept, calls, done)
  {
    BeforeIsSteps(r, |r.cfgs|);
    ReachedIff(r, |r.cfgs|);
    assert r.cfgs[..|r.cfgs|] == r.cfgs && r.ws[..|r.ws|] == r.ws;
    var p := Before(r, |r.cfgs|);
    swept := Err(());
    if !p.failed {
      swept :| SweepEnds(p.db, after, p.batch, s.upstream, s.callOk, s.fault, swept, calls, done);
    }
  }

  /** What the turns of a full run leave to the sweep. */
  lemma FullRunKeepsEvents(r: Plan, s: Sweep, after: Db, res: Result<set<Slug>, ()>, calls: nat, done: nat)
    requires IsFullRun(r, s, after, res, calls, done)
    ensures after.events == Before(r, |r.cfgs|).db.events && after.repos == Before(r, |r.cfgs|).db.repos
    ensures forall k | k in r.start.events :: k in after.events && after.events[k] == r.start.events[k]
  {
    var swept := FullRunEnds(r, s, after, res, calls, done);
    TurnsKeep(r, |r.cfgs|);
    if Reached(r, |r.cfgs|) {
      EndsKeepsRest(s, Before(r, |r.cfgs|).db, after, swept, calls, done);
    }
  }

  lemma BatchOwns(r: Plan, slug: Slug, id: nat)
    requires |r.cfgs| == |r.ws| && r.full && KnownIds(r.start) && Has(Before(r, |r.cfgs|).db, slug, id)
    ensures Own(Before(r, |r.cfgs|).batch, slug, id)
  {
    BatchKnown(r, |r.cfgs|);
  }

  /**
   * When a full run, with failures anywhere, brings a pull request up to date, whatever its turns and
   * the organisation calls before them stored about it. If some turn ends the run, the pull request is
   * as it was. Otherwise it is up to date if and only if it was so before, or the sweep came to its
   * repository, which a committed turn had put into the batch, and GitHub's answer had it before the
   * place where the sweep was cut, if it was. If the sweep was cut at this very pull request, it is up
   * to date if and only if what was left reflects it.
   */
  lemma FullRunRefreshesIff(r: Plan, s: Sweep, after: Db, res: Result<set<Slug>, ()>, calls: nat, done: nat,
                            slug: Slug, id: nat, n: int, truth: Answers)
    requires IsFullRun(r, s, after, res, calls, done) && Has(Before(r, |r.cfgs|).db, slug, id)
             && Truthful(s.upstream(slug), truth)
    ensures In(s.batch, slug) <==> exists k: nat :: Joins(r, k, slug)
    ensures Refreshed(after, id, n, truth) <==>
            if !Reached(r, |r.cfgs|) then Refreshed(r.start, id, n, truth)
            else if CutsAt(s, slug, n)
            then CutReflects(Prior(s, Before(r, |r.cfgs|).db, id, n), NodeAt(s, slug, n), s.fault.value.at.stage)
            else Refreshed(r.start, id, n, truth) || exists b: nat :: Brings(s, b, slug, n)
  {
    var before := Before(r, |r.cfgs|).db;
    var swept := FullRunEnds(r, s, after, res, calls, done);
    TurnsKeep(r, |r.cfgs|);
    BatchIs(r, |r.cfgs|, slug);
    BatchOwns(r, slug, id);
    if Reached(r, |r.cfgs|) {
      SweepRefreshesIffBrought(s, before, after, swept, calls, done, slug, id, n, truth);
    }
  }
}
