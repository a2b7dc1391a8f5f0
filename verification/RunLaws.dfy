/** When a run brings a pull request up to date: over all its repositories, failures and the sweep. */
module RunLaws {
  import opened Wrappers
  import opened ChangeLog
  import opened Database
  import opened Events
  import opened EventLaws
  import opened Prs
  import opened PrLaws
  import opened SyncPass
  import opened SyncRun
  import opened PassLaws

  // ---- what one turn leaves alone -----------------------------------------------------------------

  /** The repository is known under this id. */
  ghost predicate Has(db: Db, slug: Slug, id: nat) {
    KnownIds(db) && slug in db.repos && db.repos[slug].id == id
  }

  lemma {:induction false} TargetedElsewhere(db: Db, t: Target, existing: set<int>, numbers: seq<int>, answers: Answers,
                                             key: (nat, int))
    requires key.0 != t.id || (Honest(answers) && key.1 !in numbers)
    ensures Lookup(TargetedAll(db, t, existing, numbers, answers), key) == Lookup(db, key)
  {
    if numbers != [] {
      TargetedElsewhere(db, t, existing, numbers[..|numbers| - 1], answers, key);
    }
  }

  /** The dirty list that a repository's turn fetches, if it gets that far. */
  function Asks(db: Db, cfg: RepoConfig, filter: SyncFilter, org: OrgDirty, w: World): seq<int> {
    if !WantsEvents(cfg, filter) || !WantsPrs(cfg, filter) then []
    else if cfg.slug.0 in org.owners then if cfg.slug in org.dirty then org.dirty[cfg.slug] else []
    else
      var (db0, id) := UpsertRepo(db, cfg.slug, Or(cfg.defaultBranch, "main"));
      match SyncEvents(db0, id, cfg.slug, w.page, w.q, w.now)
      case None => []
      case Some(r) => r.1.dirtyPrs
  }

  /** A turn up to its fetch: the repository and its events. */
  function Opening(db: Db, cfg: RepoConfig, filter: SyncFilter, org: OrgDirty, w: World): Option<Body> {
    match RepoStage(db, cfg, w)
    case None => None
    case Some(b) => if WantsEvents(cfg, filter) then EventsStage(b, cfg, org, w) else Some(b)
  }

  /** Nothing of another repository has changed, this one is known, and no event is lost. */
  ghost predicate Extended(db: Db, slug: Slug, id: nat, db1: Db) {
    && Has(db1, slug, id) && db1.prs == db.prs
    && (forall s | s in db.repos :: s in db1.repos && db1.repos[s].id == db.repos[s].id)
    && (forall k | k in db.events :: k in db1.events && db1.events[k] == db.events[k])
  }

  lemma OpeningKeeps(db: Db, cfg: RepoConfig, filter: SyncFilter, org: OrgDirty, w: World)
    requires KnownIds(db) && Opening(db, cfg, filter, org, w).Some?
    ensures var b := Opening(db, cfg, filter, org, w).value; Extended(db, cfg.slug, b.repoId, b.db)
  {
    var (db0, id) := UpsertRepo(db, cfg.slug, Or(cfg.defaultBranch, "main"));
    UpsertExtends(db, cfg.slug, Or(cfg.defaultBranch, "main"));
    if WantsEvents(cfg, filter) && cfg.slug.0 !in org.owners {
      SyncEventsKeeps(db0, id, cfg.slug, w.page, w.q, w.now);
      ExtendsOn(db, cfg.slug, id, db0, Opening(db, cfg, filter, org, w).value.db);
    }
  }

  lemma UpsertExtends(db: Db, slug: Slug, branch: string)
    requires KnownIds(db)
    ensures var (db0, id) := UpsertRepo(db, slug, branch); Extended(db, slug, id, db0)
  {
    var (db0, id) := UpsertRepo(db, slug, branch);
    assert forall s | s in db0.repos && s != slug :: s in db.repos && db0.repos[s] == db.repos[s];
    assert db0.repos[slug].id == id;
    assert slug in db.repos || id > db.repoSeq;
  }

  lemma ExtendsOn(db: Db, slug: Slug, id: nat, db0: Db, db1: Db)
    requires Extended(db, slug, id, db0) && db1.repos == db0.repos && db1.repoSeq == db0.repoSeq && db1.prs == db0.prs
    requires forall k | k in db0.events :: k in db1.events && db1.events[k] == db0.events[k]
    ensures Extended(db, slug, id, db1)
  {
  }

  /** What a turn does after that. */
  lemma TurnIs(db: Db, cfg: RepoConfig, filter: SyncFilter, org: OrgDirty, full: bool, w: World)
    requires Pass(db, cfg, filter, org, full, w).1.Committed?
    ensures Opening(db, cfg, filter, org, w).Some?
    ensures var b, p := Opening(db, cfg, filter, org, w).value, Pass(db, cfg, filter, org, full, w);
            && p.0 == (if full then b.db
                       else SyncTargetedSpec(b.db, Target(b.repoId, cfg.slug), Asks(db, cfg, filter, org, w),
                                             w.answers))
            && p.1.batch == if full && WantsPrs(cfg, filter) && w.idOk then Some(Target(b.repoId, cfg.slug)) else None
  {
    var b := Opening(db, cfg, filter, org, w).value;
    assert WantsPrs(cfg, filter) ==> b.dirty == Asks(db, cfg, filter, org, w);
    assert WantsEvents(cfg, filter) || b.dirty == [];
  }

  lemma SyncEventsKeeps(db: Db, id: nat, slug: Slug, page: Option<Page>, q: Queries, now: nat)
    requires SyncEvents(db, id, slug, page, q, now).Some?
    ensures var after := SyncEvents(db, id, slug, page, q, now).value.0;
            && after.repos == db.repos && after.repoSeq == db.repoSeq && after.prs == db.prs
            && forall k | k in db.events :: k in after.events && after.events[k] == db.events[k]
  {
    if page.Some? {
      var noted := NotePoll(db, EventsEndpoint(slug), page.value, now);
      IngestKeepsRest(noted, id, SlugText(slug), Offered(page.value), q);
      forall k | k in db.events
        ensures var after := Ingest(noted, id, SlugText(slug), Offered(page.value), q).db;
                k in after.events && after.events[k] == db.events[k]
      {
        IngestIsUnion(noted, id, SlugText(slug), Offered(page.value), q, k);
      }
    }
  }

  /** A turn keeps every event, every id given out, and the pull requests of every other repository. */
  lemma TurnKeeps(db: Db, cfg: RepoConfig, filter: SyncFilter, org: OrgDirty, full: bool, w: World)
    requires KnownIds(db)
    ensures var after := Pass(db, cfg, filter, org, full, w).0;
            && KnownIds(after)
            && (forall s | s in db.repos :: s in after.repos && after.repos[s].id == db.repos[s].id)
            && (forall k | k in db.events :: k in after.events && after.events[k] == db.events[k])
            && (full ==> after.prs == db.prs)
            && forall s, n | s in db.repos && s != cfg.slug ::
                 Lookup(after, (db.repos[s].id, n)) == Lookup(db, (db.repos[s].id, n))
  {
    if Pass(db, cfg, filter, org, full, w).1.Committed? {
      TurnIs(db, cfg, filter, org, full, w);
      OpeningKeeps(db, cfg, filter, org, w);
      var b := Opening(db, cfg, filter, org, w).value;
      if !full {
        var id, db1 := b.repoId, b.db;
        var t, numbers := Target(id, cfg.slug), Asks(db, cfg, filter, org, w);
        TargetedKeepsRest(db1, t, Stored(db1, id), numbers, w.answers);
        forall s, n | s in db.repos && s != cfg.slug
          ensures Lookup(SyncTargetedSpec(db1, t, numbers, w.answers), (db.repos[s].id, n))
                  == Lookup(db, (db.repos[s].id, n))
        {
          TargetedElsewhere(db1, t, Stored(db1, id), numbers, w.answers, (db.repos[s].id, n));
        }
      }
    }
  }

  /** A targeted turn brings a pull request of its repository up to date if and only if it commits and asks for it. */
  lemma TurnRefreshesIff(db: Db, cfg: RepoConfig, filter: SyncFilter, org: OrgDirty, w: World, id: nat, n: int)
    requires Has(db, cfg.slug, id) && Honest(w.answers)
    ensures var p := Pass(db, cfg, filter, org, false, w);
            Refreshed(p.0, id, n, w.answers) <==>
            Refreshed(db, id, n, w.answers) || (p.1.Committed? && n in Asks(db, cfg, filter, org, w))
  {
    if Pass(db, cfg, filter, org, false, w).1.Committed? {
      TurnIs(db, cfg, filter, org, false, w);
      OpeningKeeps(db, cfg, filter, org, w);
      FetchRefreshesIff(Opening(db, cfg, filter, org, w).value.db, Target(id, cfg.slug), Asks(db, cfg, filter, org, w),
                        w.answers, n);
    }
  }

  lemma FetchRefreshesIff(db: Db, t: Target, numbers: seq<int>, answers: Answers, n: int)
    requires Honest(answers)
    ensures Refreshed(SyncTargetedSpec(db, t, numbers, answers), t.id, n, answers) <==>
            Refreshed(db, t.id, n, answers) || n in numbers
  {
    if n in numbers {
      TargetedRefreshes(db, t, Stored(db, t.id), numbers, answers, n);
    } else {
      TargetedElsewhere(db, t, Stored(db, t.id), numbers, answers, (t.id, n));
    }
  }

  // ---- the repositories of a run in turn -------------------------------------------------------------

  /** The repositories of a run, what each meets, and the tables and dirty lists they start from. */
  datatype Plan = Plan(start: Db, cfgs: seq<RepoConfig>, filter: SyncFilter, org: OrgDirty, full: bool, ws: seq<World>)

  /** How far the run has come when repository i's turn comes. */
  function Before(r: Plan, i: nat): Progress
    requires i <= |r.cfgs| == |r.ws|
  {
    if i == 0 then Progress(r.start, {}, [], false)
    else Step(Before(r, i - 1), r.cfgs[i - 1], r.filter, r.org, r.full, r.ws[i - 1])
  }

  lemma {:induction false} BeforeIsSteps(r: Plan, i: nat)
    requires i <= |r.cfgs| == |r.ws|
    ensures Before(r, i) == Steps(r.start, r.cfgs[..i], r.filter, r.org, r.full, r.ws[..i])
  {
    if i > 0 {
      BeforeIsSteps(r, i - 1);
      assert r.cfgs[..i][..i - 1] == r.cfgs[..i - 1] && r.ws[..i][..i - 1] == r.ws[..i - 1];
    }
  }

  /** Repository i's transaction. */
  function TurnAt(r: Plan, i: nat): (Db, Outcome)
    requires i < |r.cfgs| == |r.ws|
  {
    Pass(Before(r, i).db, r.cfgs[i], r.filter, r.org, r.full, r.ws[i])
  }

  /** A turn that ends the whole run: the throttle fails, or the commit of a body that went through. */
  predicate EndsRun(r: Plan, i: nat)
    requires i < |r.cfgs| == |r.ws|
  {
    var w := r.ws[i];
    r.filter.Selects(r.cfgs[i].slug) &&
    (!w.throttleOk || (!w.commitOk && RunBody(Before(r, i).db, r.cfgs[i], r.filter, r.org, r.full, w).Some?))
  }

  /** No turn before repository i's ends the run. */
  ghost predicate Reached(r: Plan, i: nat)
    requires i <= |r.cfgs| == |r.ws|
  {
    forall k | 0 <= k < i :: !EndsRun(r, k)
  }

  lemma {:induction false} ReachedIff(r: Plan, i: nat)
    requires i <= |r.cfgs| == |r.ws|
    ensures Reached(r, i) <==> !Before(r, i).failed
  {
    if i > 0 {
      ReachedIff(r, i - 1);
      assert Reached(r, i) <==> Reached(r, i - 1) && !EndsRun(r, i - 1);
      StepFails(Before(r, i - 1), r.cfgs[i - 1], r.filter, r.org, r.full, r.ws[i - 1]);
    }
  }

  lemma StepFails(p: Progress, cfg: RepoConfig, filter: SyncFilter, org: OrgDirty, full: bool, w: World)
    ensures Step(p, cfg, filter, org, full, w).failed <==>
            p.failed
                || (filter.Selects(cfg.slug)
                    && (!w.throttleOk || (!w.commitOk && RunBody(p.db, cfg, filter, org, full, w).Some?)))
  {
  }

  /** Repository i is selected, no earlier turn ends the run, and its own commits. */
  ghost predicate Commits(r: Plan, i: nat)
    requires |r.cfgs| == |r.ws|
  {
    i < |r.cfgs| && r.filter.Selects(r.cfgs[i].slug) && Reached(r, i) && TurnAt(r, i).1.Committed?
  }

  /** What a turn that does not commit changes: nothing. */
  lemma TurnTaken(r: Plan, i: nat)
    requires i < |r.cfgs| == |r.ws|
    ensures var before, after := Before(r, i), Before(r, i + 1);
            if Commits(r, i)
                then after.db == TurnAt(r, i).0 && after.batch == before.batch + Asked(TurnAt(r, i).1.batch)
            else after.db == before.db && after.batch == before.batch
  {
    ReachedIff(r, i);
  }

  function Asked(batch: Option<Target>): seq<Target> {
    if batch.Some? then [batch.value] else []
  }

  /** What a run of turns keeps. */
  ghost predicate Keeps(db: Db, after: Db, full: bool) {
    && KnownIds(after)
    && (forall s | s in db.repos :: s in after.repos && after.repos[s].id == db.repos[s].id)
    && (forall k | k in db.events :: k in after.events && after.events[k] == db.events[k])
    && (full ==> after.prs == db.prs)
  }

  lemma {:induction false} TurnsKeep(r: Plan, i: nat)
    requires i <= |r.cfgs| == |r.ws| && KnownIds(r.start)
    ensures Keeps(r.start, Before(r, i).db, r.full)
  {
    if i > 0 {
      TurnsKeep(r, i - 1);
      TurnTaken(r, i - 1);
      TurnKeeps(Before(r, i - 1).db, r.cfgs[i - 1], r.filter, r.org, r.full, r.ws[i - 1]);
    }
  }

  lemma HasStill(r: Plan, i: nat, slug: Slug, id: nat)
    requires i <= |r.cfgs| == |r.ws| && Has(r.start, slug, id)
    ensures Has(Before(r, i).db, slug, id)
  {
    TurnsKeep(r, i);
  }

  /** Repository i is this one, and its turn commits the refresh of pull request n. */
  ghost predicate RefreshesIn(r: Plan, slug: Slug, n: int, i: nat)
    requires |r.cfgs| == |r.ws|
  {
    && Commits(r, i) && r.cfgs[i].slug == slug
    && n in Asks(Before(r, i).db, r.cfgs[i], r.filter, r.org, r.ws[i])
  }

  /** GitHub answers every turn of this repository in the same way. */
  ghost predicate Steady(r: Plan, slug: Slug, truth: Answers)
    requires |r.cfgs| == |r.ws|
  {
    Honest(truth) && forall i | 0 <= i < |r.cfgs| && r.cfgs[i].slug == slug :: r.ws[i].answers == truth
  }

  /** The pull request is up to date when repository i's turn comes. */
  ghost predicate UpToDate(r: Plan, i: nat, id: nat, n: int, truth: Answers)
    requires i <= |r.cfgs| == |r.ws|
  {
    Refreshed(Before(r, i).db, id, n, truth)
  }

  lemma TurnDecides(r: Plan, i: nat, slug: Slug, id: nat, n: int, truth: Answers)
    requires i < |r.cfgs| == |r.ws| && Has(r.start, slug, id) && Steady(r, slug, truth) && !r.full
    ensures UpToDate(r, i + 1, id, n, truth) <==> UpToDate(r, i, id, n, truth) || RefreshesIn(r, slug, n, i)
  {
    var before := Before(r, i).db;
    HasStill(r, i, slug, id);
    TurnTaken(r, i);
    if r.cfgs[i].slug == slug {
      TurnRefreshesIff(before, r.cfgs[i], r.filter, r.org, r.ws[i], id, n);
    } else {
      TurnKeeps(before, r.cfgs[i], r.filter, r.org, r.full, r.ws[i]);
      assert Lookup(TurnAt(r, i).0, (id, n)) == Lookup(before, (id, n));
    }
  }

  /** One of the first i turns refreshes the pull request. */
  ghost predicate RefreshedEarlier(r: Plan, slug: Slug, n: int, i: nat)
    requires |r.cfgs| == |r.ws|
  {
    i > 0 && (RefreshedEarlier(r, slug, n, i - 1) || RefreshesIn(r, slug, n, i - 1))
  }

  lemma {:induction false} EarlierFinds(r: Plan, slug: Slug, n: int, i: nat) returns (k: nat)
    requires |r.cfgs| == |r.ws| && RefreshedEarlier(r, slug, n, i)
    ensures k < i && RefreshesIn(r, slug, n, k)
  {
    k := i - 1;
    if !RefreshesIn(r, slug, n, k) {
      k := EarlierFinds(r, slug, n, k);
    }
  }

  lemma {:induction false} EarlierHas(r: Plan, slug: Slug, n: int, i: nat, k: nat)
    requires |r.cfgs| == |r.ws| && k < i && RefreshesIn(r, slug, n, k)
    ensures RefreshedEarlier(r, slug, n, i)
  {
    if k < i - 1 {
      EarlierHas(r, slug, n, i - 1, k);
    }
  }

  lemma {:induction false} TurnsDecide(r: Plan, i: nat, slug: Slug, id: nat, n: int, truth: Answers)
    requires i <= |r.cfgs| == |r.ws| && Has(r.start, slug, id) && Steady(r, slug, truth) && !r.full
    ensures UpToDate(r, i, id, n, truth) <==> UpToDate(r, 0, id, n, truth) || RefreshedEarlier(r, slug, n, i)
  {
    if i > 0 {
      TurnsDecide(r, i - 1, slug, id, n, truth);
      TurnDecides(r, i - 1, slug, id, n, truth);
    }
  }

  /**
   * In a targeted run, with failures anywhere, a pull request is up to date after the last turn if and
   * only if it was so at the start, or some turn of its repository was reached, was committed, and had
   * it in its dirty list.
   */
  lemma TargetedRunRefreshesIff(r: Plan, slug: Slug, id: nat, n: int, truth: Answers)
    requires |r.cfgs| == |r.ws| && Has(r.start, slug, id) && Steady(r, slug, truth) && !r.full
    ensures Refreshed(Before(r, |r.cfgs|).db, id, n, truth) <==>
            Refreshed(r.start, id, n, truth) || exists i: nat :: RefreshesIn(r, slug, n, i)
  {
    TurnsDecide(r, |r.cfgs|, slug, id, n, truth);
    if RefreshedEarlier(r, slug, n, |r.cfgs|) {
      var k := EarlierFinds(r, slug, n, |r.cfgs|);
    }
    if k: nat :| RefreshesIn(r, slug, n, k) {
      EarlierHas(r, slug, n, |r.cfgs|, k);
    }
  }

  // ---- repositories whose events are not synced ------------------------------------------------------

  /** Targeted runs fetch nothing for a repository whose events none of its turns wants. */
  lemma {:induction false} UnsyncedStays(r: Plan, i: nat, slug: Slug, id: nat, n: int)
    requires i <= |r.cfgs| == |r.ws| && Has(r.start, slug, id) && !r.full
    requires forall k | 0 <= k < |r.cfgs| && r.cfgs[k].slug == slug :: !WantsEvents(r.cfgs[k], r.filter)
    ensures Lookup(Before(r, i).db, (id, n)) == Lookup(r.start, (id, n))
  {
    if i > 0 {
      UnsyncedStays(r, i - 1, slug, id, n);
      HasStill(r, i - 1, slug, id);
      TurnTaken(r, i - 1);
      UnsyncedTurn(Before(r, i - 1).db, r.cfgs[i - 1], r.filter, r.org, r.ws[i - 1], slug, id, n);
    }
  }

  lemma UnsyncedTurn(db: Db, cfg: RepoConfig, filter: SyncFilter, org: OrgDirty, w: World, slug: Slug, id: nat, n: int)
    requires Has(db, slug, id) && (cfg.slug == slug ==> !WantsEvents(cfg, filter))
    ensures Lookup(Pass(db, cfg, filter, org, false, w).0, (id, n)) == Lookup(db, (id, n))
  {
    if cfg.slug != slug {
      TurnKeeps(db, cfg, filter, org, false, w);
    } else if Pass(db, cfg, filter, org, false, w).1.Committed? {
      TurnIs(db, cfg, filter, org, false, w);
      OpeningKeeps(db, cfg, filter, org, w);
    }
  }

  lemma {:induction false} SubscriptionsAreBare(active: seq<Slug>, repos: seq<RepoConfig>)
    ensures forall c | c in SubscriptionRepos(active, repos) :: c.syncPrs && !c.syncEvents && !c.syncBranches
  {
    if active != [] {
      SubscriptionsAreBare(active[..|active| - 1], repos);
    }
  }

  /**
   * So a repository that only subscriptions ask for is fetched by the full sweep and never again: no
   * targeted run, woken by a subscription or not, changes any of its pull requests.
   */
  lemma SubscribedStays(r: Plan, repos: seq<RepoConfig>, found: seq<RepoConfig>, active: seq<Slug>, slug: Slug, id: nat,
                        n: int)
    requires r.cfgs == repos + found + SubscriptionRepos(active, repos) && |r.cfgs| == |r.ws| && !r.full
    requires Has(r.start, slug, id) && forall c | c in repos + found && c.slug == slug :: !c.syncEvents
    ensures Lookup(Before(r, |r.cfgs|).db, (id, n)) == Lookup(r.start, (id, n))
  {
    SubscriptionsAreBare(active, repos);
    forall k | 0 <= k < |r.cfgs| && r.cfgs[k].slug == slug ensures !WantsEvents(r.cfgs[k], r.filter) {
      assert r.cfgs[k] in r.cfgs;
    }
    UnsyncedStays(r, |r.cfgs|, slug, id, n);
  }
}
