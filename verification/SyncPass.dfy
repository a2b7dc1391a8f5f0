/** The repositories of a run, each with its transaction, and the batched sweep after them. */
module SyncPass {
  import opened Wrappers
  import opened ChangeLog
  import opened Database
  import opened Events
  import opened Prs

  // Everything GitHub and SQLite may do in a repository's transaction is in its `World`.

  datatype SyncFilter = SyncFilter(repo: Option<Slug>, prsOnly: bool, notifsOnly: bool, eventsOnly: bool) {
    predicate All() {
      !prsOnly && !notifsOnly && !eventsOnly
    }

    predicate DoPrs() {
      All() || prsOnly
    }

    predicate DoEvents() {
      All() || eventsOnly
    }

    predicate Selects(slug: Slug) {
      repo.Some? ==> repo.value == slug
    }
  }

  datatype RepoConfig = RepoConfig(slug: Slug, defaultBranch: Option<string>, syncPrs: bool, syncEvents: bool,
                                   syncBranches: bool)

  /** The parts of a repository's transaction in which SQLite may refuse a statement, where the part has one. */
  datatype Stage = AtRepo | AtEvents | AtPrs | AtBranches

  /**
   * `page` None, `prCallOk` and `branches` None are failed calls; `now` is the time of the poll;
   * `idOk` says whether the repository's id can be read back once the transaction has committed.
   */
  datatype World = World(
    throttleOk: bool, page: Option<Page>, q: Queries, prCallOk: bool, answers: Answers,
    branches: Option<bool>, fault: Option<Stage>, commitOk: bool, idOk: bool, now: nat)

  /** The dirty lists from the organisation calls; an organisation's repository is one of `orgOwners`. */
  datatype OrgDirty = OrgDirty(owners: set<string>, dirty: map<Slug, seq<int>>)

  datatype Outcome = Committed(activity: bool, batch: Option<Target>) | RolledBack | RunFailed

  datatype Body = Body(db: Db, repoId: nat, activity: bool, dirty: seq<int>, batch: bool)

  // ---- the transaction's body ---------------------------------------------------------------

  predicate WantsEvents(cfg: RepoConfig, filter: SyncFilter) {
    filter.DoEvents() && cfg.syncEvents
  }

  predicate WantsPrs(cfg: RepoConfig, filter: SyncFilter) {
    filter.DoPrs() && cfg.syncPrs
  }

  predicate WantsBranches(cfg: RepoConfig, filter: SyncFilter) {
    cfg.syncBranches && filter.All()
  }

  function RepoStage(db: Db, cfg: RepoConfig, w: World): Option<Body> {
    if w.fault == Some(AtRepo) then None
    else
      var (db', id) := UpsertRepo(db, cfg.slug, Or(cfg.defaultBranch, "main"));
      Some(Body(db', id, false, [], false))
  }

  function EventsStage(b: Body, cfg: RepoConfig, org: OrgDirty, w: World): Option<Body> {
    if cfg.slug.0 in org.owners then
      Some(b.(activity := cfg.slug in org.dirty, dirty := if cfg.slug in org.dirty then org.dirty[cfg.slug] else []))
    else if w.fault == Some(AtEvents) then None
    else
      match SyncEvents(b.db, b.repoId, cfg.slug, w.page, w.q, w.now)
      case None => None
      case Some((db', res)) => Some(b.(db := db', activity := res.hadActivity, dirty := res.dirtyPrs))
  }

  function PrsStage(b: Body, cfg: RepoConfig, full: bool, w: World): Option<Body> {
    if full then Some(b.(batch := true))
    else if b.dirty == [] then Some(b)
    else if w.fault == Some(AtPrs) || !w.prCallOk then None
    else Some(b.(db := SyncTargetedSpec(b.db, Target(b.repoId, cfg.slug), b.dirty, w.answers)))
  }

  function BranchesStage(b: Body, w: World): Option<Body> {
    if w.fault == Some(AtBranches) || w.branches.None? then None
    else Some(b.(activity := b.activity || w.branches.value))
  }

  function RunBody(db: Db, cfg: RepoConfig, filter: SyncFilter, org: OrgDirty, full: bool, w: World): Option<Body> {
    match RepoStage(db, cfg, w)
    case None => None
    case Some(b0) =>
      match if WantsEvents(cfg, filter) then EventsStage(b0, cfg, org, w) else Some(b0)
      case None => None
      case Some(b1) =>
        match if WantsPrs(cfg, filter) then PrsStage(b1, cfg, full, w) else Some(b1)
        case None => None
        case Some(b2) => if WantsBranches(cfg, filter) then BranchesStage(b2, w) else Some(b2)
  }

  function Pass(db: Db, cfg: RepoConfig, filter: SyncFilter, org: OrgDirty, full: bool, w: World): (Db, Outcome) {
    if !w.throttleOk then (db, RunFailed)
    else
      match RunBody(db, cfg, filter, org, full, w)
      case None => (db, RolledBack)
      case Some(b) =>
        if !w.commitOk then (db, RunFailed)
        else (b.db, Committed(b.activity, if b.batch && w.idOk then Some(Target(b.repoId, cfg.slug)) else None))
  }

  // ---- the same, statement by statement -------------------------------------------------------

  /** The body of the transaction: false when a call or a statement failed part way. */
  method RunTransaction(conn: Connection, cfg: RepoConfig, filter: SyncFilter, org: OrgDirty, full: bool, w: World)
    returns (ok: bool, repoId: nat, activity: bool, batch: bool)
    modifies conn
    ensures ok <==> RunBody(old(conn.db), cfg, filter, org, full, w).Some?
    ensures ok ==>
            exists dirty ::
                RunBody(old(conn.db), cfg, filter, org, full, w) == Some(Body(conn.db, repoId, activity, dirty, batch))
  {
    ok, repoId, activity, batch := false, 0, false, false;
    var dirty := [];
    if w.fault == Some(AtRepo) {
      return;
    }
    var (db', id) := UpsertRepo(conn.db, cfg.slug, Or(cfg.defaultBranch, "main"));
    conn.db, repoId := db', id;
    if WantsEvents(cfg, filter) {
      if cfg.slug.0 in org.owners {
        activity := cfg.slug in org.dirty;
        if activity {
          dirty := org.dirty[cfg.slug];
        }
      } else {
        if w.fault == Some(AtEvents) {
          return;
        }
        var res := Sync(conn, repoId, cfg.slug, w.page, w.q, w.now);
        if res.None? {
          return;
        }
        activity, dirty := res.value.hadActivity, res.value.dirtyPrs;
      }
    }
    if WantsPrs(cfg, filter) {
      if full {
        batch := true;
      } else {
        var fetched := SyncTargeted(conn, Target(repoId, cfg.slug), dirty, w.answers, w.prCallOk
                                    && w.fault != Some(AtPrs));
        if !fetched {
          return;
        }
      }
    }
    if WantsBranches(cfg, filter) {
      if w.fault == Some(AtBranches) || w.branches.None? {
        return;
      }
      if w.branches.value {
        activity := true;
      }
    }
    ok := true;
    assert RunBody(old(conn.db), cfg, filter, org, full, w) == Some(Body(conn.db, repoId, activity, dirty, batch));
  }

  method PassOn(conn: Connection, cfg: RepoConfig, filter: SyncFilter, org: OrgDirty, full: bool, w: World)
    returns (outcome: Outcome)
    modifies conn
    ensures (conn.db, outcome) == Pass(old(conn.db), cfg, filter, org, full, w)
  {
    if !w.throttleOk {
      return RunFailed;
    }
    var begun := conn.db;
    var ok, repoId, activity, batch := RunTransaction(conn, cfg, filter, org, full, w);
    if !ok {
      conn.db := begun;
      return RolledBack;
    }
    if !w.commitOk {
      conn.db := begun;
      return RunFailed;
    }
    outcome := Committed(activity, if batch && w.idOk then Some(Target(repoId, cfg.slug)) else None);
  }

  // ---- all repositories -------------------------------------------------------------------------

  /** `batch` are the repositories left to the sweep; `failed` says that the run ended early. */
  datatype Progress = Progress(db: Db, active: set<Slug>, batch: seq<Target>, failed: bool)

  function Step(p: Progress, cfg: RepoConfig, filter: SyncFilter, org: OrgDirty, full: bool, w: World): Progress {
    if p.failed || !filter.Selects(cfg.slug) then p
    else
      var (db', outcome) := Pass(p.db, cfg, filter, org, full, w);
      match outcome
      case RunFailed => p.(db := db', failed := true)
      case RolledBack => p.(db := db')
      case Committed(activity, batch) =>
        Progress(db', if activity then p.active + {cfg.slug} else p.active,
                 if batch.Some? then p.batch + [batch.value] else p.batch, false)
  }

  function Steps(db: Db, cfgs: seq<RepoConfig>, filter: SyncFilter, org: OrgDirty, full: bool, ws: seq<World>): Progress
    requires |cfgs| == |ws|
  {
    if cfgs == [] then Progress(db, {}, [], false)
    else
      var n := |cfgs| - 1;
      Step(Steps(db, cfgs[..n], filter, org, full, ws[..n]), cfgs[n], filter, org, full, ws[n])
  }

  /**
   * How a run ends: early, with the tables as the last commit left them, or with the sweep over the
   * repositories that asked for it.
   */
  ghost predicate RunEnds(before: Db, after: Db, cfgs: seq<RepoConfig>, filter: SyncFilter, org: OrgDirty, full: bool,
                          ws: seq<World>, upstream: Slug -> Option<seq<PrNode>>, callOk: nat -> bool,
                          fault: Option<SweepFault>, r: Result<set<Slug>, ()>, calls: nat, done: nat)
    requires |cfgs| == |ws|
  {
    var p := Steps(before, cfgs, filter, org, full, ws);
    if p.failed then r.Err? && after == p.db
    else
      exists swept :: SweepEnds(p.db, after, p.batch, upstream, callOk, fault, swept, calls, done)
                         && r == if swept.Ok? then Ok(p.active + swept.value) else Err(())
  }

  /** All repositories in turn, and then the sweep over those that asked for it. */
  method RunRepos(conn: Connection, cfgs: seq<RepoConfig>, filter: SyncFilter, org: OrgDirty, full: bool,
                  ws: seq<World>, upstream: Slug -> Option<seq<PrNode>>, callOk: nat -> bool, fault: Option<SweepFault>)
    returns (r: Result<set<Slug>, ()>, ghost calls: nat, ghost done: nat)
    requires |cfgs| == |ws|
    modifies conn
    ensures RunEnds(old(conn.db), conn.db, cfgs, filter, org, full, ws, upstream, callOk, fault, r, calls, done)
  {
    var active, batch := {}, [];
    ghost var before := conn.db;
    for i := 0 to |cfgs|
      invariant Progress(conn.db, active, batch, false) == Steps(before, cfgs[..i], filter, org, full, ws[..i])
    {
      assert cfgs[..i + 1][..i] == cfgs[..i] && ws[..i + 1][..i] == ws[..i];
      if !filter.Selects(cfgs[i].slug) {
        continue;
      }
      var outcome := PassOn(conn, cfgs[i], filter, org, full, ws[i]);
      match outcome {
        case RunFailed =>
          FailedStays(before, cfgs, filter, org, full, ws, i + 1);
          return Err(()), 0, 0;
        case RolledBack =>
        case Committed(activity, b) =>
          if activity {
            active := active + {cfgs[i].slug};
          }
          if b.Some? {
            batch := batch + [b.value];
          }
      }
    }
    assert cfgs[..|cfgs|] == cfgs && ws[..|ws|] == ws;
    calls, done := 0, 0;
    ghost var swept: Result<set<Slug>, ()> := Ok({});
    if batch == [] {
      r := Ok(active);
      assert active + {} == active;
      assert SweepEnds(conn.db, conn.db, batch, upstream, callOk, fault, swept, calls, done);
    } else {
      ghost var passed := conn.db;
      var s, c;
      s, c, done := SyncBatch(conn, batch, upstream, callOk, fault);
      swept, calls := s, c;
      r := if s.Ok? then Ok(active + s.value) else Err(());
    }
  }

  lemma {:induction false} FailedStays(db: Db, cfgs: seq<RepoConfig>, filter: SyncFilter, org: OrgDirty, full: bool,
                                       ws: seq<World>, i: nat)
    requires |cfgs| == |ws| && i <= |cfgs|
    requires Steps(db, cfgs[..i], filter, org, full, ws[..i]).failed
    ensures Steps(db, cfgs, filter, org, full, ws) == Steps(db, cfgs[..i], filter, org, full, ws[..i])
  {
    var n := |cfgs| - 1;
    if i <= n {
      assert cfgs[..n][..i] == cfgs[..i] && ws[..n][..i] == ws[..i];
      FailedStays(db, cfgs[..n], filter, org, full, ws[..n], i);
    } else {
      assert cfgs[..i] == cfgs && ws[..i] == ws;
    }
  }
}
