/** A whole run: discovery, the organisation calls, the repositories in turn, and the sweep. */
module SyncRun {
  import opened Wrappers
  import opened Database
  import opened Events
  import opened Prs
  import opened SyncPass

  datatype OrgConfig = OrgConfig(owner: string, exclude: set<string>, syncPrs: bool, syncEvents: bool,
                                 syncBranches: bool)

  /**
   * What happens to one organisation: the names and default branches that discovery finds, or None if it
   * fails, and then what its events call meets.
   */
  datatype OrgWorld = OrgWorld(
    discovered: Option<seq<(string, Option<string>)>>,
    page: Option<Page>, q: nat -> Queries, lookupOk: string -> bool, now: nat, fault: Option<OrgFault>)

  // ---- discovery ------------------------------------------------------------------------------

  function OrgRepos(org: OrgConfig, found: seq<(string, Option<string>)>): seq<RepoConfig> {
    if found == [] then []
    else
      var (name, branch) := found[|found| - 1];
      OrgRepos(org, found[..|found| - 1])
      + if name in org.exclude then []
        else [RepoConfig((org.owner, name), branch, org.syncPrs, org.syncEvents, org.syncBranches)]
  }

  function Owners(orgs: seq<OrgConfig>, ows: seq<OrgWorld>): set<string>
    requires |orgs| == |ows|
  {
    set i | 0 <= i < |orgs| && ows[i].discovered.Some? :: orgs[i].owner
  }

  function Found(orgs: seq<OrgConfig>, ows: seq<OrgWorld>): seq<RepoConfig>
    requires |orgs| == |ows|
  {
    if orgs == [] then []
    else
      var n := |orgs| - 1;
      Found(orgs[..n], ows[..n])
      + if ows[n].discovered.Some? then OrgRepos(orgs[n], ows[n].discovered.value) else []
  }

  /** The repositories of a run, in order; one may be there several times. */
  function AllRepos(repos: seq<RepoConfig>, orgs: seq<OrgConfig>, ows: seq<OrgWorld>,
                    extra: seq<RepoConfig>): seq<RepoConfig>
    requires |orgs| == |ows|
  {
    repos + Found(orgs, ows) + extra
  }

  /** What the watch loop adds for its subscriptions: pull requests and nothing else, unless configured already. */
  function SubscriptionRepos(active: seq<Slug>, repos: seq<RepoConfig>): seq<RepoConfig> {
    if active == [] then []
    else
      var slug := active[|active| - 1];
      SubscriptionRepos(active[..|active| - 1], repos)
      + if exists c :: c in repos && c.slug == slug then [] else [RepoConfig(slug, None, true, false, false)]
  }

  // ---- the organisation calls ----------------------------------------------------------------------

  function OrgCall(db: Db, org: OrgConfig, w: OrgWorld, username: string): (Db, Option<map<string, seq<int>>>) {
    SyncOrgEvents(db, org.owner, username, w.page, w.q, w.lookupOk, w.now, w.fault)
  }

  function Under(owner: string, dirty: map<string, seq<int>>): map<Slug, seq<int>> {
    map name | name in dirty :: (owner, name) := dirty[name]
  }

  /** The calls one after the other; a list for a repository replaces an earlier one. */
  function OrgCalls(db: Db, orgs: seq<OrgConfig>, ows: seq<OrgWorld>, username: string): (Db, map<Slug, seq<int>>)
    requires |orgs| == |ows|
  {
    if orgs == [] then (db, map[])
    else
      var n := |orgs| - 1;
      var (before, dirty) := OrgCalls(db, orgs[..n], ows[..n], username);
      if !orgs[n].syncEvents then (before, dirty)
      else
        var (after, lists) := OrgCall(before, orgs[n], ows[n], username);
        (after, if lists.Some? then dirty + Under(orgs[n].owner, lists.value) else dirty)
  }

  /** The tables and the lists with which the repositories' turns begin. */
  function Begun(db: Db, orgs: seq<OrgConfig>, ows: seq<OrgWorld>, filter: SyncFilter, username: string): (Db, OrgDirty)
    requires |orgs| == |ows|
  {
    var (after, dirty) := if filter.DoEvents() then OrgCalls(db, orgs, ows, username) else (db, map[]);
    (after, OrgDirty(Owners(orgs, ows), dirty))
  }

  method Discover(orgs: seq<OrgConfig>, ows: seq<OrgWorld>) returns (owners: set<string>, found: seq<RepoConfig>)
    requires |orgs| == |ows|
    ensures owners == Owners(orgs, ows) && found == Found(orgs, ows)
  {
    owners, found := {}, [];
    for i := 0 to |orgs|
      invariant owners == Owners(orgs[..i], ows[..i]) && found == Found(orgs[..i], ows[..i])
    {
      assert orgs[..i + 1][..i] == orgs[..i] && ows[..i + 1][..i] == ows[..i];
      if ows[i].discovered.Some? {
        owners := owners + {orgs[i].owner};
        var repos := Configure(orgs[i], ows[i].discovered.value);
        found := found + repos;
      }
    }
    assert orgs[..|orgs|] == orgs && ows[..|ows|] == ows;
  }

  method Configure(org: OrgConfig, found: seq<(string, Option<string>)>) returns (repos: seq<RepoConfig>)
    ensures repos == OrgRepos(org, found)
  {
    repos := [];
    for i := 0 to |found|
      invariant repos == OrgRepos(org, found[..i])
    {
      assert found[..i + 1][..i] == found[..i];
      if found[i].0 !in org.exclude {
        repos := repos
            + [RepoConfig((org.owner, found[i].0), found[i].1, org.syncPrs, org.syncEvents, org.syncBranches)];
      }
    }
    assert found[..|found|] == found;
  }

  method CallOrgs(conn: Connection, orgs: seq<OrgConfig>, ows: seq<OrgWorld>, username: string)
    returns (dirty: map<Slug, seq<int>>)
    requires |orgs| == |ows|
    modifies conn
    ensures (conn.db, dirty) == OrgCalls(old(conn.db), orgs, ows, username)
  {
    dirty := map[];
    ghost var before := conn.db;
    for i := 0 to |orgs|
      invariant (conn.db, dirty) == OrgCalls(before, orgs[..i], ows[..i], username)
    {
      assert orgs[..i + 1][..i] == orgs[..i] && ows[..i + 1][..i] == ows[..i];
      if orgs[i].syncEvents {
        var w := ows[i];
        var lists := SyncOrg(conn, orgs[i].owner, username, w.page, w.q, w.lookupOk, w.now, w.fault);
        if lists.Some? {
          dirty := dirty + Under(orgs[i].owner, lists.value);
        }
      }
    }
    assert orgs[..|orgs|] == orgs && ows[..|ows|] == ows;
  }

  /**
   * The run. A failed discovery or organisation call is passed over; what ends the run is in the
   * repositories' turns and the sweep.
   */
  method Run(conn: Connection, repos: seq<RepoConfig>, orgs: seq<OrgConfig>, ows: seq<OrgWorld>, extra: seq<RepoConfig>,
             filter: SyncFilter, full: bool, username: string, ws: seq<World>,
             upstream: Slug -> Option<seq<PrNode>>, callOk: nat -> bool, fault: Option<SweepFault>)
    returns (r: Result<set<Slug>, ()>, ghost calls: nat, ghost done: nat)
    requires |orgs| == |ows| && |ws| == |AllRepos(repos, orgs, ows, extra)|
    modifies conn
    ensures var (begun, org) := Begun(old(conn.db), orgs, ows, filter, username);
            RunEnds(begun, conn.db, AllRepos(repos, orgs, ows, extra), filter, org, full, ws, upstream, callOk, fault,
                    r, calls, done)
  {
    var owners, found := Discover(orgs, ows);
    var dirty: map<Slug, seq<int>> := map[];
    if filter.DoEvents() {
      dirty := CallOrgs(conn, orgs, ows, username);
    }
    r, calls,
        done := RunRepos(conn, repos + found + extra, filter, OrgDirty(owners, dirty), full, ws, upstream, callOk,
                         fault);
  }
}
