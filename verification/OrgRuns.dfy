/** When a run refreshes the pull request of an event that one of its organisation calls stored. */
module OrgRuns {
  import opened Wrappers
  import opened Database
  import opened Events
  import opened EventLaws
  import opened Prs
  import opened PrLaws
  import opened SyncPass
  import opened SyncRun
  import opened PassLaws
  import opened OrgLaws
  import opened RunLaws
  import opened FullRuns

  /** Everything a run starts from and meets before its sweep. */
  datatype Whole = Whole(
    start: Db, repos: seq<RepoConfig>, orgs: seq<OrgConfig>, ows: seq<OrgWorld>, extra: seq<RepoConfig>,
    filter: SyncFilter, full: bool, username: string, ws: seq<World>)
  {
    predicate Paired() {
      |orgs| == |ows| && |ws| == |AllRepos(repos, orgs, ows, extra)|
    }

    /** The tables and lists after the first j organisations' calls. */
    function Called(j: nat): (Db, map<Slug, seq<int>>)
      requires Paired() && j <= |orgs|
    {
      OrgCalls(start, orgs[..j], ows[..j], username)
    }

    /** Organisation j's call. */
    function Call(j: nat): (Db, Option<map<string, seq<int>>>)
      requires Paired() && j < |orgs|
    {
      OrgCall(Called(j).0, orgs[j], ows[j], username)
    }

    /** The repositories' turns. */
    function Turns(): Plan
      requires Paired()
    {
      var (begun, org) := Begun(start, orgs, ows, filter, username);
      Plan(begun, AllRepos(repos, orgs, ows, extra), filter, org, full, ws)
    }
  }

  function Listed(dirty: map<Slug, seq<int>>, slug: Slug): seq<int> {
    if slug in dirty then dirty[slug] else []
  }

  // ---- the calls ----------------------------------------------------------------------------------

  lemma CalledNext(x: Whole, j: nat)
    requires x.Paired() && j < |x.orgs|
    ensures x.Called(j + 1).0 == if x.orgs[j].syncEvents then x.Call(j).0 else x.Called(j).0
    ensures x.Called(j + 1).1 == if x.orgs[j].syncEvents && x.Call(j).1.Some?
                                 then x.Called(j).1 + Under(x.orgs[j].owner, x.Call(j).1.value) else x.Called(j).1
  {
    assert x.orgs[..j + 1][..j] == x.orgs[..j] && x.ows[..j + 1][..j] == x.ows[..j];
  }

  lemma CalledAll(x: Whole)
    requires x.Paired()
    ensures x.Called(|x.orgs|) == OrgCalls(x.start, x.orgs, x.ows, x.username)
  {
    assert x.orgs[..|x.orgs|] == x.orgs && x.ows[..|x.orgs|] == x.ows;
  }

  /** Every event stays as it is. */
  ghost predicate KeepsEvents(db: Db, after: Db) {
    forall k | k in db.events :: k in after.events && after.events[k] == db.events[k]
  }

  lemma {:induction false} IngestOrgKeepsEvents(db: Db, events: seq<EventNode>, ids: string -> Option<nat>,
                                                q: nat -> Queries)
    ensures KeepsEvents(db, IngestOrg(db, events, ids, q).db)
  {
    if events != [] {
      IngestOrgKeepsEvents(db, events[..|events| - 1], ids, q);
    }
  }

  lemma OrgCallKeepsEvents(db: Db, owner: string, username: string, page: Option<Page>, q: nat -> Queries,
                           lookupOk: string -> bool, now: nat, fault: Option<OrgFault>)
    ensures KeepsEvents(db, SyncOrgEvents(db, owner, username, page, q, lookupOk, now, fault).0)
  {
    if Listens(db, owner, username, page, now, fault) {
      var noted, ids, events := NotePoll(db, OrgEndpoint(owner, username), page.value, now),
          OrgIds(db, owner, lookupOk), Offered(page.value);
      StopsIff(noted, events, ids, q, fault);
      IngestOrgKeepsEvents(noted, events, ids, q);
      if Bites(noted, events, ids, fault) {
        var i := OrgLaws.At(fault.value);
        IngestOrgKeepsEvents(noted, events[..i], ids, q);
        OrgStores(noted, events[..i], ids, q, KeyOf(events[i], ids).value);
      }
    }
  }

  /** A call stores events of its own owner's known repositories only. */
  lemma StoredUnder(db: Db, owner: string, username: string, page: Option<Page>, q: nat -> Queries,
                    lookupOk: string -> bool, now: nat, fault: Option<OrgFault>, slug: Slug, key: (nat, string))
    requires Has(db, slug, key.0)
             && NewEvent(db, SyncOrgEvents(db, owner, username, page, q, lookupOk, now, fault).0, key)
    ensures Listens(db, owner, username, page, now, fault) && owner == slug.0
            && IdOf(db, owner, slug.1, lookupOk) == Some(key.0)
  {
    var noted, ids, events := NotePoll(db, OrgEndpoint(owner, username), page.value, now), OrgIds(db, owner, lookupOk),
        Offered(page.value);
    StopsIff(noted, events, ids, q, fault);
    OrgStores(noted, events, ids, q, key);
    if Bites(noted, events, ids, fault) {
      OrgStores(noted, events[..OrgLaws.At(fault.value)], ids, q, key);
    }
    assert exists ev :: KeyOf(ev, ids) == Some(key);
    var ev :| KeyOf(ev, ids) == Some(key);
    assert ids(RepoNameOf(ev).value) == Some(key.0);
    assert (owner, RepoNameOf(ev).value) == slug;
  }

  /** The calls leave repositories and pull requests alone and lose no event. */
  ghost predicate CallsKept(db: Db, after: Db) {
    after.prs == db.prs && after.repos == db.repos && after.repoSeq == db.repoSeq && KeepsEvents(db, after)
  }

  lemma {:induction false} CallsKeep(x: Whole, i: nat, j: nat)
    requires x.Paired() && i <= j <= |x.orgs|
    ensures CallsKept(x.Called(i).0, x.Called(j).0)
    decreases j - i
  {
    if i < j {
      CallsKeep(x, i, j - 1);
      CalledNext(x, j - 1);
      var org, w := x.orgs[j - 1], x.ows[j - 1];
      OrgCallKeepsRest(x.Called(j - 1).0, org.owner, x.username, w.page, w.q, w.lookupOk, w.now, w.fault);
      OrgCallKeepsEvents(x.Called(j - 1).0, org.owner, x.username, w.page, w.q, w.lookupOk, w.now, w.fault);
    }
  }

  /** Organisation j is the only one listed for its owner. */
  ghost predicate Alone(x: Whole, j: nat) {
    j < |x.orgs| && forall k | 0 <= k < |x.orgs| && k != j :: x.orgs[k].owner != x.orgs[j].owner
  }

  lemma {:induction false} ListedFrom(x: Whole, j: nat, k: nat, slug: Slug)
    requires x.Paired() && Alone(x, j) && x.orgs[j].owner == slug.0 && x.orgs[j].syncEvents && k <= |x.orgs|
    ensures Listed(x.Called(k).1, slug) ==
            if k > j && x.Call(j).1.Some? then DirtyFor(x.Call(j).1.value, slug.1) else []
  {
    if k > 0 {
      ListedFrom(x, j, k - 1, slug);
      CalledNext(x, k - 1);
    }
  }

  /** Organisation j's call stored this event, and the event names pull request n. */
  ghost predicate Stores(x: Whole, j: nat, key: (nat, string), n: int) {
    && x.Paired() && x.filter.DoEvents() && j < |x.orgs| && x.orgs[j].syncEvents
    && NewlyNames(x.Called(j).0, x.Call(j).0, key, n)
  }

  /** A refused statement cuts organisation j's call short. */
  ghost predicate CutShort(x: Whole, j: nat)
    requires x.Paired() && j < |x.orgs| && x.ows[j].page.Some?
  {
    Bites(x.Called(j).0, Offered(x.ows[j].page.value), OrgIds(x.Called(j).0, x.orgs[j].owner, x.ows[j].lookupOk),
          x.ows[j].fault)
  }

  lemma NamedIffNotCut(x: Whole, j: nat, slug: Slug, key: (nat, string), n: int)
    requires Stores(x, j, key, n) && Has(x.start, slug, key.0)
    ensures x.orgs[j].owner == slug.0 && x.ows[j].page.Some?
    ensures if CutShort(x, j) then x.Call(j).1.None? else x.Call(j).1.Some? && n in DirtyFor(x.Call(j).1.value, slug.1)
  {
    var db, org, w := x.Called(j).0, x.orgs[j], x.ows[j];
    CallsKeep(x, 0, j);
    StoredUnder(db, org.owner, x.username, w.page, w.q, w.lookupOk, w.now, w.fault, slug, key);
    OrgCallSucceedsIff(db, org.owner, x.username, w.page, w.q, w.lookupOk, w.now, w.fault);
    if !CutShort(x, j) {
      var noted := NotePoll(db, OrgEndpoint(org.owner, x.username), w.page.value, w.now);
      assert NewlyNames(noted, IngestOrg(noted, Offered(w.page.value), OrgIds(db, org.owner, w.lookupOk), w.q).db, key,
                        n);
      OrgNewEventIsDirty(db, org.owner, w.lookupOk, noted, Offered(w.page.value), w.q, slug.1, key, n);
    }
  }

  /** The run hands the event's pull request over exactly when the call that stored it was not cut short. */
  lemma HandedIffNotCut(x: Whole, j: nat, slug: Slug, key: (nat, string), n: int)
    requires Stores(x, j, key, n) && Has(x.start, slug, key.0) && Alone(x, j)
    ensures x.ows[j].page.Some? && (n in Listed(x.Turns().org.dirty, slug) <==> !CutShort(x, j))
  {
    NamedIffNotCut(x, j, slug, key, n);
    ListedFrom(x, j, |x.orgs|, slug);
    CalledAll(x);
  }

  // ---- the turns ------------------------------------------------------------------------------------

  /**
   * Repository i's turn is this repository's, selected, wants events and pull requests, is reached, and
   * goes through.
   */
  ghost predicate Fetches(r: Plan, slug: Slug, i: nat)
    requires |r.cfgs| == |r.ws|
  {
    && i < |r.cfgs| && r.cfgs[i].slug == slug && r.filter.Selects(slug)
    && WantsEvents(r.cfgs[i], r.filter) && WantsPrs(r.cfgs[i], r.filter)
    && Reached(r, i) && GoesThrough(r.cfgs[i], r.filter, r.ws[i])
  }

  /** A targeted turn with something to fetch for an organisation's repository commits exactly when it goes through. */
  lemma OrgTurnCommits(db: Db, cfg: RepoConfig, filter: SyncFilter, org: OrgDirty, w: World)
    requires cfg.slug.0 in org.owners && Asks(db, cfg, filter, org, w) != []
    ensures Pass(db, cfg, filter, org, false, w).1.Committed? <==> GoesThrough(cfg, filter, w)
  {
  }

  lemma OrgRefreshesIn(r: Plan, slug: Slug, n: int, i: nat)
    requires |r.cfgs| == |r.ws| && !r.full && slug.0 in r.org.owners
    ensures RefreshesIn(r, slug, n, i) <==> n in Listed(r.org.dirty, slug) && Fetches(r, slug, i)
  {
    if i < |r.cfgs| && r.cfgs[i].slug == slug && n in Asks(Before(r, i).db, r.cfgs[i], r.filter, r.org, r.ws[i]) {
      OrgTurnCommits(Before(r, i).db, r.cfgs[i], r.filter, r.org, r.ws[i]);
    }
  }

  /** The run's repositories and sweep end in these tables. */
  ghost predicate EndsIn(x: Whole, after: Db, upstream: Slug -> Option<seq<PrNode>>, callOk: nat -> bool,
                         fault: Option<SweepFault>, res: Result<set<Slug>, ()>, calls: nat, done: nat)
    requires x.Paired()
  {
    var r := x.Turns();
    RunEnds(r.start, after, r.cfgs, r.filter, r.org, r.full, r.ws, upstream, callOk, fault, res, calls, done)
  }

  lemma {:induction false} NoBatch(r: Plan, i: nat)
    requires i <= |r.cfgs| == |r.ws| && !r.full
    ensures Before(r, i).batch == []
  {
    if i > 0 {
      NoBatch(r, i - 1);
      TurnTaken(r, i - 1);
      if Commits(r, i - 1) {
        TurnIs(Before(r, i - 1).db, r.cfgs[i - 1], r.filter, r.org, r.full, r.ws[i - 1]);
      }
    }
  }

  /** A targeted run has nothing to sweep. */
  lemma TargetedRunEnds(r: Plan, after: Db, upstream: Slug -> Option<seq<PrNode>>, callOk: nat -> bool,
                        fault: Option<SweepFault>, res: Result<set<Slug>, ()>, calls: nat, done: nat)
    requires |r.cfgs| == |r.ws| && !r.full
    requires RunEnds(r.start, after, r.cfgs, r.filter, r.org, r.full, r.ws, upstream, callOk, fault, res, calls, done)
    ensures after == Before(r, |r.cfgs|).db
  {
    BeforeIsSteps(r, |r.cfgs|);
    assert r.cfgs[..|r.cfgs|] == r.cfgs && r.ws[..|r.ws|] == r.ws;
    NoBatch(r, |r.cfgs|);
  }

  lemma BegunKept(x: Whole)
    requires x.Paired()
    ensures CallsKept(x.start, x.Turns().start)
  {
    CalledAll(x);
    CallsKeep(x, 0, |x.orgs|);
  }

  lemma StoredStays(x: Whole, j: nat, key: (nat, string), n: int)
    requires Stores(x, j, key, n)
    ensures key in x.Turns().start.events
  {
    CalledNext(x, j);
    CalledAll(x);
    CallsKeep(x, j + 1, |x.orgs|);
  }

  /**
   * Events of organisations, over a whole targeted run with failures anywhere: discovery, calls,
   * statements, throttles and commits. An event that a call stored stays stored. Its pull request is up
   * to date at the end if and only if it was so at the start, or it is in the list that the run hands to
   * its repository and a turn of the repository fetches the list: the turn is selected, wants events and
   * pull requests, comes before any turn that ends the run, and goes through. Where the owner is the only
   * organisation of its name, it is in the list exactly when the call was not cut short. Where discovery
   * failed, the list is not looked at, and what counts is what the turns poll for themselves.
   */
  lemma OrgRunRefreshesIff(x: Whole, j: nat, slug: Slug, key: (nat, string), n: int, truth: Answers, after: Db,
                           upstream: Slug -> Option<seq<PrNode>>, callOk: nat -> bool, fault: Option<SweepFault>,
                           res: Result<set<Slug>, ()>, calls: nat, done: nat)
    requires Stores(x, j, key, n) && Has(x.start, slug, key.0) && Steady(x.Turns(), slug, truth) && !x.full
    requires EndsIn(x, after, upstream, callOk, fault, res, calls, done)
    ensures key in after.events
    ensures Refreshed(after, key.0, n, truth) <==>
            || Refreshed(x.start, key.0, n, truth)
            || if slug.0 in Owners(x.orgs, x.ows)
               then n in Listed(x.Turns().org.dirty, slug) && exists i: nat :: Fetches(x.Turns(), slug, i)
               else exists i: nat :: RefreshesIn(x.Turns(), slug, n, i)
    ensures x.ows[j].page.Some? && (Alone(x, j) ==> (n in Listed(x.Turns().org.dirty, slug) <==> !CutShort(x, j)))
  {
    var r := x.Turns();
    BegunKept(x);
    StoredStays(x, j, key, n);
    TargetedRunEnds(r, after, upstream, callOk, fault, res, calls, done);
    TurnsKeep(r, |r.cfgs|);
    TargetedRunRefreshesIff(r, slug, key.0, n, truth);
    NamedIffNotCut(x, j, slug, key, n);
    if Alone(x, j) {
      HandedIffNotCut(x, j, slug, key, n);
    }
    if slug.0 in Owners(x.orgs, x.ows) {
      forall i: nat ensures RefreshesIn(r, slug, n, i) <==> n in Listed(r.org.dirty, slug) && Fetches(r, slug, i) {
        OrgRefreshesIn(r, slug, n, i);
      }
    }
  }

  /**
   * And over a whole full run: the event stays stored, the list is not looked at, and its pull request
   * is up to date at the end exactly when the sweep of the run makes it so, or it was so at the start.
   */
  lemma FullOrgRunRefreshesIff(x: Whole, j: nat, slug: Slug, key: (nat, string), n: int, truth: Answers, after: Db,
                               s: Sweep, res: Result<set<Slug>, ()>, calls: nat, done: nat)
    requires Stores(x, j, key, n) && Has(x.start, slug, key.0) && x.full && Truthful(s.upstream(slug), truth)
    requires s.batch == Before(x.Turns(), |x.Turns().cfgs|).batch
    requires EndsIn(x, after, s.upstream, s.callOk, s.fault, res, calls, done)
    ensures key in after.events
    ensures In(s.batch, slug) <==> exists k: nat :: Joins(x.Turns(), k, slug)
    ensures Refreshed(after, key.0, n, truth) <==>
            if !Reached(x.Turns(), |x.Turns().cfgs|) then Refreshed(x.start, key.0, n, truth)
            else if CutsAt(s, slug, n)
            then CutReflects(Prior(s, Before(x.Turns(), |x.Turns().cfgs|).db, key.0, n), NodeAt(s, slug, n),
                             s.fault.value.at.stage)
            else Refreshed(x.start, key.0, n, truth) || exists b: nat :: Brings(s, b, slug, n)
  {
    var r := x.Turns();
    BegunKept(x);
    StoredStays(x, j, key, n);
    TurnsKeep(r, |r.cfgs|);
    FullRunKeepsEvents(r, s, after, res, calls, done);
    FullRunRefreshesIff(r, s, after, res, calls, done, slug, key.0, n, truth);
  }
}
