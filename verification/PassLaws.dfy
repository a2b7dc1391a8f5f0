/** An event is acknowledged together with the refresh it asks for, or not at all; and where that ends. */
module PassLaws {
  import opened Wrappers
  import opened ChangeLog
  import opened Database
  import opened Events
  import opened EventLaws
  import opened Prs
  import opened PrLaws
  import opened SyncPass

  /** The row holds what the fetched node says. */
  ghost predicate Reflects(row: PrRow, node: PrNode) {
    && row.state == StateOf(node.state) && row.title == Or(node.title, "") && row.headRef == node.headRef
    && row.headSha == node.headSha && row.updatedAt == Or(node.updatedAt, "") && row.labels == LabelsOf(node.labels)
    && row.reviewers == ReviewersOf(node.requests) && row.rest == node.rest
  }

  /** Pull request n was brought up to date: GitHub had nothing for it, or its row is what GitHub had. */
  ghost predicate Refreshed(db: Db, repoId: nat, n: int, answers: Answers) {
    answers(n).Some? ==> (repoId, n) in db.prs && Reflects(db.prs[(repoId, n)], answers(n).value)
  }

  lemma {:induction false} TargetedRefreshes(db: Db, t: Target, existing: set<int>, numbers: seq<int>, answers: Answers,
                                             n: int)
    requires Honest(answers) && n in numbers
    ensures Refreshed(TargetedAll(db, t, existing, numbers, answers), t.id, n, answers)
  {
    var init, last := numbers[..|numbers| - 1], numbers[|numbers| - 1];
    if n in init {
      TargetedRefreshes(db, t, existing, init, answers, n);
    }
  }

  lemma {:induction false} TargetedKeepsRest(db: Db, t: Target, existing: set<int>, numbers: seq<int>, answers: Answers)
    ensures var after := TargetedAll(db, t, existing, numbers, answers);
            after.events == db.events && after.eventSeq == db.eventSeq && after.polls == db.polls
            && after.repos == db.repos && after.repoSeq == db.repoSeq
  {
    if numbers != [] {
      TargetedKeepsRest(db, t, existing, numbers[..|numbers| - 1], answers);
    }
  }

  lemma {:induction false} IngestKeepsRest(db: Db, repoId: nat, slug: string, events: seq<EventNode>, q: Queries)
    ensures var after := Ingest(db, repoId, slug, events, q).db;
            after.prs == db.prs && after.prSeq == db.prSeq && after.polls == db.polls
            && after.repos == db.repos && after.repoSeq == db.repoSeq
  {
    if events != [] {
      IngestKeepsRest(db, repoId, slug, events[..|events| - 1], q);
    }
  }

  /** The stored event names pull request n itself. */
  ghost predicate Names(row: EventRow, n: int) {
    PrNumberFromEvent(row.kind, row.payload) == Some(n)
  }

  ghost predicate NewEvent(before: Db, after: Db, key: (nat, string)) {
    key !in before.events && key in after.events
  }

  /** A repository outside the configured organisations, with events and pull requests synced. */
  ghost predicate Plain(cfg: RepoConfig, filter: SyncFilter, org: OrgDirty) {
    WantsEvents(cfg, filter) && WantsPrs(cfg, filter) && cfg.slug.0 !in org.owners
  }

  lemma NewEventIsDirty(db: Db, repoId: nat, slug: string, events: seq<EventNode>, q: Queries, key: (nat, string),
                        n: int)
    requires NewlyNames(db, Ingest(db, repoId, slug, events, q).db, key, n)
    ensures key.0 == repoId && n in Ingest(db, repoId, slug, events, q).dirty
  {
    var i := First(events, key.1);
    IngestIsUnion(db, repoId, slug, events, q, key);
    DirtyComesFromNewEvents(db, repoId, slug, events, q, n);
    assert Dirties(db, repoId, events, q, n, i);
  }

  ghost predicate NewlyNames(before: Db, after: Db, key: (nat, string), n: int) {
    NewEvent(before, after, key) && Names(after.events[key], n)
  }

  /**
   * Every event that is new and names a pull request is repository id's, is in the dirty list, and its
   * poll is noted.
   */
  ghost predicate Delivered(before: Db, after: Db, id: nat, slug: Slug, dirty: seq<int>, now: nat) {
    forall key, n | NewlyNames(before, after, key, n) ::
      key.0 == id && n in dirty && PolledAt(after, slug, now)
  }

  ghost predicate PolledAt(db: Db, slug: Slug, now: nat) {
    EventsEndpoint(slug) in db.polls && db.polls[EventsEndpoint(slug)].lastPolled == now
  }

  lemma SyncEventsDelivers(db: Db, repoId: nat, slug: Slug, page: Option<Page>, q: Queries, now: nat)
    requires SyncEvents(db, repoId, slug, page, q, now).Some?
    ensures var after := SyncEvents(db, repoId, slug, page, q, now).value;
            && after.0.repos == db.repos && after.0.prs == db.prs
            && Delivered(db, after.0, repoId, slug, after.1.dirtyPrs, now)
  {
    if !TooSoon(GetPollState(db, EventsEndpoint(slug)), now) {
      var noted, events := NotePoll(db, EventsEndpoint(slug), page.value, now), Offered(page.value);
      IngestKeepsRest(noted, repoId, SlugText(slug), events, q);
      var r := Ingest(noted, repoId, SlugText(slug), events, q);
      assert noted.events == db.events;
      forall key, n | NewlyNames(db, r.db, key, n)
        ensures key.0 == repoId && n in r.dirty && PolledAt(r.db, slug, now)
      {
        NewEventIsDirty(noted, repoId, SlugText(slug), events, q, key, n);
      }
    }
  }

  /** Every new event that names a pull request came with that pull request's refresh and with its poll. */
  ghost predicate Acknowledged(before: Db, after: Db, slug: Slug, answers: Answers, now: nat) {
    forall key, n | NewlyNames(before, after, key, n) ::
      && slug in after.repos && key.0 == after.repos[slug].id
      && Refreshed(after, key.0, n, answers) && PolledAt(after, slug, now)
  }

  /**
   * Acknowledgement is atomic with the refresh. A targeted pass over a plain repository, with failures
   * at any call or statement, either leaves every table as it was, so that its events are offered
   * again, or commits each new event that names a pull request together with the fetched row of that
   * pull request (or GitHub's null) and with the poll that delivered the event.
   */
  lemma AcknowledgedWithRefresh(db: Db, cfg: RepoConfig, filter: SyncFilter, org: OrgDirty, w: World)
    requires Plain(cfg, filter, org) && Honest(w.answers)
    ensures var p := Pass(db, cfg, filter, org, false, w);
            if p.1.Committed? then Acknowledged(db, p.0, cfg.slug, w.answers, w.now) else p.0 == db
  {
    var p := Pass(db, cfg, filter, org, false, w);
    if p.1.Committed? {
      var (db0, id) := UpsertRepo(db, cfg.slug, Or(cfg.defaultBranch, "main"));
      var synced := SyncEvents(db0, id, cfg.slug, w.page, w.q, w.now).value;
      var db1, dirty := synced.0, synced.1.dirtyPrs;
      SyncEventsDelivers(db0, id, cfg.slug, w.page, w.q, w.now);
      assert p.0 == SyncTargetedSpec(db1, Target(id, cfg.slug), dirty, w.answers);
      FetchAcknowledges(db0, db1, Target(id, cfg.slug), dirty, w.answers, w.now);
      forall key, n | NewlyNames(db, p.0, key, n) ensures NewlyNames(db0, p.0, key, n) {}
    }
  }

  lemma FetchAcknowledges(before: Db, db: Db, t: Target, dirty: seq<int>, answers: Answers, now: nat)
    requires Honest(answers) && t.slug in db.repos && db.repos[t.slug].id == t.id
    requires Delivered(before, db, t.id, t.slug, dirty, now)
    ensures Acknowledged(before, SyncTargetedSpec(db, t, dirty, answers), t.slug, answers, now)
  {
    var after := SyncTargetedSpec(db, t, dirty, answers);
    TargetedKeepsRest(db, t, Stored(db, t.id), dirty, answers);
    forall key, n | NewlyNames(before, after, key, n)
      ensures key.0 == t.id && Refreshed(after, t.id, n, answers) && PolledAt(after, t.slug, now)
    {
      assert NewlyNames(before, db, key, n);
      TargetedRefreshes(db, t, Stored(db, t.id), dirty, answers, n);
    }
  }

  /** The interval in force after a page: its own, or the one before it. */
  function IntervalAfter(before: Option<PollState>, page: Page): Option<int> {
    if page.interval.Some? then page.interval else if before.Some? then before.value.interval else None
  }

  /**
   * After an answered poll the endpoint is left alone exactly until the interval in force is over:
   * its own, or, if the answer names none, the one an earlier answer named.
   */
  lemma QuietUntilInterval(db: Db, repoId: nat, slug: Slug, page: Page, q: Queries, now: nat, later: nat,
                           next: Option<Page>, q': Queries)
    requires !TooSoon(GetPollState(db, EventsEndpoint(slug)), now) && next.Some?
    ensures var db' := SyncEvents(db, repoId, slug, Some(page), q, now).value.0;
            var interval := IntervalAfter(GetPollState(db, EventsEndpoint(slug)), page);
            var again := SyncEvents(db', repoId, slug, next, q', later).value.0;
            && (interval.Some? && later - now < interval.value ==> again == db')
            && (interval.None? || later - now >= interval.value ==> PolledAt(again, slug, later))
  {
    var endpoint := EventsEndpoint(slug);
    IngestKeepsRest(NotePoll(db, endpoint, page, now), repoId, SlugText(slug), Offered(page), q);
    var db' := SyncEvents(db, repoId, slug, Some(page), q, now).value.0;
    IngestKeepsRest(NotePoll(db', endpoint, next.value, later), repoId, SlugText(slug), Offered(next.value), q');
  }

  // ---- failures stay in their repository ---------------------------------------------------------

  /** Whatever the repository, the filter and the failure: a pass that does not commit changes nothing. */
  lemma FailedPassChangesNothing(db: Db, cfg: RepoConfig, filter: SyncFilter, org: OrgDirty, full: bool, w: World)
    ensures var p := Pass(db, cfg, filter, org, full, w); p.0 == db || p.1.Committed?
  {
  }

  /** A repository whose transaction is rolled back might as well not have been there. */
  lemma {:induction false} RolledBackIsAbsent(db: Db, before: seq<RepoConfig>, cfg: RepoConfig, after: seq<RepoConfig>,
                                              filter: SyncFilter, org: OrgDirty, full: bool, ws: seq<World>, w: World,
                                              ws': seq<World>)
    requires |before| == |ws| && |after| == |ws'|
    requires Pass(Steps(db, before, filter, org, full, ws).db, cfg, filter, org, full, w).1 == RolledBack
    ensures Steps(db, before + [cfg] + after, filter, org, full, ws + [w] + ws')
            == Steps(db, before + after, filter, org, full, ws + ws')
  {
    if after == [] {
      assert before + [cfg] + after == before + [cfg] && before + after == before;
      assert ws + [w] + ws' == ws + [w] && ws + ws' == ws;
    } else {
      var n := |after| - 1;
      RolledBackIsAbsent(db, before, cfg, after[..n], filter, org, full, ws, w, ws'[..n]);
      assert before + [cfg] + after == (before + [cfg] + after[..n]) + [after[n]]
          && before + after == (before + after[..n]) + [after[n]];
      assert ws + [w] + ws' == (ws + [w] + ws'[..n]) + [ws'[n]] && ws + ws' == (ws + ws'[..n]) + [ws'[n]];
    }
  }

  // ---- runs of passes ------------------------------------------------------------------------

  datatype Turn = Turn(cfg: RepoConfig, w: World)

  ghost predicate IsRun(dbs: seq<Db>, turns: seq<Turn>, filter: SyncFilter, org: OrgDirty) {
    && |dbs| == |turns| + 1
    && forall i | 0 <= i < |turns| ::
         && Plain(turns[i].cfg, filter, org) && Honest(turns[i].w.answers)
         && dbs[i + 1] == Pass(dbs[i], turns[i].cfg, filter, org, false, turns[i].w).0
  }

  /** Turn i committed the event and, with it, the refresh of pull request n. */
  ghost predicate AcknowledgedIn(dbs: seq<Db>, turns: seq<Turn>, i: nat, key: (nat, string), n: int)
    requires |dbs| == |turns| + 1
  {
    && i < |turns| && NewEvent(dbs[i], dbs[i + 1], key)
    && Refreshed(dbs[i + 1], key.0, n, turns[i].w.answers)
  }

  lemma {:induction false} EventsStay(dbs: seq<Db>, turns: seq<Turn>, filter: SyncFilter, org: OrgDirty, i: nat,
                                      key: (nat, string))
    requires IsRun(dbs, turns, filter, org) && i < |turns| && key in dbs[i].events
    ensures key in dbs[i + 1].events && dbs[i + 1].events[key] == dbs[i].events[key]
  {
    var cfg, w := turns[i].cfg, turns[i].w;
    if Pass(dbs[i], cfg, filter, org, false, w).1.Committed? {
      var (db0, id) := UpsertRepo(dbs[i], cfg.slug, Or(cfg.defaultBranch, "main"));
      var (db1, res) := SyncEvents(db0, id, cfg.slug, w.page, w.q, w.now).value;
      TargetedKeepsRest(db1, Target(id, cfg.slug), Stored(db1, id), res.dirtyPrs, w.answers);
      if w.page.Some? {
        IngestIsUnion(NotePoll(db0, EventsEndpoint(cfg.slug), w.page.value, w.now), id, SlugText(cfg.slug),
                      Offered(w.page.value), w.q, key);
      }
    }
  }

  /**
   * Over any run of targeted passes with any failures, every event stored during the run that names a
   * pull request was committed by a turn that also refreshed that pull request.
   */
  lemma {:induction false} EveryStoredEventWasRefreshed(dbs: seq<Db>, turns: seq<Turn>, filter: SyncFilter,
                                                        org: OrgDirty, j: nat, key: (nat, string), n: int)
    requires IsRun(dbs, turns, filter, org) && j < |dbs|
    requires NewlyNames(dbs[0], dbs[j], key, n)
    ensures exists i :: 0 <= i < j && AcknowledgedIn(dbs, turns, i, key, n)
  {
    if key in dbs[j - 1].events {
      EventsStay(dbs, turns, filter, org, j - 1, key);
      EveryStoredEventWasRefreshed(dbs, turns, filter, org, j - 1, key, n);
    } else {
      AcknowledgedWithRefresh(dbs[j - 1], turns[j - 1].cfg, filter, org, turns[j - 1].w);
      assert AcknowledgedIn(dbs, turns, j - 1, key, n);
    }
  }

  // ---- where acknowledgement is not atomic -----------------------------------------------------

  /**
   * A full sweep acknowledges first and refreshes later: a committed pass stores its new events while
   * every pull request stays as it was, and what happens to them is up to the batched calls.
   */
  lemma FullPassAcknowledgesFirst(db: Db, cfg: RepoConfig, filter: SyncFilter, org: OrgDirty, w: World,
                                  key: (nat, string), n: int)
    requires Plain(cfg, filter, org)
    ensures var p := Pass(db, cfg, filter, org, true, w);
            && (p.1.Committed? && NewlyNames(db, p.0, key, n) ==> PolledAt(p.0, cfg.slug, w.now))
            && (Refreshed(p.0, key.0, n, w.answers) <==> Refreshed(db, key.0, n, w.answers))
            && (p.1.Committed? ==>
                cfg.slug in p.0.repos
                && p.1.batch == if w.idOk then Some(Target(p.0.repos[cfg.slug].id, cfg.slug)) else None)
            && (!p.1.Committed? ==> p.0 == db)
  {
    var p := Pass(db, cfg, filter, org, true, w);
    if p.1.Committed? {
      var (db0, id) := UpsertRepo(db, cfg.slug, Or(cfg.defaultBranch, "main"));
      SyncEventsDelivers(db0, id, cfg.slug, w.page, w.q, w.now);
      if NewlyNames(db, p.0, key, n) {
        assert NewlyNames(db0, p.0, key, n);
      }
    }
  }

  // ---- what the sweep then refreshes -----------------------------------------------------------

  /** The sweep's answer for a repository is true: each node is what GitHub has under its number. */
  ghost predicate TrueNodes(nodes: seq<PrNode>, truth: Answers) {
    forall i | 0 <= i < |nodes| :: nodes[i].number.Some? && truth(nodes[i].number.value) == Some(nodes[i])
  }

  /** A sweep brings a pull request up to date if and only if it is among those returned, or it was so already. */
  lemma SweepRefreshesIff(db: Db, t: Target, nodes: seq<PrNode>, truth: Answers, n: int)
    requires DistinctNumbers(nodes) && TrueNodes(nodes, truth)
    ensures Refreshed(SyncRepo(db, t, Some(nodes)).0, t.id, n, truth) <==>
            Mentions(nodes, n) || Refreshed(db, t.id, n, truth)
  {
    var after := SyncRepo(db, t, Some(nodes)).0;
    if Mentions(nodes, n) {
      var i :| 0 <= i < |nodes| && NumberOf(nodes[i]) == n;
      UpsertAllStores(db, t.id, t.slug, Stored(db, t.id), nodes, i);
      assert truth(n) == Some(nodes[i]);
    } else {
      UpsertAllElsewhere(db, t.id, t.slug, Stored(db, t.id), nodes, (t.id, n));
      assert Lookup(after, (t.id, n)) == Lookup(db, (t.id, n));
    }
  }

  function SweepAgain(db: Db, t: Target, answers: seq<seq<PrNode>>): Db {
    if answers == [] then db
    else SyncRepo(SweepAgain(db, t, answers[..|answers| - 1]), t, Some(answers[|answers| - 1])).0
  }

  /** The query asks for open pull requests only. */
  ghost predicate OpenNodes(nodes: seq<PrNode>) {
    forall i | 0 <= i < |nodes| :: StateOf(nodes[i].state) == Open
  }

  /**
   * So an event that closes a pull request is not followed up by sweeps: however many there are, each
   * returning open pull requests truly, one that GitHub has closed stays as stored.
   */
  lemma {:induction false} SweepsMissClosed(db: Db, t: Target, answers: seq<seq<PrNode>>, truth: Answers, n: int)
    requires truth(n).Some? && StateOf(truth(n).value.state) != Open
    requires forall i | 0 <= i < |answers| ::
             OpenNodes(answers[i]) && DistinctNumbers(answers[i]) && TrueNodes(answers[i], truth)
    ensures Lookup(SweepAgain(db, t, answers), (t.id, n)) == Lookup(db, (t.id, n))
    ensures Refreshed(SweepAgain(db, t, answers), t.id, n, truth) <==> Refreshed(db, t.id, n, truth)
  {
    if answers != [] {
      var init, nodes := answers[..|answers| - 1], answers[|answers| - 1];
      var mid := SweepAgain(db, t, init);
      SweepsMissClosed(db, t, init, truth, n);
      assert OpenNodes(nodes) && TrueNodes(nodes, truth);
      forall i | 0 <= i < |nodes| ensures NumberOf(nodes[i]) != n {
        assert StateOf(nodes[i].state) == Open;
      }
      UpsertAllElsewhere(mid, t.id, t.slug, Stored(mid, t.id), nodes, (t.id, n));
    }
  }

  // ---- the log of a page that names a new pull request twice -----------------------------------------

  lemma InsertInOrder(db: Db, repoId: nat, slug: string, ev: EventNode, after: Db)
    requires InOrder(db) && Fresh(db, repoId, ev)
    requires after == LogChange(StoreEvent(db, repoId, ev), RepoEvent, db.eventSeq + 1, Inserted, slug)
    ensures InOrder(after)
  {
    OtherRowInOrder(StoreEvent(db, repoId, ev), RepoEvent, db.eventSeq + 1, Inserted, slug);
  }

  lemma IngestStep(db: Db, repoId: nat, slug: string, events: seq<EventNode>, q: Queries)
    requires events != []
    ensures var mid, last := Ingest(db, repoId, slug, events[..|events| - 1], q).db, events[|events| - 1];
            var after := Ingest(db, repoId, slug, events, q).db;
            if Fresh(mid, repoId, last)
            then after == LogChange(StoreEvent(mid, repoId, last), RepoEvent, mid.eventSeq + 1, Inserted, slug)
            else after == mid
  {
  }

  lemma {:induction false} IngestInOrder(db: Db, repoId: nat, slug: string, events: seq<EventNode>, q: Queries,
                                         after: Db)
    requires InOrder(db) && after == Ingest(db, repoId, slug, events, q).db
    ensures InOrder(after)
  {
    if events != [] {
      var init, last := events[..|events| - 1], events[|events| - 1];
      var mid := Ingest(db, repoId, slug, init, q).db;
      IngestInOrder(db, repoId, slug, init, q, mid);
      IngestStep(db, repoId, slug, events, q);
      if Fresh(mid, repoId, last) {
        InsertInOrder(mid, repoId, slug, last, after);
      }
    }
  }

  lemma DirtyGrows(db: Db, repoId: nat, slug: string, events: seq<EventNode>, q: Queries, k: nat)
    requires k <= |events|
    ensures Ingest(db, repoId, slug, events[..k], q).dirty <= Ingest(db, repoId, slug, events, q).dirty
  {
    IngestConcat(db, repoId, slug, events[..k], events[k..], q);
    assert events[..k] + events[k..] == events;
  }

  ghost predicate NamesIn(events: seq<EventNode>, i: nat, n: int) {
    i < |events| && PrNumberFromEvent(Or(events[i].kind, ""), events[i].payload) == Some(n)
  }

  /** A page whose last event is new and names a pull request that an earlier new event named. */
  lemma NamedAgain(db: Db, repoId: nat, slug: string, events: seq<EventNode>, q: Queries, i: nat, n: int)
    requires i < |events| - 1 && NewAt(db, repoId, events, i) && NewAt(db, repoId, events, |events| - 1)
    requires NamesIn(events, i, n) && NamesIn(events, |events| - 1, n)
    ensures var before := Ingest(db, repoId, slug, events[..|events| - 1], q).dirty;
            n in before && Ingest(db, repoId, slug, events, q).dirty == before + [n]
  {
    FreshIsNew(db, repoId, slug, events, q);
    DirtyComesFromNewEvents(db, repoId, slug, events[..|events| - 1], q, n);
    assert Dirties(db, repoId, events[..|events| - 1], q, n, i);
  }

  /** Two new events that name the same pull request put its number into the dirty list twice. */
  lemma NamedTwice(db: Db, repoId: nat, slug: string, events: seq<EventNode>, q: Queries, i: nat, j: nat, n: int)
    requires i < j && NewAt(db, repoId, events, i) && NewAt(db, repoId, events, j)
    requires NamesIn(events, i, n) && NamesIn(events, j, n)
    ensures var before := Ingest(db, repoId, slug, events[..j], q).dirty;
            n in before && before + [n] <= Ingest(db, repoId, slug, events, q).dirty
  {
    NewAtCut(db, repoId, events, j + 1, i);
    NewAtCut(db, repoId, events, j + 1, j);
    NamedAgain(db, repoId, slug, events[..j + 1], q, i, n);
    assert events[..j + 1][..j] == events[..j];
    DirtyGrows(db, repoId, slug, events, q, j + 1);
  }

  lemma {:induction false} NewAtCut(db: Db, repoId: nat, events: seq<EventNode>, k: nat, i: nat)
    requires i < k <= |events|
    ensures NewAt(db, repoId, events[..k], i) <==> NewAt(db, repoId, events, i)
  {
    var n := |events| - 1;
    if k <= n {
      assert events[..n][..k] == events[..k];
      NewAtCut(db, repoId, events[..n], k, i);
    } else {
      assert events[..k] == events;
    }
  }

  lemma {:induction false} AnsweredGrows(a: seq<int>, b: seq<int>, answers: Answers)
    requires a <= b
    ensures NumbersOf(Answered(a, answers)) <= NumbersOf(Answered(b, answers))
  {
    if a < b {
      var init := b[..|b| - 1];
      AnsweredGrows(a, init, answers);
      assert init + [b[|b| - 1]] == b;
      if answers(b[|b| - 1]).Some? {
      } else {
        assert Answered(b, answers) == Answered(init, answers);
      }
    } else {
      assert a == b;
    }
  }

  /** Nothing stops a targeted pass over a plain repository. */
  ghost predicate Unhindered(cfg: RepoConfig, filter: SyncFilter, w: World) {
    && w.throttleOk && w.fault.None? && w.prCallOk && w.commitOk && w.page.Some?
    && (WantsBranches(cfg, filter) ==> w.branches.Some?)
  }

  /** The repository as the pass knows it, and its poll noted. */
  function Opened(db: Db, cfg: RepoConfig, w: World): (Db, nat)
    requires w.page.Some?
  {
    var (db0, id) := UpsertRepo(db, cfg.slug, Or(cfg.defaultBranch, "main"));
    (NotePoll(db0, EventsEndpoint(cfg.slug), w.page.value, w.now), id)
  }

  /** The page ingested. */
  function PageOf(db: Db, cfg: RepoConfig, w: World): Ingested
    requires w.page.Some?
  {
    Ingest(Opened(db, cfg, w).0, Opened(db, cfg, w).1, SlugText(cfg.slug), Offered(w.page.value), w.q)
  }

  /** What a plain pass does once its poll is due: the page is ingested, then its dirty list is fetched. */
  lemma PlainPassIs(db: Db, cfg: RepoConfig, filter: SyncFilter, org: OrgDirty, w: World)
    requires Plain(cfg, filter, org) && Unhindered(cfg, filter, w)
             && !TooSoon(GetPollState(db, EventsEndpoint(cfg.slug)), w.now)
    ensures var page := PageOf(db, cfg, w);
            Pass(db, cfg, filter, org, false, w).0
                == SyncTargetedSpec(page.db, Target(Opened(db, cfg, w).1, cfg.slug), page.dirty, w.answers)
  {
    var (db0, id) := UpsertRepo(db, cfg.slug, Or(cfg.defaultBranch, "main"));
    var page := PageOf(db, cfg, w);
    var b0 := Body(db0, id, false, [], false);
    var b1 := b0.(db := page.db, activity := page.inserted > 0, dirty := page.dirty);
    assert RepoStage(db, cfg, w) == Some(b0);
    assert EventsStage(b0, cfg, org, w) == Some(b1);
    var b2 := b1.(db := SyncTargetedSpec(page.db, Target(id, cfg.slug), page.dirty, w.answers));
    assert PrsStage(b1, cfg, false, w) == Some(b2);
    assert WantsBranches(cfg, filter) ==> BranchesStage(b2, w).Some? && BranchesStage(b2, w).value.db == b2.db;
  }

  lemma OpenedKeeps(db: Db, cfg: RepoConfig, w: World)
    requires w.page.Some? && InOrder(db)
    ensures var begun := Opened(db, cfg, w).0; InOrder(begun) && begun.prs == db.prs && begun.events == db.events
  {
    UpsertRepoKeepsIds(db, cfg.slug, Or(cfg.defaultBranch, "main"), cfg.slug);
    SamePrLaws(Opened(db, cfg, w).0, db);
  }

  /**
   * A page keeps each pull request's log at one "inserted" and then "updated" if and only if its dirty
   * list names no pull request twice that was not stored and that GitHub answers.
   */
  lemma PageDisciplinedIff(db: Db, cfg: RepoConfig, filter: SyncFilter, org: OrgDirty, w: World)
    requires Plain(cfg, filter, org) && Unhindered(cfg, filter, w)
             && !TooSoon(GetPollState(db, EventsEndpoint(cfg.slug)), w.now)
    requires InOrder(db) && Honest(w.answers)
    ensures Disciplined(Pass(db, cfg, filter, org, false, w).0) <==>
            NewOnlyOnce(Stored(db, Opened(db, cfg, w).1), NumbersOf(Answered(PageOf(db, cfg, w).dirty, w.answers)))
  {
    var (begun, id) := Opened(db, cfg, w);
    var page := PageOf(db, cfg, w);
    OpenedKeeps(db, cfg, w);
    IngestInOrder(begun, id, SlugText(cfg.slug), Offered(w.page.value), w.q, page.db);
    IngestKeepsRest(begun, id, SlugText(cfg.slug), Offered(w.page.value), w.q);
    PlainPassIs(db, cfg, filter, org, w);
    TargetedDisciplined(page.db, Target(id, cfg.slug), page.dirty, w.answers);
  }

  /** Events i and j of the page are new and both name pull request n. */
  ghost predicate BothName(db: Db, id: nat, events: seq<EventNode>, i: nat, j: nat, n: int) {
    i < j && NewAt(db, id, events, i) && NewAt(db, id, events, j) && NamesIn(events, i, n) && NamesIn(events, j, n)
  }

  /** The program's own counterexample: a page with two new events about one new pull request. */
  lemma TwoEventsLogTwoInserts(db: Db, cfg: RepoConfig, filter: SyncFilter, org: OrgDirty, w: World, i: nat, j: nat,
                               n: int)
    requires Plain(cfg, filter, org) && Unhindered(cfg, filter, w)
             && !TooSoon(GetPollState(db, EventsEndpoint(cfg.slug)), w.now)
    requires InOrder(db) && Honest(w.answers) && w.answers(n).Some?
    requires (Opened(db, cfg, w).1, n) !in db.prs && BothName(db, Opened(db, cfg, w).1, Offered(w.page.value), i, j, n)
    ensures !Disciplined(Pass(db, cfg, filter, org, false, w).0)
  {
    var (begun, id) := Opened(db, cfg, w);
    var events := Offered(w.page.value);
    OpenedKeeps(db, cfg, w);
    NamedTwice(begun, id, SlugText(cfg.slug), events, w.q, i, j, n);
    TwiceIsNotOnce(Stored(db, id), Ingest(begun, id, SlugText(cfg.slug), events[..j], w.q).dirty,
                   PageOf(db, cfg, w).dirty, n, w.answers);
    PageDisciplinedIff(db, cfg, filter, org, w);
  }

  lemma TwiceIsNotOnce(existing: set<int>, before: seq<int>, all: seq<int>, n: int, answers: Answers)
    requires n in before && before + [n] <= all && n !in existing && Honest(answers) && answers(n).Some?
    ensures !NewOnlyOnce(existing, NumbersOf(Answered(all, answers)))
  {
    AnsweredHas(before, n, answers);
    RepeatedIsNotOnce(existing, NumbersOf(Answered(before, answers)), n);
    AnsweredGrows(before + [n], all, answers);
  }
}
