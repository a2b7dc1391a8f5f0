/** Ingesting repository events, per repository or per organisation, and the pull requests they make dirty. */
module Events {
  import opened Wrappers
  import opened ChangeLog
  import opened Database
  import opened Text

  datatype EventNode = EventNode(
    repoName: Option<string>, id: Option<string>, kind: Option<string>, actor: Option<string>,
    payload: EventPayload, createdAt: Option<string>)

  /** The two SELECTs that find open pull requests of one repository; a failed query finds none. */
  datatype Queries = Queries(byBranch: string -> seq<int>, bySha: string -> Option<int>)

  // ---- which pull requests an event makes dirty -----------------------------------------

  function PrNumberFromEvent(kind: string, payload: EventPayload): Option<int> {
    if kind == "PullRequestEvent" then payload.number
    else if kind == "PullRequestReviewEvent" then payload.pullRequestNumber
    else None
  }

  function ShaFromCiEvent(kind: string, payload: EventPayload): Option<string> {
    if kind == "StatusEvent" then payload.sha
    else if kind == "CheckRunEvent" then payload.checkRunSha
    else if kind == "CheckSuiteEvent" then payload.checkSuiteSha
    else None
  }

  function StripPrefix(s: string, prefix: string): Option<string> {
    if prefix <= s then Some(s[|prefix|..]) else None
  }

  function BranchOf(payload: EventPayload): Option<string> {
    if payload.gitRef.Some? then StripPrefix(payload.gitRef.value, "refs/heads/") else None
  }

  function DirtyOf(ev: EventNode, q: Queries): seq<int> {
    var kind := Or(ev.kind, "");
    if PrNumberFromEvent(kind, ev.payload).Some? then [PrNumberFromEvent(kind, ev.payload).value]
    else if kind == "PushEvent" then
      if BranchOf(ev.payload).Some? then q.byBranch(BranchOf(ev.payload).value) else []
    else if ShaFromCiEvent(kind, ev.payload).Some? then
      match q.bySha(ShaFromCiEvent(kind, ev.payload).value)
      case Some(n) => [n]
      case None => []
    else []
  }

  // ---- ingest -------------------------------------------------------------------------------

  function RowOf(ev: EventNode, id: nat): EventRow {
    EventRow(id, Or(ev.kind, ""), ev.actor, ev.payload, Or(ev.createdAt, ""))
  }

  /** Whether INSERT OR IGNORE would insert the event. */
  predicate Fresh(db: Db, repoId: nat, ev: EventNode) {
    ev.id.Some? && (repoId, ev.id.value) !in db.events
  }

  /** The row alone, before the log row that reports it. */
  function StoreEvent(db: Db, repoId: nat, ev: EventNode): Db
    requires ev.id.Some?
  {
    var id := db.eventSeq + 1;
    db.(events := db.events[(repoId, ev.id.value) := RowOf(ev, id)], eventSeq := id)
  }

  function InsertEvent(db: Db, repoId: nat, slug: string, ev: EventNode): Db
    requires ev.id.Some?
  {
    LogChange(StoreEvent(db, repoId, ev), RepoEvent, db.eventSeq + 1, Inserted, slug)
  }

  datatype Ingested = Ingested(db: Db, inserted: nat, dirty: seq<int>)

  function IngestOne(db: Db, repoId: nat, slug: string, ev: EventNode, q: Queries): Ingested {
    if Fresh(db, repoId, ev) then Ingested(InsertEvent(db, repoId, slug, ev), 1, DirtyOf(ev, q))
    else Ingested(db, 0, [])
  }

  function Ingest(db: Db, repoId: nat, slug: string, events: seq<EventNode>, q: Queries): Ingested {
    if events == [] then Ingested(db, 0, [])
    else
      var before := Ingest(db, repoId, slug, events[..|events| - 1], q);
      var last := IngestOne(before.db, repoId, slug, events[|events| - 1], q);
      Ingested(last.db, before.inserted + last.inserted, before.dirty + last.dirty)
  }

  /** GitHub's answer to an events call; `events` is None when the body is not a list. */
  datatype Page = Page(notModified: bool, etag: Option<string>, lastModified: Option<string>,
                       interval: Option<int>, events: Option<seq<EventNode>>)

  datatype EventsResult = EventsResult(hadActivity: bool, dirtyPrs: seq<int>)

  predicate TooSoon(poll: Option<PollState>, now: nat) {
    poll.Some? && poll.value.interval.Some? && now - poll.value.lastPolled < poll.value.interval.value
  }

  function EventsEndpoint(slug: Slug): string {
    "/repos/" + SlugText(slug) + "/events"
  }

  /** The client notes the poll before the caller looks at the answer. */
  function NotePoll(db: Db, endpoint: string, page: Page, now: nat): Db {
    SetPollState(db, endpoint, page.etag, page.lastModified, page.interval, now)
  }

  /** The events that a page contributes. */
  function Offered(page: Page): seq<EventNode> {
    if page.notModified || page.events.None? then [] else page.events.value
  }

  /** `sync` for one repository: None is a failed call. */
  function SyncEvents(db: Db, repoId: nat, slug: Slug, page: Option<Page>, q: Queries,
                      now: nat): Option<(Db, EventsResult)> {
    var endpoint := EventsEndpoint(slug);
    if TooSoon(GetPollState(db, endpoint), now) then Some((db, EventsResult(false, [])))
    else if page.None? then None
    else
      var r := Ingest(NotePoll(db, endpoint, page.value, now), repoId, SlugText(slug), Offered(page.value), q);
      Some((r.db, EventsResult(r.inserted > 0, r.dirty)))
  }

  method Sync(conn: Connection, repoId: nat, slug: Slug, page: Option<Page>, q: Queries, now: nat)
    returns (r: Option<EventsResult>)
    modifies conn
    ensures SyncEvents(old(conn.db), repoId, slug, page, q, now) == if r.Some? then Some((conn.db, r.value)) else None
    ensures r.None? ==> conn.db == old(conn.db)
  {
    var endpoint := EventsEndpoint(slug);
    if TooSoon(GetPollState(conn.db, endpoint), now) {
      return Some(EventsResult(false, []));
    }
    if page.None? {
      return None;
    }
    conn.db := NotePoll(conn.db, endpoint, page.value, now);
    if page.value.notModified || page.value.events.None? {
      return Some(EventsResult(false, []));
    }
    var events := page.value.events.value;
    ghost var before := conn.db;
    var inserted, dirty := 0, [];
    for i := 0 to |events|
      invariant Ingested(conn.db, inserted, dirty) == Ingest(before, repoId, SlugText(slug), events[..i], q)
    {
      var ev := events[i];
      assert events[..i + 1][..i] == events[..i];
      if ev.id.None? {
        continue;
      }
      if (repoId, ev.id.value) !in conn.db.events {
        conn.db := InsertEvent(conn.db, repoId, SlugText(slug), ev);
        dirty := dirty + DirtyOf(ev, q);
        inserted := inserted + 1;
      }
    }
    assert events[..|events|] == events;
    r := Some(EventsResult(inserted > 0, dirty));
  }

  // ---- a whole organisation ---------------------------------------------------------------------

  /** The part of a slug after its first slash; the owner before it is not looked at. */
  function NameIn(slug: string): Option<string> {
    var i := Find(slug, '/');
    if i < |slug| then Some(slug[i + 1..]) else None
  }

  /** The name of the repository an event belongs to, if the event is usable. */
  function RepoNameOf(ev: EventNode): Option<string> {
    if ev.repoName.None? || ev.id.None? then None else NameIn(ev.repoName.value)
  }

  /** The repository id found for a name; a failed lookup counts as unknown. */
  function IdOf(db: Db, owner: string, name: string, lookupOk: string -> bool): Option<nat> {
    if lookupOk(name) && (owner, name) in db.repos then Some(db.repos[(owner, name)].id) else None
  }

  datatype OrgIngested = OrgIngested(db: Db, dirty: map<string, seq<int>>)

  function DirtyFor(dirty: map<string, seq<int>>, name: string): seq<int> {
    if name in dirty then dirty[name] else []
  }

  function IngestOrgOne(o: OrgIngested, ev: EventNode, ids: string -> Option<nat>, q: nat -> Queries): OrgIngested {
    if RepoNameOf(ev).None? then o
    else
      var name := RepoNameOf(ev).value;
      match ids(name)
      case None => o
      case Some(repoId) =>
        var one := IngestOne(o.db, repoId, ev.repoName.value, ev, q(repoId));
        OrgIngested(one.db, if one.dirty == [] then o.dirty else o.dirty[name := DirtyFor(o.dirty, name) + one.dirty])
  }

  function IngestOrg(db: Db, events: seq<EventNode>, ids: string -> Option<nat>, q: nat -> Queries): OrgIngested {
    if events == [] then OrgIngested(db, map[])
    else IngestOrgOne(IngestOrg(db, events[..|events| - 1], ids, q), events[|events| - 1], ids, q)
  }

  function OrgEndpoint(owner: string, username: string): string {
    "/users/" + username + "/events/orgs/" + owner
  }

  /**
   * A statement that SQLite refuses: reading the poll state, inserting the event of this index, or one
   * of the two statements after the insert, which read the row's id and log it. The connection is not
   * a transaction: what came before stays.
   */
  datatype OrgFault = AtPoll | AtInsert(event: nat) | AfterInsert(event: nat)

  /** How far the loop got: to its end, or up to an event whose row, if `torn`, is stored and not logged. */
  datatype OrgStop = Went(o: OrgIngested) | Stopped(db: Db, at: nat, torn: bool)

  function FaultedOne(o: OrgIngested, ev: EventNode, i: nat, ids: string -> Option<nat>, q: nat -> Queries,
                      fault: Option<OrgFault>): OrgStop {
    if RepoNameOf(ev).None? || ids(RepoNameOf(ev).value).None? then Went(o)
    else
      var repoId := ids(RepoNameOf(ev).value).value;
      if fault == Some(AtInsert(i)) then Stopped(o.db, i, false)
      else if fault == Some(AfterInsert(i)) && Fresh(o.db, repoId, ev)
          then Stopped(StoreEvent(o.db, repoId, ev), i, true)
      else Went(IngestOrgOne(o, ev, ids, q))
  }

  function FaultedOrg(db: Db, events: seq<EventNode>, ids: string -> Option<nat>, q: nat -> Queries,
                      fault: Option<OrgFault>): OrgStop {
    if events == [] then Went(OrgIngested(db, map[]))
    else
      var i := |events| - 1;
      match FaultedOrg(db, events[..i], ids, q, fault)
      case Stopped(db', at, torn) => Stopped(db', at, torn)
      case Went(o) => FaultedOne(o, events[i], i, ids, q, fault)
  }

  lemma {:induction false} StoppedStays(db: Db, events: seq<EventNode>, ids: string -> Option<nat>, q: nat -> Queries,
                                        fault: Option<OrgFault>, i: nat)
    requires i <= |events| && FaultedOrg(db, events[..i], ids, q, fault).Stopped?
    ensures FaultedOrg(db, events, ids, q, fault) == FaultedOrg(db, events[..i], ids, q, fault)
  {
    var n := |events| - 1;
    if i <= n {
      assert events[..n][..i] == events[..i];
      StoppedStays(db, events[..n], ids, q, fault, i);
    } else {
      assert events[..i] == events;
    }
  }

  function OrgIds(db: Db, owner: string, lookupOk: string -> bool): string -> Option<nat> {
    name => IdOf(db, owner, name, lookupOk)
  }

  /** `sync_org`: the tables afterwards and the dirty map, or None for an error, which drops the map. */
  function SyncOrgEvents(db: Db, owner: string, username: string, page: Option<Page>, q: nat -> Queries,
                         lookupOk: string -> bool, now: nat,
                         fault: Option<OrgFault>): (Db, Option<map<string, seq<int>>>)
  {
    var endpoint := OrgEndpoint(owner, username);
    if fault == Some(AtPoll) then (db, None)
    else if TooSoon(GetPollState(db, endpoint), now) then (db, Some(map[]))
    else if page.None? then (db, None)
    else
      match FaultedOrg(NotePoll(db, endpoint, page.value, now), Offered(page.value), OrgIds(db, owner, lookupOk), q,
                       fault)
      case Went(o) => (o.db, Some(o.dirty))
      case Stopped(db', _, _) => (db', None)
  }

  method SyncOrg(conn: Connection, owner: string, username: string, page: Option<Page>, q: nat -> Queries,
                 lookupOk: string -> bool, now: nat, fault: Option<OrgFault>) returns (r: Option<map<string, seq<int>>>)
    modifies conn
    ensures (conn.db, r) == SyncOrgEvents(old(conn.db), owner, username, page, q, lookupOk, now, fault)
  {
    var endpoint := OrgEndpoint(owner, username);
    if fault == Some(AtPoll) {
      return None;
    }
    if TooSoon(GetPollState(conn.db, endpoint), now) {
      return Some(map[]);
    }
    if page.None? {
      return None;
    }
    ghost var ids := OrgIds(conn.db, owner, lookupOk);
    conn.db := NotePoll(conn.db, endpoint, page.value, now);
    if page.value.notModified || page.value.events.None? {
      return Some(map[]);
    }
    var dirty, ok := SyncOrgLoop(conn, owner, page.value.events.value, q, lookupOk, fault, ids);
    r := if ok then Some(dirty) else None;
  }

  method SyncOrgLoop(conn: Connection, owner: string, events: seq<EventNode>, q: nat -> Queries,
                     lookupOk: string -> bool, fault: Option<OrgFault>, ghost ids: string -> Option<nat>)
    returns (dirty: map<string, seq<int>>, ok: bool)
    requires forall name :: ids(name) == IdOf(conn.db, owner, name, lookupOk)
    modifies conn
    ensures ok ==> FaultedOrg(old(conn.db), events, ids, q, fault) == Went(OrgIngested(conn.db, dirty))
    ensures !ok ==>
            FaultedOrg(old(conn.db), events, ids, q, fault).Stopped?
                && FaultedOrg(old(conn.db), events, ids, q, fault).db == conn.db
  {
    ghost var before := conn.db;
    dirty, ok := map[], true;
    var cache: map<string, Option<nat>> := map[];
    for i := 0 to |events|
      invariant FaultedOrg(before, events[..i], ids, q, fault) == Went(OrgIngested(conn.db, dirty))
      invariant conn.db.repos == before.repos
      invariant forall name | name in cache :: cache[name] == ids(name)
    {
      var ev := events[i];
      assert events[..i + 1][..i] == events[..i];
      if ev.repoName.None? || NameIn(ev.repoName.value).None? || ev.id.None? {
        continue;
      }
      var name := NameIn(ev.repoName.value).value;
      if name !in cache {
        cache := cache[name := IdOf(conn.db, owner, name, lookupOk)];
      }
      if cache[name].Some? {
        dirty, ok := OrgEvent(conn, cache[name].value, name, ev, i, q, fault, dirty, ids);
        if !ok {
          StoppedStays(before, events, ids, q, fault, i + 1);
          return;
        }
      }
    }
    assert events[..|events|] == events;
  }

  /** One usable event of a known repository: insert it, log it, and note what it makes dirty. */
  method OrgEvent(conn: Connection, repoId: nat, name: string, ev: EventNode, i: nat, q: nat -> Queries,
                  fault: Option<OrgFault>, dirty: map<string, seq<int>>, ghost ids: string -> Option<nat>)
    returns (dirty': map<string, seq<int>>, ok: bool)
    requires RepoNameOf(ev) == Some(name) && ids(name) == Some(repoId)
    modifies conn
    ensures FaultedOne(OrgIngested(old(conn.db), dirty), ev, i, ids, q, fault).Went? <==> ok
    ensures ok ==>
            FaultedOne(OrgIngested(old(conn.db), dirty), ev, i, ids, q, fault) == Went(OrgIngested(conn.db, dirty'))
    ensures !ok ==> FaultedOne(OrgIngested(old(conn.db), dirty), ev, i, ids, q, fault).db == conn.db
    ensures conn.db.repos == old(conn.db).repos
  {
    dirty', ok := dirty, true;
    if fault == Some(AtInsert(i)) {
      return dirty, false;
    }
    if (repoId, ev.id.value) in conn.db.events {
      return;
    }
    conn.db := StoreEvent(conn.db, repoId, ev);
    if fault == Some(AfterInsert(i)) {
      return dirty, false;
    }
    conn.db := LogChange(conn.db, RepoEvent, conn.db.eventSeq, Inserted, ev.repoName.value);
    var more := DirtyOf(ev, q(repoId));
    if more != [] {
      dirty' := dirty[name := DirtyFor(dirty, name) + more];
    }
  }
}
