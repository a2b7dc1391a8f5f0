/** Exactly-once ingest, and the agreement of the per-repository and per-organisation ingesters. */
module EventLaws {
  import opened Wrappers
  import opened ChangeLog
  import opened Database
  import opened Events

  // ---- the event table --------------------------------------------------------------------

  /** The index of the first event with this id, or the length if there is none. */
  function First(events: seq<EventNode>, g: string): (i: nat)
    ensures i <= |events| && (i < |events| ==> events[i].id == Some(g))
    ensures forall j | 0 <= j < i :: events[j].id != Some(g)
  {
    if events == [] then 0
    else
      var n := |events| - 1;
      var i := First(events[..n], g);
      if i < n then i else if events[n].id == Some(g) then n else n + 1
  }

  function WithoutId(r: EventRow): EventRow {
    r.(id := 0)
  }

  function EventAt(db: Db, key: (nat, string)): Option<EventRow> {
    if key in db.events then Some(db.events[key]) else None
  }

  /** Pages joined end to end are ingested as one, so any sequence of pages is covered by one list. */
  lemma {:induction false} IngestConcat(db: Db, repoId: nat, slug: string, a: seq<EventNode>, b: seq<EventNode>,
                                        q: Queries)
    ensures var first := Ingest(db, repoId, slug, a, q);
            var second := Ingest(first.db, repoId, slug, b, q);
            Ingest(db, repoId, slug, a + b, q)
            == Ingested(second.db, first.inserted + second.inserted, first.dirty + second.dirty)
  {
    if b == [] {
      assert a + b == a;
      var first := Ingest(db, repoId, slug, a, q);
      assert first.dirty + [] == first.dirty;
    } else {
      var init, last := b[..|b| - 1], b[|b| - 1];
      IngestConcat(db, repoId, slug, a, init, q);
      assert (a + b)[..|a + b| - 1] == a + init && (a + b)[|a + b| - 1] == last;
      var first := Ingest(db, repoId, slug, a, q);
      var mid := Ingest(first.db, repoId, slug, init, q);
      var one := IngestOne(mid.db, repoId, slug, last, q);
      assert first.dirty + (mid.dirty + one.dirty) == first.dirty + mid.dirty + one.dirty;
    }
  }

  /** What is stored and counted does not depend on what the queries answer. */
  lemma {:induction false} IngestIgnoresQueries(db: Db, repoId: nat, slug: string, events: seq<EventNode>, q: Queries,
                                                q': Queries)
    ensures Ingest(db, repoId, slug, events, q).db == Ingest(db, repoId, slug, events, q').db
    ensures Ingest(db, repoId, slug, events, q).inserted == Ingest(db, repoId, slug, events, q').inserted
  {
    if events != [] {
      IngestIgnoresQueries(db, repoId, slug, events[..|events| - 1], q, q');
    }
  }

  /** Two pages, each with what the queries answered at its time, store and count what one page of both would. */
  lemma PagesJoin(db: Db, repoId: nat, slug: string, a: seq<EventNode>, b: seq<EventNode>, q: Queries, q': Queries,
                  any: Queries)
    ensures var first := Ingest(db, repoId, slug, a, q);
            var second := Ingest(first.db, repoId, slug, b, q');
            var both := Ingest(db, repoId, slug, a + b, any);
            both.db == second.db && both.inserted == first.inserted + second.inserted
  {
    IngestIgnoresQueries(db, repoId, slug, a, q, any);
    IngestIgnoresQueries(Ingest(db, repoId, slug, a, q).db, repoId, slug, b, q', any);
    IngestConcat(db, repoId, slug, a, b, any);
  }

  /**
   * After any pages the table is the union by id, with the contents each id was first seen with;
   * rows already there and rows of other repositories are untouched.
   */
  lemma {:induction false} IngestIsUnion(db: Db, repoId: nat, slug: string, events: seq<EventNode>, q: Queries,
                                         key: (nat, string))
    ensures var after, i := Ingest(db, repoId, slug, events, q).db, First(events, key.1);
            && (key in db.events || key.0 != repoId ==> EventAt(after, key) == EventAt(db, key))
            && (key !in db.events && key.0 == repoId ==>
                  && (key in after.events <==> i < |events|)
                  && (i < |events| ==> WithoutId(after.events[key]) == RowOf(events[i], 0)))
  {
    if events != [] {
      IngestIsUnion(db, repoId, slug, events[..|events| - 1], q, key);
    }
  }

  /** One poll: the tables it starts from, its page, and what the queries answer while it is ingested. */
  datatype Poll = Poll(start: Db, events: seq<EventNode>, q: Queries)

  /** Between polls anything may change but the event table. */
  ghost predicate IsPaging(polls: seq<Poll>, repoId: nat, slug: string) {
    forall i | 0 <= i < |polls| - 1 ::
      polls[i + 1].start.events == Ingest(polls[i].start, repoId, slug, polls[i].events, polls[i].q).db.events
  }

  function AllEvents(polls: seq<Poll>): seq<EventNode> {
    if polls == [] then [] else AllEvents(polls[..|polls| - 1]) + polls[|polls| - 1].events
  }

  lemma {:induction false} FirstAppend(a: seq<EventNode>, b: seq<EventNode>, g: string)
    ensures First(a + b, g) == if First(a, g) < |a| then First(a, g) else |a| + First(b, g)
  {
    if b == [] {
      assert a + b == a;
    } else {
      var init, last := b[..|b| - 1], b[|b| - 1];
      FirstAppend(a, init, g);
      assert (a + b)[..|a + b| - 1] == a + init && (a + b)[|a + b| - 1] == last;
    }
  }

  /**
   * After any run of overlapping pages, with pull requests and other tables changing in between, the
   * event table is the union of the pages by id, each id with the contents it was first seen with.
   */
  lemma {:induction false} PagesAreUnion(polls: seq<Poll>, repoId: nat, slug: string, key: (nat, string))
    requires polls != [] && IsPaging(polls, repoId, slug)
    ensures var last := polls[|polls| - 1];
            var before, after := polls[0].start, Ingest(last.start, repoId, slug, last.events, last.q).db;
            var events := AllEvents(polls);
            var i := First(events, key.1);
            && (key in before.events || key.0 != repoId ==> EventAt(after, key) == EventAt(before, key))
            && (key !in before.events && key.0 == repoId ==>
                  && (key in after.events <==> i < |events|)
                  && (i < |events| ==> WithoutId(after.events[key]) == RowOf(events[i], 0)))
  {
    var n := |polls| - 1;
    var init, last := polls[..n], polls[n];
    IngestIsUnion(last.start, repoId, slug, last.events, last.q, key);
    AllEventsSplit(polls, key.1);
    if n > 0 {
      assert forall i | 0 <= i < n :: init[i] == polls[i];
      PagesAreUnion(init, repoId, slug, key);
    }
  }

  /** The first event of an id in all pages is in the earlier ones if it is there at all. */
  lemma AllEventsSplit(polls: seq<Poll>, g: string)
    requires polls != []
    ensures var a, b, all := AllEvents(polls[..|polls| - 1]), polls[|polls| - 1].events, AllEvents(polls);
            var i, j, k := First(a, g), First(b, g), First(all, g);
            && |all| == |a| + |b| && (i < |a| ==> k == i && all[k] == a[i])
            && (i == |a| && j < |b| ==> k == |a| + j && all[k] == b[j]) && (i == |a| && j == |b| ==> k == |all|)
            && (|polls| == 1 ==> a == [])
  {
    FirstAppend(AllEvents(polls[..|polls| - 1]), polls[|polls| - 1].events, g);
  }

  /** Every event logged once, as inserted, and nothing logged about ids not given out. */
  ghost predicate EventsLogged(db: Db) {
    && Valid(db)
    && (forall k | k in db.events :: EventsOf(db.log.rows, RepoEvent, db.events[k].id) == [Inserted])
    && (forall id | id > db.eventSeq :: EventsOf(db.log.rows, RepoEvent, id) == [])
  }

  lemma StoreValid(db: Db, repoId: nat, ev: EventNode)
    requires Valid(db) && Fresh(db, repoId, ev)
    ensures Valid(StoreEvent(db, repoId, ev))
  {
  }

  lemma InsertValid(db: Db, repoId: nat, slug: string, ev: EventNode)
    requires Valid(db) && Fresh(db, repoId, ev)
    ensures Valid(InsertEvent(db, repoId, slug, ev))
  {
    StoreValid(db, repoId, ev);
  }

  lemma InsertEvents(db: Db, repoId: nat, slug: string, ev: EventNode, id: int)
    requires ev.id.Some?
    ensures EventsOf(InsertEvent(db, repoId, slug, ev).log.rows, RepoEvent, id)
            == EventsOf(db.log.rows, RepoEvent, id) + if id == db.eventSeq + 1 then [Inserted] else []
  {
    EventsOfAppend(db.log, RepoEvent, db.eventSeq + 1, Inserted, Some(slug), RepoEvent, id);
  }

  lemma InsertLogged(db: Db, repoId: nat, slug: string, ev: EventNode)
    requires EventsLogged(db) && Fresh(db, repoId, ev)
    ensures EventsLogged(InsertEvent(db, repoId, slug, ev))
  {
    var db' := InsertEvent(db, repoId, slug, ev);
    InsertValid(db, repoId, slug, ev);
    forall k | k in db'.events ensures EventsOf(db'.log.rows, RepoEvent, db'.events[k].id) == [Inserted] {
      InsertEvents(db, repoId, slug, ev, db'.events[k].id);
    }
    forall id | id > db'.eventSeq ensures EventsOf(db'.log.rows, RepoEvent, id) == [] {
      InsertEvents(db, repoId, slug, ev, id);
    }
  }

  /** Exactly once: ingesting logs each new event once and counts it once, whatever the overlap. */
  lemma {:induction false} IngestLogsOnce(db: Db, repoId: nat, slug: string, events: seq<EventNode>, q: Queries)
    requires EventsLogged(db)
    ensures var r := Ingest(db, repoId, slug, events, q);
            && EventsLogged(r.db) && r.db.events.Keys >= db.events.Keys
            && r.inserted == |r.db.events| - |db.events| == |r.db.log.rows| - |db.log.rows|
            && db.log.rows <= r.db.log.rows
  {
    if events != [] {
      var before, last := Ingest(db, repoId, slug, events[..|events| - 1], q), events[|events| - 1];
      IngestLogsOnce(db, repoId, slug, events[..|events| - 1], q);
      if Fresh(before.db, repoId, last) {
        InsertLogged(before.db, repoId, slug, last);
      }
    }
  }

  /** A page whose events have all been seen changes nothing and makes nothing dirty. */
  lemma {:induction false} SeenPageIsNoOp(db: Db, repoId: nat, slug: string, events: seq<EventNode>, q: Queries)
    requires forall i | 0 <= i < |events| :: !Fresh(db, repoId, events[i])
    ensures Ingest(db, repoId, slug, events, q) == Ingested(db, 0, [])
  {
    if events != [] {
      SeenPageIsNoOp(db, repoId, slug, events[..|events| - 1], q);
    }
  }

  lemma ReingestIsNoOp(db: Db, repoId: nat, slug: string, events: seq<EventNode>, again: seq<EventNode>, q: Queries)
    requires forall ev | ev in again :: ev in events
    ensures var once := Ingest(db, repoId, slug, events, q).db;
            Ingest(once, repoId, slug, again, q) == Ingested(once, 0, [])
  {
    var once := Ingest(db, repoId, slug, events, q).db;
    forall i | 0 <= i < |again| ensures !Fresh(once, repoId, again[i]) {
      if again[i].id.Some? {
        IngestIsUnion(db, repoId, slug, events, q, (repoId, again[i].id.value));
        assert again[i] in events;
        var k :| 0 <= k < |events| && events[k] == again[i];
        assert First(events, again[i].id.value) <= k;
      }
    }
    SeenPageIsNoOp(once, repoId, slug, again, q);
  }

  // ---- dirty pull requests ------------------------------------------------------------------

  ghost predicate NewAt(db: Db, repoId: nat, events: seq<EventNode>, i: nat) {
    i < |events| && Fresh(db, repoId, events[i]) && First(events, events[i].id.value) == i
  }

  lemma NewAtInit(db: Db, repoId: nat, events: seq<EventNode>, i: nat)
    requires i < |events| - 1
    ensures NewAt(db, repoId, events, i) <==> NewAt(db, repoId, events[..|events| - 1], i)
  {
    assert events[..|events| - 1][i] == events[i];
    if Fresh(db, repoId, events[i]) {
    }
  }

  lemma FreshIsNew(db: Db, repoId: nat, slug: string, events: seq<EventNode>, q: Queries)
    requires events != []
    ensures var k := |events| - 1;
            Fresh(Ingest(db, repoId, slug, events[..k], q).db, repoId, events[k]) <==> NewAt(db, repoId, events, k)
  {
    var k := |events| - 1;
    if events[k].id.Some? {
      IngestIsUnion(db, repoId, slug, events[..k], q, (repoId, events[k].id.value));
    }
  }

  /** Event i is new and makes pull request n dirty. */
  ghost predicate Dirties(db: Db, repoId: nat, events: seq<EventNode>, q: Queries, n: int, i: nat) {
    NewAt(db, repoId, events, i) && n in DirtyOf(events[i], q)
  }

  /** The dirty list holds what the new events make dirty, each new event counted where it first occurs. */
  lemma {:induction false} DirtyComesFromNewEvents(db: Db, repoId: nat, slug: string, events: seq<EventNode>,
                                                   q: Queries, n: int)
    ensures n in Ingest(db, repoId, slug, events, q).dirty <==> exists i: nat :: Dirties(db, repoId, events, q, n, i)
  {
    if events != [] {
      var k := |events| - 1;
      var init := events[..k];
      DirtyComesFromNewEvents(db, repoId, slug, init, q, n);
      FreshIsNew(db, repoId, slug, events, q);
      if i: nat :| Dirties(db, repoId, events, q, n, i) {
        if i < k {
          NewAtInit(db, repoId, events, i);
          assert Dirties(db, repoId, init, q, n, i);
        }
      }
      if i: nat :| Dirties(db, repoId, init, q, n, i) {
        NewAtInit(db, repoId, events, i);
        assert Dirties(db, repoId, events, q, n, i);
      }
      if n in IngestOne(Ingest(db, repoId, slug, init, q).db, repoId, slug, events[k], q).dirty {
        assert Dirties(db, repoId, events, q, n, k);
      }
    }
  }

  ghost predicate OpenPr(db: Db, repoId: nat, n: int) {
    (repoId, n) in db.prs && db.prs[(repoId, n)].state == Open
  }

  /** The queries answer from the pull-request table. */
  ghost predicate Right(db: Db, repoId: nat, q: Queries) {
    && (forall b, n :: n in q.byBranch(b) <==> OpenPr(db, repoId, n) && db.prs[(repoId, n)].headRef == Some(b))
    && (forall sha :: match q.bySha(sha)
                      case Some(n) => OpenPr(db, repoId, n) && db.prs[(repoId, n)].headSha == Some(sha)
                      case None => forall n :: OpenPr(db, repoId, n) ==> db.prs[(repoId, n)].headSha != Some(sha))
  }

  /** What an event makes dirty: the pull request it names, else the open ones at its branch or commit. */
  lemma DirtyOfMeans(db: Db, repoId: nat, ev: EventNode, q: Queries)
    requires Right(db, repoId, q)
    ensures var kind, named := Or(ev.kind, ""), PrNumberFromEvent(Or(ev.kind, ""), ev.payload);
            && (named.Some? ==> DirtyOf(ev, q) == [named.value])
            && (named.None? && kind == "PushEvent" && BranchOf(ev.payload).Some? ==>
                  forall n :: n in DirtyOf(ev, q) <==>
                      OpenPr(db, repoId, n) && db.prs[(repoId, n)].headRef == BranchOf(ev.payload))
            && (named.None? && ShaFromCiEvent(kind, ev.payload).Some? ==>
                  && (forall n | n in DirtyOf(ev, q) ::
                      OpenPr(db, repoId, n) && db.prs[(repoId, n)].headSha == ShaFromCiEvent(kind, ev.payload))
                  && (DirtyOf(ev, q) == [] ==>
                      forall n | OpenPr(db, repoId, n) ::
                          db.prs[(repoId, n)].headSha != ShaFromCiEvent(kind, ev.payload))
                  && |DirtyOf(ev, q)| <= 1)
            && (named.None? && !(kind == "PushEvent" && BranchOf(ev.payload).Some?)
                && ShaFromCiEvent(kind, ev.payload).None? ==>
                  DirtyOf(ev, q) == [])
  {
  }

  // ---- one organisation call against one call per repository --------------------------------

  /** The events of an organisation page that belong to the repository of this name. */
  function Sub(events: seq<EventNode>, name: string): seq<EventNode> {
    if events == [] then []
    else
      var last := events[|events| - 1];
      Sub(events[..|events| - 1], name) + if RepoNameOf(last) == Some(name) then [last] else []
  }

  ghost predicate SameEvents(a: Db, b: Db, repoId: nat) {
    forall g :: ((repoId, g) in a.events <==> (repoId, g) in b.events)
                && ((repoId, g) in a.events ==> WithoutId(a.events[(repoId, g)]) == WithoutId(b.events[(repoId, g)]))
  }

  /** The same rows and dirty numbers for the repository, listed exactly when something is dirty. */
  ghost predicate Agree(o: OrgIngested, s: Ingested, name: string, repoId: nat) {
    SameEvents(o.db, s.db, repoId) && DirtyFor(o.dirty, name) == s.dirty && (name in o.dirty <==> s.dirty != [])
  }

  /** An event of another repository changes nothing in this one. */
  lemma OrgStepElsewhere(o: OrgIngested, s: Ingested, ev: EventNode, ids: string -> Option<nat>, q: nat -> Queries,
                         name: string, repoId: nat)
    requires (forall m | m != name :: ids(m) != Some(repoId)) && RepoNameOf(ev) != Some(name)
             && Agree(o, s, name, repoId)
    ensures Agree(IngestOrgOne(o, ev, ids, q), s, name, repoId)
  {
  }

  lemma OrgStepSame(o: OrgIngested, s: Ingested, ev: EventNode, ids: string -> Option<nat>, q: nat -> Queries,
                    name: string, repoId: nat, slug: string)
    requires ids(name) == Some(repoId) && RepoNameOf(ev) == Some(name) && Agree(o, s, name, repoId)
    ensures var one := IngestOne(s.db, repoId, slug, ev, q(repoId));
            Agree(IngestOrgOne(o, ev, ids, q), Ingested(one.db, s.inserted + one.inserted, s.dirty + one.dirty), name,
                  repoId)
  {
    assert Fresh(o.db, repoId, ev) <==> Fresh(s.db, repoId, ev);
    var one := IngestOne(s.db, repoId, slug, ev, q(repoId));
    if one.dirty == [] {
      assert s.dirty + one.dirty == s.dirty;
    }
  }

  lemma IngestSnoc(db: Db, repoId: nat, slug: string, events: seq<EventNode>, last: EventNode, q: Queries)
    ensures var s := Ingest(db, repoId, slug, events, q);
            var one := IngestOne(s.db, repoId, slug, last, q);
            Ingest(db, repoId, slug, events + [last], q)
                == Ingested(one.db, s.inserted + one.inserted, s.dirty + one.dirty)
  {
    assert (events + [last])[..|events|] == events;
  }

  /**
   * One organisation call gives each known repository the rows and the dirty pull requests, in order,
   * that ingesting its own events alone would. A repository appears in the result exactly when
   * something in it is dirty, which for a single repository is not the same as having activity.
   */
  lemma {:induction false} OrgAgreesWithRepo(db: Db, events: seq<EventNode>, ids: string -> Option<nat>,
                                             q: nat -> Queries, name: string, repoId: nat, slug: string)
    requires ids(name) == Some(repoId) && forall m | m != name :: ids(m) != Some(repoId)
    ensures Agree(IngestOrg(db, events, ids, q), Ingest(db, repoId, slug, Sub(events, name), q(repoId)), name, repoId)
  {
    if events != [] {
      var init, last := events[..|events| - 1], events[|events| - 1];
      var o, sub := IngestOrg(db, init, ids, q), Sub(init, name);
      OrgAgreesWithRepo(db, init, ids, q, name, repoId, slug);
      if RepoNameOf(last) == Some(name) {
        IngestSnoc(db, repoId, slug, sub, last, q(repoId));
        OrgStepSame(o, Ingest(db, repoId, slug, sub, q(repoId)), last, ids, q, name, repoId, slug);
      } else {
        OrgStepElsewhere(o, Ingest(db, repoId, slug, sub, q(repoId)), last, ids, q, name, repoId);
        assert sub + [] == sub;
      }
    }
  }

  /** Under one owner, different names have different repository ids. */
  lemma OrgIdsAreInjective(db: Db, owner: string, lookupOk: string -> bool, name: string, other: string)
    requires KnownIds(db) && IdOf(db, owner, name, lookupOk).Some? && name != other
    ensures IdOf(db, owner, other, lookupOk) != IdOf(db, owner, name, lookupOk)
  {
    assert (owner, name) != (owner, other);
  }
}
