/**
 * The organisation ingester on its plain connection: what it leaves behind when a statement is refused,
 * and when the pull requests of its events are brought up to date.
 */
module OrgLaws {
  import opened Wrappers
  import opened ChangeLog
  import opened Database
  import opened Events
  import opened EventLaws
  import opened Prs
  import opened PrLaws
  import opened SyncPass
  import opened PassLaws

  // ---- where the loop stops ---------------------------------------------------------------------

  /** The key under which an event of a known repository is stored. */
  function KeyOf(ev: EventNode, ids: string -> Option<nat>): Option<(nat, string)> {
    if RepoNameOf(ev).None? || ids(RepoNameOf(ev).value).None? then None
    else Some((ids(RepoNameOf(ev).value).value, ev.id.value))
  }

  ghost predicate Supplies(events: seq<EventNode>, ids: string -> Option<nat>, key: (nat, string)) {
    exists i :: 0 <= i < |events| && KeyOf(events[i], ids) == Some(key)
  }

  lemma {:induction false} OrgStores(db: Db, events: seq<EventNode>, ids: string -> Option<nat>, q: nat -> Queries,
                                     key: (nat, string))
    ensures key in IngestOrg(db, events, ids, q).db.events <==> key in db.events || Supplies(events, ids, key)
  {
    if events != [] {
      var init, last := events[..|events| - 1], events[|events| - 1];
      OrgStores(db, init, ids, q, key);
      SuppliesSnoc(init, last, ids, key);
      assert init + [last] == events;
    }
  }

  lemma SuppliesSnoc(events: seq<EventNode>, last: EventNode, ids: string -> Option<nat>, key: (nat, string))
    ensures Supplies(events + [last], ids, key) <==> Supplies(events, ids, key) || KeyOf(last, ids) == Some(key)
  {
    if i :| 0 <= i < |events| && KeyOf(events[i], ids) == Some(key) {
      assert KeyOf((events + [last])[i], ids) == Some(key);
    }
    if KeyOf(last, ids) == Some(key) {
      assert KeyOf((events + [last])[|events|], ids) == Some(key);
    }
    if i :| 0 <= i < |events + [last]| && KeyOf((events + [last])[i], ids) == Some(key) {
      assert i < |events| ==> KeyOf(events[i], ids) == Some(key);
    }
  }

  /** Event i is of a known repository, is not stored yet, and does not repeat an earlier one. */
  ghost predicate NewInOrg(db: Db, events: seq<EventNode>, ids: string -> Option<nat>, i: nat) {
    && i < |events| && KeyOf(events[i], ids).Some?
    && KeyOf(events[i], ids).value !in db.events && !Supplies(events[..i], ids, KeyOf(events[i], ids).value)
  }

  /** The refused statement is one that the loop comes to. */
  ghost predicate Bites(db: Db, events: seq<EventNode>, ids: string -> Option<nat>, fault: Option<OrgFault>) {
    match fault
    case Some(AtInsert(i)) => i < |events| && KeyOf(events[i], ids).Some?
    case Some(AfterInsert(i)) => NewInOrg(db, events, ids, i)
    case _ => false
  }

  function At(fault: OrgFault): nat {
    match fault
    case AtPoll => 0
    case AtInsert(i) => i
    case AfterInsert(i) => i
  }

  /** The tables after the events before the i-th, and after its row alone if `torn`. */
  function Prefix(db: Db, events: seq<EventNode>, ids: string -> Option<nat>, q: nat -> Queries, i: nat, torn: bool): Db
    requires i < |events| && KeyOf(events[i], ids).Some?
  {
    var before := IngestOrg(db, events[..i], ids, q).db;
    if torn then StoreEvent(before, KeyOf(events[i], ids).value.0, events[i]) else before
  }

  /**
   * The loop stops if and only if the refused statement is one that it comes to. Then the events before
   * are stored and logged, and the one it stopped at is stored and not logged, or not stored.
   */
  lemma {:induction false} StopsIff(db: Db, events: seq<EventNode>, ids: string -> Option<nat>, q: nat -> Queries,
                                    fault: Option<OrgFault>)
    ensures var stop := FaultedOrg(db, events, ids, q, fault);
            if Bites(db, events, ids, fault) then
              var i, torn := At(fault.value), fault.value.AfterInsert?;
              stop == Stopped(Prefix(db, events, ids, q, i, torn), i, torn)
            else stop == Went(IngestOrg(db, events, ids, q))
  {
    if events != [] {
      var n := |events| - 1;
      var init := events[..n];
      StopsIff(db, init, ids, q, fault);
      if fault.Some? && At(fault.value) < n {
        var i := At(fault.value);
        assert init[..i] == events[..i] && init[i] == events[i];
        assert Bites(db, init, ids, fault) <==> Bites(db, events, ids, fault);
      } else {
        assert !Bites(db, init, ids, fault);
        if KeyOf(events[n], ids).Some? {
          OrgStores(db, init, ids, q, KeyOf(events[n], ids).value);
        }
      }
    }
  }

  // ---- one log row for each event, unless torn ------------------------------------------------------

  /** Without a fault each stored event is logged once, and the log grows as the table does. */
  lemma {:induction false} OrgIngestLogsOnce(db: Db, events: seq<EventNode>, ids: string -> Option<nat>,
                                             q: nat -> Queries)
    requires EventsLogged(db)
    ensures var after := IngestOrg(db, events, ids, q).db;
            && EventsLogged(after) && after.events.Keys >= db.events.Keys
            && |after.events| - |db.events| == |after.log.rows| - |db.log.rows|
  {
    if events != [] {
      var init, last := events[..|events| - 1], events[|events| - 1];
      OrgIngestLogsOnce(db, init, ids, q);
      var mid := IngestOrg(db, init, ids, q).db;
      if KeyOf(last, ids).Some? && Fresh(mid, KeyOf(last, ids).value.0, last) {
        InsertLogged(mid, KeyOf(last, ids).value.0, last.repoName.value, last);
      }
    }
  }

  /** The row is stored and its id was never logged. */
  ghost predicate Unlogged(db: Db, key: (nat, string)) {
    key in db.events && db.events[key].id <= db.eventSeq && EventsOf(db.log.rows, RepoEvent, db.events[key].id) == []
  }

  lemma StoredIsUnlogged(db: Db, repoId: nat, ev: EventNode)
    requires EventsLogged(db) && Fresh(db, repoId, ev)
    ensures Unlogged(StoreEvent(db, repoId, ev), (repoId, ev.id.value)) && !EventsLogged(StoreEvent(db, repoId, ev))
  {
    var db', key := StoreEvent(db, repoId, ev), (repoId, ev.id.value);
    assert EventsOf(db.log.rows, RepoEvent, db.eventSeq + 1) == [];
    assert key in db'.events && EventsOf(db'.log.rows, RepoEvent, db'.events[key].id) != [Inserted];
  }

  /** The call gets as far as its page. */
  ghost predicate Listens(db: Db, owner: string, username: string, page: Option<Page>, now: nat,
                          fault: Option<OrgFault>) {
    fault != Some(AtPoll) && !TooSoon(GetPollState(db, OrgEndpoint(owner, username)), now) && page.Some?
  }

  /** The refused statement comes between a new event and its log row. */
  ghost predicate Tears(db: Db, owner: string, username: string, page: Option<Page>, lookupOk: string -> bool, now: nat,
                        fault: Option<OrgFault>) {
    && Listens(db, owner, username, page, now, fault) && fault.Some? && fault.value.AfterInsert?
    && NewInOrg(db, Offered(page.value), OrgIds(db, owner, lookupOk), fault.value.event)
  }

  lemma PrefixLoggedIff(db: Db, events: seq<EventNode>, ids: string -> Option<nat>, q: nat -> Queries,
                        fault: Option<OrgFault>)
    requires EventsLogged(db) && Bites(db, events, ids, fault)
    ensures EventsLogged(Prefix(db, events, ids, q, At(fault.value), fault.value.AfterInsert?)) <==>
            !fault.value.AfterInsert?
  {
    var i := At(fault.value);
    OrgIngestLogsOnce(db, events[..i], ids, q);
    if fault.value.AfterInsert? {
      OrgStores(db, events[..i], ids, q, KeyOf(events[i], ids).value);
      StoredIsUnlogged(IngestOrg(db, events[..i], ids, q).db, KeyOf(events[i], ids).value.0, events[i]);
    }
  }

  /**
   * Each stored event has exactly one log row after an organisation call, whatever fails, if and only
   * if no refused statement came between a new event and its log row.
   */
  lemma OrgLogsOnceIffNotTorn(db: Db, owner: string, username: string, page: Option<Page>, q: nat -> Queries,
                              lookupOk: string -> bool, now: nat, fault: Option<OrgFault>)
    requires EventsLogged(db)
    ensures EventsLogged(SyncOrgEvents(db, owner, username, page, q, lookupOk, now, fault).0)
            <==> !Tears(db, owner, username, page, lookupOk, now, fault)
  {
    if Listens(db, owner, username, page, now, fault) {
      var noted, ids := NotePoll(db, OrgEndpoint(owner, username), page.value, now), OrgIds(db, owner, lookupOk);
      var events := Offered(page.value);
      assert EventsLogged(noted);
      StopsIff(noted, events, ids, q, fault);
      if Bites(noted, events, ids, fault) {
        PrefixLoggedIff(noted, events, ids, q, fault);
      } else {
        OrgIngestLogsOnce(noted, events, ids, q);
      }
    }
  }

  // ---- a torn event is never logged -------------------------------------------------------------------

  lemma InsertLeavesUnlogged(db: Db, repoId: nat, slug: string, ev: EventNode, key: (nat, string))
    requires Unlogged(db, key) && Fresh(db, repoId, ev)
    ensures Unlogged(StoreEvent(db, repoId, ev), key) && Unlogged(InsertEvent(db, repoId, slug, ev), key)
  {
  }

  lemma {:induction false} IngestLeavesUnlogged(db: Db, repoId: nat, slug: string, events: seq<EventNode>, q: Queries,
                                                key: (nat, string))
    requires Unlogged(db, key)
    ensures Unlogged(Ingest(db, repoId, slug, events, q).db, key)
  {
    if events != [] {
      var init, last := events[..|events| - 1], events[|events| - 1];
      IngestLeavesUnlogged(db, repoId, slug, init, q, key);
      var mid := Ingest(db, repoId, slug, init, q).db;
      if Fresh(mid, repoId, last) {
        InsertLeavesUnlogged(mid, repoId, slug, last, key);
      }
    }
  }

  lemma {:induction false} OrgLeavesUnlogged(db: Db, events: seq<EventNode>, ids: string -> Option<nat>,
                                             q: nat -> Queries, key: (nat, string))
    requires Unlogged(db, key)
    ensures Unlogged(IngestOrg(db, events, ids, q).db, key)
  {
    if events != [] {
      var init, last := events[..|events| - 1], events[|events| - 1];
      OrgLeavesUnlogged(db, init, ids, q, key);
      var mid := IngestOrg(db, init, ids, q).db;
      if KeyOf(last, ids).Some? && Fresh(mid, KeyOf(last, ids).value.0, last) {
        InsertLeavesUnlogged(mid, KeyOf(last, ids).value.0, last.repoName.value, last, key);
      }
    }
  }

  /** No later call of either ingester, with any page and any fault, logs an event that was torn off its log row. */
  lemma TornIsNeverLogged(db: Db, key: (nat, string), repoId: nat, slug: Slug, owner: string, username: string,
                          page: Option<Page>, q: nat -> Queries, lookupOk: string -> bool, now: nat,
                          fault: Option<OrgFault>)
    requires Unlogged(db, key)
    ensures Unlogged(SyncOrgEvents(db, owner, username, page, q, lookupOk, now, fault).0, key)
    ensures SyncEvents(db, repoId, slug, page, q(repoId), now).Some? ==>
            Unlogged(SyncEvents(db, repoId, slug, page, q(repoId), now).value.0, key)
  {
    if page.Some? {
      IngestLeavesUnlogged(NotePoll(db, EventsEndpoint(slug), page.value, now), repoId, SlugText(slug),
                           Offered(page.value), q(repoId), key);
      if Listens(db, owner, username, page, now, fault) {
        var noted, ids, events := NotePoll(db, OrgEndpoint(owner, username), page.value, now),
            OrgIds(db, owner, lookupOk), Offered(page.value);
        StopsIff(noted, events, ids, q, fault);
        if Bites(noted, events, ids, fault) {
          PrefixLeavesUnlogged(noted, events, ids, q, fault, key);
        } else {
          OrgLeavesUnlogged(noted, events, ids, q, key);
        }
      }
    }
  }

  lemma PrefixLeavesUnlogged(db: Db, events: seq<EventNode>, ids: string -> Option<nat>, q: nat -> Queries,
                             fault: Option<OrgFault>, key: (nat, string))
    requires Unlogged(db, key) && Bites(db, events, ids, fault)
    ensures Unlogged(Prefix(db, events, ids, q, At(fault.value), fault.value.AfterInsert?), key)
  {
    var i := At(fault.value);
    var mid := IngestOrg(db, events[..i], ids, q).db;
    OrgLeavesUnlogged(db, events[..i], ids, q, key);
    if fault.value.AfterInsert? {
      OrgStores(db, events[..i], ids, q, KeyOf(events[i], ids).value);
      InsertLeavesUnlogged(mid, KeyOf(events[i], ids).value.0, "", events[i], key);
    }
  }

  // ---- acknowledgement ---------------------------------------------------------------------------------

  lemma {:induction false} IngestOrgKeepsRest(db: Db, events: seq<EventNode>, ids: string -> Option<nat>,
                                              q: nat -> Queries)
    ensures var after := IngestOrg(db, events, ids, q).db;
            after.prs == db.prs && after.repos == db.repos && after.repoSeq == db.repoSeq
  {
    if events != [] {
      IngestOrgKeepsRest(db, events[..|events| - 1], ids, q);
    }
  }

  lemma OrgCallKeepsRest(db: Db, owner: string, username: string, page: Option<Page>, q: nat -> Queries,
                         lookupOk: string -> bool, now: nat, fault: Option<OrgFault>)
    ensures var after := SyncOrgEvents(db, owner, username, page, q, lookupOk, now, fault).0;
            after.prs == db.prs && after.repos == db.repos && after.repoSeq == db.repoSeq
  {
    if Listens(db, owner, username, page, now, fault) {
      var noted, ids, events := NotePoll(db, OrgEndpoint(owner, username), page.value, now),
          OrgIds(db, owner, lookupOk), Offered(page.value);
      StopsIff(noted, events, ids, q, fault);
      if Bites(noted, events, ids, fault) {
        IngestOrgKeepsRest(noted, events[..At(fault.value)], ids, q);
      } else {
        IngestOrgKeepsRest(noted, events, ids, q);
      }
    }
  }

  /** The call answers with its dirty map exactly when it is made and no refused statement bites. */
  lemma OrgCallSucceedsIff(db: Db, owner: string, username: string, page: Option<Page>, q: nat -> Queries,
                           lookupOk: string -> bool, now: nat, fault: Option<OrgFault>)
    requires Listens(db, owner, username, page, now, fault)
    ensures var call := SyncOrgEvents(db, owner, username, page, q, lookupOk, now, fault);
            var noted := NotePoll(db, OrgEndpoint(owner, username), page.value, now);
            var all := IngestOrg(noted, Offered(page.value), OrgIds(db, owner, lookupOk), q);
            if Bites(db, Offered(page.value), OrgIds(db, owner, lookupOk), fault) then call.1.None?
            else call == (all.db, Some(all.dirty))
  {
    var noted, ids, events := NotePoll(db, OrgEndpoint(owner, username), page.value, now), OrgIds(db, owner, lookupOk),
        Offered(page.value);
    StopsIff(noted, events, ids, q, fault);
  }

  /** The dirty list names the pull requests of the new events of a known repository. */
  lemma OrgNewEventIsDirty(db: Db, owner: string, lookupOk: string -> bool, noted: Db, events: seq<EventNode>,
                           q: nat -> Queries, name: string, key: (nat, string), n: int)
    requires KnownIds(db) && IdOf(db, owner, name, lookupOk) == Some(key.0)
    requires NewlyNames(noted, IngestOrg(noted, events, OrgIds(db, owner, lookupOk), q).db, key, n)
    ensures n in DirtyFor(IngestOrg(noted, events, OrgIds(db, owner, lookupOk), q).dirty, name)
  {
    var ids := OrgIds(db, owner, lookupOk);
    forall m | m != name ensures ids(m) != Some(key.0) {
      OrgIdsAreInjective(db, owner, lookupOk, name, m);
    }
    OrgAgreesWithRepo(noted, events, ids, q, name, key.0, "");
    assert NewlyNames(noted, Ingest(noted, key.0, "", Sub(events, name), q(key.0)).db, key, n);
    NewEventIsDirty(noted, key.0, "", Sub(events, name), q(key.0), key, n);
  }

  /** Every call and statement of the repository's transaction, with pull requests to fetch, succeeds. */
  ghost predicate GoesThrough(cfg: RepoConfig, filter: SyncFilter, w: World) {
    && w.throttleOk && w.prCallOk && w.commitOk
    && w.fault != Some(AtRepo) && w.fault != Some(AtPrs)
    && (WantsBranches(cfg, filter) ==> w.fault != Some(AtBranches) && w.branches.Some?)
  }

  lemma {:induction false} SubBelongs(events: seq<EventNode>, name: string)
    ensures forall ev | ev in Sub(events, name) :: ev in events && RepoNameOf(ev) == Some(name)
  {
    if events != [] {
      SubBelongs(events[..|events| - 1], name);
    }
  }

  /** And a stored event asks for that only once: offered again, it makes nothing dirty in its repository. */
  lemma OrgEventIsNotOfferedAgain(db: Db, events: seq<EventNode>, ids: string -> Option<nat>, q: nat -> Queries,
                                  name: string, repoId: nat)
    requires ids(name) == Some(repoId) && forall m | m != name :: ids(m) != Some(repoId)
    requires forall ev | ev in events && RepoNameOf(ev) == Some(name) :: !Fresh(db, repoId, ev)
    ensures name !in IngestOrg(db, events, ids, q).dirty
  {
    SubBelongs(events, name);
    SeenPageIsNoOp(db, repoId, "", Sub(events, name), q(repoId));
    OrgAgreesWithRepo(db, events, ids, q, name, repoId, "");
  }
}
