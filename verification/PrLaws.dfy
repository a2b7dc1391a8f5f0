/** What the pull-request sweeps guarantee: their changed set, what they store, and what they log. */
module PrLaws {
  import opened Wrappers
  import opened ChangeLog
  import opened Database
  import opened Prs

  ghost predicate DistinctNumbers(nodes: seq<PrNode>) {
    forall i, j | 0 <= i < j < |nodes| :: NumberOf(nodes[i]) != NumberOf(nodes[j])
  }

  ghost predicate Mentions(nodes: seq<PrNode>, number: int) {
    exists i :: 0 <= i < |nodes| && NumberOf(nodes[i]) == number
  }

  // ---- the tables ------------------------------------------------------------------------

  lemma {:induction false} UpsertAllElsewhere(db: Db, repoId: nat, slug: Slug, existing: set<int>, nodes: seq<PrNode>,
                                              key: (nat, int))
    requires key.0 != repoId || !Mentions(nodes, key.1)
    ensures Lookup(UpsertAll(db, repoId, slug, existing, nodes), key) == Lookup(db, key)
  {
    if nodes != [] {
      var init := nodes[..|nodes| - 1];
      if key.0 == repoId {
        assert NumberOf(nodes[|nodes| - 1]) != key.1;
        assert forall i | 0 <= i < |init| :: init[i] == nodes[i];
      }
      UpsertAllElsewhere(db, repoId, slug, existing, init, key);
    }
  }

  /** Each returned number ends up with the row its node describes, over the row stored before. */
  lemma {:induction false} UpsertAllStores(db: Db, repoId: nat, slug: Slug, existing: set<int>, nodes: seq<PrNode>,
                                           i: nat)
    requires DistinctNumbers(nodes) && i < |nodes|
    ensures var key := (repoId, NumberOf(nodes[i]));
            var after := UpsertAll(db, repoId, slug, existing, nodes);
            && key in after.prs
            && after.prs[key] == RowFor(nodes[i], Lookup(db, key), after.prs[key].id)
            && (key in db.prs ==> after.prs[key].id == db.prs[key].id)
  {
    var init, last := nodes[..|nodes| - 1], nodes[|nodes| - 1];
    if i < |init| {
      UpsertAllStores(db, repoId, slug, existing, init, i);
    } else {
      UpsertAllElsewhere(db, repoId, slug, existing, init, (repoId, NumberOf(last)));
    }
  }

  lemma {:induction false} NodesChangeIff(db: Db, repoId: nat, slug: Slug, existing: set<int>, nodes: seq<PrNode>)
    requires DistinctNumbers(nodes)
    ensures NodesChange(db, repoId, slug, existing, nodes) <==>
            exists i :: 0 <= i < |nodes| && DiffersFromStored(db, repoId, existing, nodes[i])
  {
    if nodes != [] {
      var init, last := nodes[..|nodes| - 1], nodes[|nodes| - 1];
      NodesChangeIff(db, repoId, slug, existing, init);
      UpsertAllElsewhere(db, repoId, slug, existing, init, (repoId, NumberOf(last)));
      assert UpdatedAt(UpsertAll(db, repoId, slug, existing, init), repoId, NumberOf(last))
          == UpdatedAt(db, repoId, NumberOf(last));
      assert forall i | 0 <= i < |init| :: init[i] == nodes[i];
      if i :| 0 <= i < |init| && DiffersFromStored(db, repoId, existing, init[i]) {
        assert DiffersFromStored(db, repoId, existing, nodes[i]);
      }
    }
  }

  ghost predicate DiffersFromStored(db: Db, repoId: nat, existing: set<int>, node: PrNode) {
    NumberOf(node) !in existing || UpdatedAt(db, repoId, NumberOf(node)) != node.updatedAt
  }

  function LastContext(nodes: seq<StatusNode>, context: string): (r: Option<nat>)
    ensures r.Some? ==> r.value < |nodes| && ContextOf(nodes[r.value]) == Some(context)
                        && forall j | r.value < j < |nodes| :: ContextOf(nodes[j]) != Some(context)
    ensures r.None? ==> forall j | 0 <= j < |nodes| :: ContextOf(nodes[j]) != Some(context)
  {
    if nodes == [] then None
    else
      var n := |nodes| - 1;
      if ContextOf(nodes[n]) == Some(context) then Some(n) else LastContext(nodes[..n], context)
  }

  /** A check has the status that the last context of its name gave, and one no longer mentioned stays. */
  lemma {:induction false} ChecksAccumulate(prior: map<string, Check>, nodes: seq<StatusNode>, context: string)
    ensures var after, last := AddChecks(prior, nodes), LastContext(nodes, context);
            && (context in after <==> context in prior || last.Some?)
            && (context in after ==>
                after[context] == if last.Some? then CheckOf(nodes[last.value]) else prior[context])
  {
    if nodes != [] {
      ChecksAccumulate(prior, nodes[..|nodes| - 1], context);
    }
  }

  /** The requested reviewers are those that the last fetch names. */
  lemma {:induction false} ReviewersAreNamed(requests: seq<Option<string>>, name: string)
    ensures name in ReviewersOf(requests) <==> Some(name) in requests
  {
    if requests != [] {
      ReviewersAreNamed(requests[..|requests| - 1], name);
    }
  }

  /**
   * A repository counts as changed exactly when some returned number is new to the table, some
   * returned date differs from the stored one, or a stored number was not returned.
   */
  lemma ChangedExactly(db: Db, t: Target, nodes: seq<PrNode>)
    requires DistinctNumbers(nodes)
    ensures SyncRepo(db, t, Some(nodes)).1 <==>
            ((exists i :: 0 <= i < |nodes| && (t.id, NumberOf(nodes[i])) !in db.prs)
             || (exists i :: 0 <= i < |nodes| && (t.id, NumberOf(nodes[i])) in db.prs
                             && Some(db.prs[(t.id, NumberOf(nodes[i]))].updatedAt) != nodes[i].updatedAt)
             || (exists n :: (t.id, n) in db.prs && !Returned(nodes, n)))
  {
    var existing := Stored(db, t.id);
    NodesChangeIff(db, t.id, t.slug, existing, nodes);
    assert forall n :: n in existing <==> (t.id, n) in db.prs;
    if i :| 0 <= i < |nodes| && DiffersFromStored(db, t.id, existing, nodes[i]) {
      assert (t.id, NumberOf(nodes[i])) !in db.prs
             || Some(db.prs[(t.id, NumberOf(nodes[i]))].updatedAt) != nodes[i].updatedAt;
    }
    if i :| 0 <= i < |nodes| && ((t.id, NumberOf(nodes[i])) in db.prs
                             && Some(db.prs[(t.id, NumberOf(nodes[i]))].updatedAt) != nodes[i].updatedAt) {
      assert DiffersFromStored(db, t.id, existing, nodes[i]);
    }
    if i :| 0 <= i < |nodes| && (t.id, NumberOf(nodes[i])) !in db.prs {
      assert DiffersFromStored(db, t.id, existing, nodes[i]);
    }
  }

  /** The first label of this name. */
  function FirstLabel(labels: seq<Label>, name: string): (r: Option<nat>)
    ensures r.Some? ==>
            r.value < |labels| && labels[r.value].name == Some(name)
                && forall j | 0 <= j < r.value :: labels[j].name != Some(name)
    ensures r.None? ==> forall j | 0 <= j < |labels| :: labels[j].name != Some(name)
  {
    if labels == [] then None
    else
      var n := |labels| - 1;
      var before := FirstLabel(labels[..n], name);
      if before.Some? then before else if labels[n].name == Some(name) then Some(n) else None
  }

  /** The stored labels are the named ones, each with the colour it was first given. */
  lemma {:induction false} LabelsAreFirst(labels: seq<Label>, name: string)
    ensures var first := FirstLabel(labels, name);
            (name in LabelsOf(labels) <==> first.Some?)
                && (first.Some? ==> LabelsOf(labels)[name] == labels[first.value].color)
  {
    if labels != [] {
      LabelsAreFirst(labels[..|labels| - 1], name);
    }
  }

  function FirstReview(nodes: seq<ReviewNode>, id: int): (r: Option<nat>)
    ensures r.Some? ==>
            r.value < |nodes| && nodes[r.value].ghId == id && forall j | 0 <= j < r.value :: nodes[j].ghId != id
    ensures r.None? ==> forall j | 0 <= j < |nodes| :: nodes[j].ghId != id
  {
    if nodes == [] then None
    else
      var n := |nodes| - 1;
      var before := FirstReview(nodes[..n], id);
      if before.Some? then before else if nodes[n].ghId == id then Some(n) else None
  }

  function LastReview(nodes: seq<ReviewNode>, id: int): (r: Option<nat>)
    ensures r.Some? ==>
            r.value < |nodes| && nodes[r.value].ghId == id && forall j | r.value < j < |nodes| :: nodes[j].ghId != id
    ensures r.None? ==> forall j | 0 <= j < |nodes| :: nodes[j].ghId != id
  {
    if nodes == [] then None
    else
      var n := |nodes| - 1;
      if nodes[n].ghId == id then Some(n) else LastReview(nodes[..n], id)
  }

  /** A review has the state it was last given, and the author it first came with. */
  lemma {:induction false} ReviewsAccumulate(prior: map<int, Review>, nodes: seq<ReviewNode>, id: int)
    ensures var after, first, last := AddReviews(prior, nodes), FirstReview(nodes, id), LastReview(nodes, id);
            && (id in after <==> id in prior || last.Some?) && (first.Some? <==> last.Some?)
            && (id in after ==>
                  && after[id].state == (if last.Some? then nodes[last.value].state else prior[id].state)
                  && after[id].author == (if id in prior then prior[id].author else nodes[first.value].author))
  {
    if nodes != [] {
      ReviewsAccumulate(prior, nodes[..|nodes| - 1], id);
    }
  }

  // ---- the log -----------------------------------------------------------------------------

  /** One "inserted", then only "updated". */
  ghost predicate WellLogged(events: seq<ChangeEvent>) {
    events != [] && events[0] == Inserted && forall i | 0 < i < |events| :: events[i] == ChangeEvent.Updated
  }

  ghost predicate Disciplined(db: Db) {
    forall k | k in db.prs :: WellLogged(EventsOf(db.log.rows, PullRequest, db.prs[k].id))
  }

  /** Nothing is logged about an id before it is given out, and every stored row has been logged. */
  ghost predicate LogCovers(db: Db) {
    && Valid(db)
    && (forall id | id > db.prSeq :: EventsOf(db.log.rows, PullRequest, id) == [])
    && (forall k | k in db.prs :: EventsOf(db.log.rows, PullRequest, db.prs[k].id) != [])
  }

  lemma UpsertTables(db: Db, repoId: nat, slug: Slug, node: PrNode, isNew: bool)
    requires Valid(db)
    ensures var db', key := UpsertPr(db, repoId, slug, node, isNew), (repoId, NumberOf(node));
            && Valid(db') && db'.prs.Keys == db.prs.Keys + {key} && db'.prSeq >= db.prSeq
            && (forall k | k in db.prs :: db'.prs[k].id == db.prs[k].id)
            && (key !in db.prs ==> db'.prs[key].id == db'.prSeq > db.prSeq)
  {
    var key := (repoId, NumberOf(node));
    StoreTables(db, key, RowFor(node, Lookup(db, key), db.prSeq + 1));
  }

  lemma StoreTables(db: Db, key: (nat, int), row: PrRow)
    requires Valid(db) && row.id == if key in db.prs then db.prs[key].id else db.prSeq + 1
    ensures var db' := StoreRow(db, key, row);
            && Valid(db') && db'.prs.Keys == db.prs.Keys + {key} && db'.prSeq >= db.prSeq
            && (forall k | k in db.prs :: db'.prs[k].id == db.prs[k].id)
            && (key !in db.prs ==> db'.prs[key].id == db'.prSeq > db.prSeq)
  {
  }

  lemma UpsertLogs(db: Db, repoId: nat, slug: Slug, node: PrNode, isNew: bool)
    requires LogCovers(db)
    ensures var db', key := UpsertPr(db, repoId, slug, node, isNew), (repoId, NumberOf(node));
            && LogCovers(db') && db'.prs.Keys == db.prs.Keys + {key}
            && (forall k | k in db.prs :: db'.prs[k].id == db.prs[k].id)
            && (forall k | k in db.prs && k != key ::
                EventsOf(db'.log.rows, PullRequest, db'.prs[k].id) == EventsOf(db.log.rows, PullRequest, db.prs[k].id))
            && EventsOf(db'.log.rows, PullRequest, db'.prs[key].id)
               == (if key in db.prs then EventsOf(db.log.rows, PullRequest, db.prs[key].id) else [])
                  + [if isNew then Inserted else ChangeEvent.Updated]
  {
    var db', key := UpsertPr(db, repoId, slug, node, isNew), (repoId, NumberOf(node));
    UpsertTables(db, repoId, slug, node, isNew);
    forall k | k in db'.prs
      ensures EventsOf(db'.log.rows, PullRequest, db'.prs[k].id) ==
              (if k in db.prs then EventsOf(db.log.rows, PullRequest, db.prs[k].id) else [])
              + if k == key then [if isNew then Inserted else ChangeEvent.Updated] else []
    {
    }
  }

  lemma WellLoggedSnoc(before: seq<ChangeEvent>, e: ChangeEvent)
    ensures WellLogged(before + [e]) <==>
            if before == [] then e == Inserted else WellLogged(before) && e == ChangeEvent.Updated
  {
    var events := before + [e];
    if WellLogged(events) {
      assert events[|before|] == e;
      assert forall i | 0 <= i < |before| :: before[i] == events[i];
    }
  }

  function EventsAt(db: Db, key: (nat, int)): seq<ChangeEvent> {
    if key in db.prs then EventsOf(db.log.rows, PullRequest, db.prs[key].id) else []
  }

  lemma UpsertEventsAt(db: Db, repoId: nat, slug: Slug, node: PrNode, isNew: bool, k: (nat, int))
    requires LogCovers(db) && (k in db.prs || k == (repoId, NumberOf(node)))
    ensures EventsAt(UpsertPr(db, repoId, slug, node, isNew), k) ==
            EventsAt(db, k)
            + if k == (repoId, NumberOf(node)) then [if isNew then Inserted else ChangeEvent.Updated] else []
  {
    UpsertLogs(db, repoId, slug, node, isNew);
    assert EventsAt(db, k) + [] == EventsAt(db, k);
  }

  /** One upsert keeps the log in order exactly when it is told the truth about the row being new. */
  lemma UpsertDisciplined(db: Db, repoId: nat, slug: Slug, node: PrNode, isNew: bool)
    requires LogCovers(db)
    ensures LogCovers(UpsertPr(db, repoId, slug, node, isNew))
    ensures Disciplined(UpsertPr(db, repoId, slug, node, isNew)) <==>
            Disciplined(db) && (isNew <==> (repoId, NumberOf(node)) !in db.prs)
  {
    var db', key := UpsertPr(db, repoId, slug, node, isNew), (repoId, NumberOf(node));
    UpsertLogs(db, repoId, slug, node, isNew);
    forall k | k in db'.prs
      ensures WellLogged(EventsAt(db', k)) <==>
              if k == key then (isNew <==> key !in db.prs) && (key in db.prs ==> WellLogged(EventsAt(db, k)))
              else WellLogged(EventsAt(db, k))
    {
      UpsertEventsAt(db, repoId, slug, node, isNew, k);
      WellLoggedSnoc(EventsAt(db, key), if isNew then Inserted else ChangeEvent.Updated);
      assert EventsAt(db, k) + [] == EventsAt(db, k);
    }
    assert Disciplined(db) <==> forall k | k in db.prs :: WellLogged(EventsAt(db, k));
    assert Disciplined(db') <==> forall k | k in db'.prs :: WellLogged(EventsAt(db', k));
    if Disciplined(db') {
      assert key in db'.prs && WellLogged(EventsAt(db', key));
      assert forall k | k in db.prs :: k in db'.prs && WellLogged(EventsAt(db', k));
    }
  }

  /** Nodes that share a number may do so only if it was stored before the call. */
  ghost predicate NewOnlyOnce(existing: set<int>, numbers: seq<int>) {
    forall i, j | 0 <= i < j < |numbers| && numbers[i] == numbers[j] :: numbers[i] in existing
  }

  function NumbersOf(nodes: seq<PrNode>): (ns: seq<int>)
    ensures |ns| == |nodes|
  {
    if nodes == [] then [] else NumbersOf(nodes[..|nodes| - 1]) + [NumberOf(nodes[|nodes| - 1])]
  }

  lemma NewOnlyOnceSnoc(existing: set<int>, numbers: seq<int>)
    requires numbers != []
    ensures NewOnlyOnce(existing, numbers) <==>
            NewOnlyOnce(existing, numbers[..|numbers| - 1])
            && (numbers[|numbers| - 1] in numbers[..|numbers| - 1] ==> numbers[|numbers| - 1] in existing)
  {
    var n := |numbers| - 1;
    var init := numbers[..n];
    if numbers[n] in init && NewOnlyOnce(existing, numbers) {
      var i :| 0 <= i < n && init[i] == numbers[n];
      assert numbers[i] == numbers[n];
    }
  }

  lemma {:induction false} UpsertAllDisciplined(db: Db, repoId: nat, slug: Slug, nodes: seq<PrNode>)
    requires LogCovers(db)
    ensures var after := UpsertAll(db, repoId, slug, Stored(db, repoId), nodes);
            && LogCovers(after)
            && (forall n :: (repoId, n) in after.prs <==> n in Stored(db, repoId) || n in NumbersOf(nodes))
            && (Disciplined(after) <==> Disciplined(db) && NewOnlyOnce(Stored(db, repoId), NumbersOf(nodes)))
  {
    var existing := Stored(db, repoId);
    if nodes != [] {
      var k := |nodes| - 1;
      var init, node := nodes[..k], nodes[k];
      UpsertAllDisciplined(db, repoId, slug, init);
      var mid, isNew := UpsertAll(db, repoId, slug, existing, init), NumberOf(node) !in existing;
      UpsertTables(mid, repoId, slug, node, isNew);
      UpsertDisciplined(mid, repoId, slug, node, isNew);
      NewOnlyOnceSnoc(existing, NumbersOf(nodes));
      assert NumbersOf(nodes)[..k] == NumbersOf(init);
    }
  }

  // ---- targeted fetches and runs ---------------------------------------------------------------

  /** GitHub answers a request for pull request n with pull request n, or with nothing. */
  ghost predicate Honest(answers: Answers) {
    forall n :: answers(n).Some? ==> answers(n).value.number == Some(n)
  }

  function Answered(numbers: seq<int>, answers: Answers): seq<PrNode> {
    if numbers == [] then []
    else
      var n := numbers[|numbers| - 1];
      Answered(numbers[..|numbers| - 1], answers) + if answers(n).Some? then [answers(n).value] else []
  }

  lemma {:induction false} TargetedIsUpsertAll(db: Db, t: Target, existing: set<int>, numbers: seq<int>,
                                               answers: Answers)
    requires Honest(answers)
    ensures TargetedAll(db, t, existing, numbers, answers)
            == UpsertAll(db, t.id, t.slug, existing, Answered(numbers, answers))
  {
    if numbers != [] {
      var n := numbers[|numbers| - 1];
      var init := Answered(numbers[..|numbers| - 1], answers);
      TargetedIsUpsertAll(db, t, existing, numbers[..|numbers| - 1], answers);
      if answers(n).Some? {
        assert (init + [answers(n).value])[..|init|] == init;
      } else {
        assert Answered(numbers, answers) == init;
      }
    }
  }

  /**
   * A targeted fetch keeps the log in order exactly when no number that is not stored yet is asked
   * for, and answered, twice. The dirty list that it is called with may hold such repetitions.
   */
  lemma TargetedDisciplined(db: Db, t: Target, numbers: seq<int>, answers: Answers)
    requires LogCovers(db) && Disciplined(db) && Honest(answers)
    ensures LogCovers(SyncTargetedSpec(db, t, numbers, answers))
    ensures Disciplined(SyncTargetedSpec(db, t, numbers, answers)) <==>
            NewOnlyOnce(Stored(db, t.id), NumbersOf(Answered(numbers, answers)))
  {
    TargetedIsUpsertAll(db, t, Stored(db, t.id), numbers, answers);
    UpsertAllDisciplined(db, t.id, t.slug, Answered(numbers, answers));
  }

  lemma {:induction false} AnsweredNumbers(numbers: seq<int>, answers: Answers)
    requires Honest(answers)
    ensures forall n :: n in NumbersOf(Answered(numbers, answers)) ==> n in numbers
    ensures (forall i, j | 0 <= i < j < |numbers| :: numbers[i] != numbers[j]) ==>
              forall existing :: NewOnlyOnce(existing, NumbersOf(Answered(numbers, answers)))
  {
    if numbers != [] {
      var init, n := numbers[..|numbers| - 1], numbers[|numbers| - 1];
      var nodes, before := Answered(numbers, answers), Answered(init, answers);
      AnsweredNumbers(init, answers);
      if answers(n).Some? {
        assert nodes[..|nodes| - 1] == before;
        assert NumbersOf(nodes)[..|nodes| - 1] == NumbersOf(before);
        forall existing | forall i, j | 0 <= i < j < |numbers| :: numbers[i] != numbers[j]
          ensures NewOnlyOnce(existing, NumbersOf(nodes))
        {
          NewOnlyOnceSnoc(existing, NumbersOf(nodes));
        }
      } else {
        assert nodes == before;
      }
    }
  }

  lemma RepeatedIsNotOnce(existing: set<int>, numbers: seq<int>, n: int)
    requires n in numbers && n !in existing
    ensures !NewOnlyOnce(existing, numbers + [n])
  {
    var i :| 0 <= i < |numbers| && numbers[i] == n;
    assert (numbers + [n])[i] == (numbers + [n])[|numbers|];
  }

  /** The program's own counterexample: a second event about a new pull request. */
  lemma RepeatedNumberLogsTwoInserts(db: Db, t: Target, numbers: seq<int>, n: int, answers: Answers)
    requires LogCovers(db) && Disciplined(db) && Honest(answers) && answers(n).Some? && (t.id, n) !in db.prs
             && n in numbers
    ensures !Disciplined(SyncTargetedSpec(db, t, numbers + [n], answers))
  {
    TargetedDisciplined(db, t, numbers + [n], answers);
    AnsweredHas(numbers, n, answers);
    RepeatedIsNotOnce(Stored(db, t.id), NumbersOf(Answered(numbers, answers)), n);
  }

  lemma {:induction false} AnsweredHas(numbers: seq<int>, n: int, answers: Answers)
    requires Honest(answers) && answers(n).Some? && n in numbers
    ensures n in NumbersOf(Answered(numbers, answers))
  {
    var init, last := numbers[..|numbers| - 1], numbers[|numbers| - 1];
    assert init + [last] == numbers;
    if answers(last).Some? {
    } else {
      assert Answered(numbers, answers) == Answered(init, answers);
    }
    if last != n {
      AnsweredHas(init, n, answers);
    }
  }

  datatype PrOp =
    | Sweep(repos: seq<Target>, upstream: Slug -> Option<seq<PrNode>>)
    | Targeted(t: Target, numbers: seq<int>, answers: Answers)
    | OtherRow(entity: Entity, id: nat, event: ChangeEvent, slug: string)

  function Do(db: Db, op: PrOp): Db {
    match op
    case Sweep(repos, upstream) => SyncEach(db, repos, upstream).0
    case Targeted(t, numbers, answers) => SyncTargetedSpec(db, t, numbers, answers)
    case OtherRow(entity, id, event, slug) => LogChange(db, entity, id, event, slug)
  }

  /** Fetched numbers are distinct within each answer. */
  ghost predicate Distinct(op: PrOp) {
    match op
    case Sweep(repos, upstream) =>
      forall i | 0 <= i < |repos| :: upstream(repos[i].slug).Some? ==> DistinctNumbers(upstream(repos[i].slug).value)
    case Targeted(t, numbers, answers) =>
      Honest(answers) && forall i, j | 0 <= i < j < |numbers| :: numbers[i] != numbers[j]
    case OtherRow(entity, _, _, _) => entity != PullRequest
  }

  lemma {:induction false} DistinctNewOnce(nodes: seq<PrNode>, existing: set<int>)
    requires DistinctNumbers(nodes)
    ensures forall i | 0 <= i < |nodes| :: NumbersOf(nodes)[i] == NumberOf(nodes[i])
    ensures NewOnlyOnce(existing, NumbersOf(nodes))
  {
    if nodes != [] {
      DistinctNewOnce(nodes[..|nodes| - 1], existing);
    }
  }

  lemma {:induction false} SweepDisciplined(db: Db, repos: seq<Target>, upstream: Slug -> Option<seq<PrNode>>)
    requires LogCovers(db) && Disciplined(db) && Distinct(Sweep(repos, upstream))
    ensures LogCovers(SyncEach(db, repos, upstream).0) && Disciplined(SyncEach(db, repos, upstream).0)
  {
    if repos != [] {
      var init, t := repos[..|repos| - 1], repos[|repos| - 1];
      assert forall i | 0 <= i < |init| :: init[i] == repos[i];
      SweepDisciplined(db, init, upstream);
      var mid := SyncEach(db, init, upstream).0;
      if upstream(t.slug).Some? {
        UpsertAllDisciplined(mid, t.id, t.slug, upstream(t.slug).value);
        DistinctNewOnce(upstream(t.slug).value, Stored(mid, t.id));
      }
    }
  }

  ghost predicate InOrder(db: Db) {
    LogCovers(db) && Disciplined(db)
  }

  lemma OtherRowInOrder(db: Db, entity: Entity, id: nat, event: ChangeEvent, slug: string)
    requires InOrder(db) && entity != PullRequest
    ensures InOrder(LogChange(db, entity, id, event, slug))
  {
    OtherRowDisciplined(db, entity, id, event, slug);
  }

  /** These laws look at pull requests and their log only. */
  lemma SamePrLaws(a: Db, b: Db)
    requires a.prs == b.prs && a.prSeq == b.prSeq && a.log == b.log && Valid(a)
    ensures (LogCovers(b) ==> LogCovers(a)) && (Disciplined(b) ==> Disciplined(a))
  {
  }

  lemma OtherRowDisciplined(db: Db, entity: Entity, id: nat, event: ChangeEvent, slug: string)
    requires LogCovers(db) && Disciplined(db) && entity != PullRequest
    ensures LogCovers(LogChange(db, entity, id, event, slug)) && Disciplined(LogChange(db, entity, id, event, slug))
  {
    forall other: int
      ensures EventsOf(LogChange(db, entity, id, event, slug).log.rows, PullRequest, other)
              == EventsOf(db.log.rows, PullRequest, other) {
      EventsOfAppend(db.log, entity, id, event, Some(slug), PullRequest, other);
    }
  }

  function DoAll(db: Db, ops: seq<PrOp>): Db {
    if ops == [] then db else Do(DoAll(db, ops[..|ops| - 1]), ops[|ops| - 1])
  }

  /**
   * In every run mixing sweeps, targeted fetches and rows of other tables, the log of each pull
   * request is one "inserted" followed by "updated" only, as long as each answer's numbers are distinct.
   */
  lemma {:induction false} RunDisciplined(db: Db, ops: seq<PrOp>)
    requires LogCovers(db) && Disciplined(db) && forall i | 0 <= i < |ops| :: Distinct(ops[i])
    ensures LogCovers(DoAll(db, ops)) && Disciplined(DoAll(db, ops))
  {
    if ops != [] {
      RunDisciplined(db, ops[..|ops| - 1]);
      var mid := DoAll(db, ops[..|ops| - 1]);
      match ops[|ops| - 1]
      case Sweep(repos, upstream) => SweepDisciplined(mid, repos, upstream);
      case Targeted(t, numbers, answers) =>
        TargetedDisciplined(mid, t, numbers, answers);
        AnsweredNumbers(numbers, answers);
      case OtherRow(entity, id, event, slug) => OtherRowDisciplined(mid, entity, id, event, slug);
    }
  }
}
