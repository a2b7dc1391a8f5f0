/** The watch loop and the subscription requests that wake it, as one state machine. */
module WatchLoop {
  import opened Subscriptions

  // `Notify` holds at most one permit: `notify_one` stores it, and a wait takes it at once if it is
  // there and otherwise sleeps until it is stored or the poll interval is over. The loop reads the
  // repositories for pull requests and those for notifications in two separate looks at the table.

  datatype Phase = Top | Between | Pass | Waiting

  type Listing = (string, Repo)

  /** `newPr` and `newNotif` are the listings added since the loop last took the respective look. */
  datatype State = State(
    table: Table, permit: bool, phase: Phase, paused: bool, newPr: set<Listing>, newNotif: set<Listing>,
    prRepos: set<Repo>, notifRepos: set<Repo>)

  datatype Step =
    | Request(op: Op, now: nat)
    | SetPaused(paused: bool)
    | IdlePaused
    | LookPr(active: set<Repo>, now: nat)
    | LookNotif(active: set<Repo>, now: nat)
    | EndPass
    | Wake
    | IntervalOver

  predicate AddsListing(t: Table, op: Op) {
    op.Upsert? && !Lists(ReposOf(t, op.uuid), op.repo)
  }

  ghost predicate Enabled(s: State, ttl: nat, step: Step) {
    match step
    case Request(_, _) => true
    case SetPaused(_) => true
    case IdlePaused => s.phase == Top && s.paused
    case LookPr(active, now) =>
      s.phase == Top && !s.paused && forall r :: r in active <==> ActiveIn(s.table, ttl, now, PrSync, r)
    case LookNotif(active, now) =>
      s.phase == Between && forall r :: r in active <==> ActiveIn(s.table, ttl, now, Notifications, r)
    case EndPass => s.phase == Pass
    case Wake => s.phase == Waiting && s.permit
    case IntervalOver => s.phase == Waiting && !s.permit
  }

  function Next(s: State, ttl: nat, step: Step): State {
    match step
    case Request(op, now) =>
      var t := Apply(s.table, ttl, op, now);
      if AddsListing(s.table, op) then
        var added := {(op.uuid, op.repo)};
        s.(table := t, permit := true, newPr := s.newPr + added, newNotif := s.newNotif + added)
      else s.(table := t)
    case SetPaused(p) => s.(paused := p)
    case IdlePaused => s
    case LookPr(active, _) => s.(phase := Between, prRepos := active, newPr := {})
    case LookNotif(active, _) => s.(phase := Pass, notifRepos := active, newNotif := {})
    case EndPass => s.(phase := Waiting)
    case Wake => s.(phase := Top, permit := false)
    case IntervalOver => s.(phase := Top)
  }

  /** Whatever is new to a look is on its way to one: a permit is stored, or that look is still to come. */
  ghost predicate Inv(s: State) {
    && (s.newPr != {} ==> s.permit || s.phase == Top)
    && (s.newNotif != {} ==> s.permit || s.phase == Top || s.phase == Between)
  }

  ghost predicate IsRun(states: seq<State>, steps: seq<Step>, ttl: nat) {
    && |states| == |steps| + 1
    && states[0].phase == Top && states[0].table == map[] && states[0].newPr == {} && states[0].newNotif == {}
    && forall i | 0 <= i < |steps| ::
        Enabled(states[i], ttl, steps[i]) && states[i + 1] == Next(states[i], ttl, steps[i])
  }

  lemma {:induction false} RunKeepsInv(states: seq<State>, steps: seq<Step>, ttl: nat, i: nat)
    requires IsRun(states, steps, ttl) && i < |states|
    ensures Inv(states[i])
  {
    if i > 0 {
      RunKeepsInv(states, steps, ttl, i - 1);
    }
  }

  /** No wait ever runs out its interval while a listing is new to either look. */
  lemma NoLostWakeUp(states: seq<State>, steps: seq<Step>, ttl: nat, i: nat)
    requires IsRun(states, steps, ttl) && i < |steps| && steps[i].IntervalOver?
    ensures states[i].newPr == {} && states[i].newNotif == {}
  {
    RunKeepsInv(states, steps, ttl, i);
  }

  predicate OfLoop(step: Step) {
    !step.Request? && !step.SetPaused?
  }

  /** The listings that are new to the look for the flag. */
  function New(s: State, flag: Flag): set<Listing> {
    if flag.PrSync? then s.newPr else s.newNotif
  }

  predicate IsLook(step: Step, flag: Flag) {
    if flag.PrSync? then step.LookPr? else step.LookNotif?
  }

  /** How many steps the loop is from its next look for the flag. */
  function Distance(s: State, flag: Flag): nat {
    match s.phase
    case Top => if flag.PrSync? then 0 else 1
    case Waiting => if flag.PrSync? then 1 else 2
    case Pass => if flag.PrSync? then 2 else 3
    case Between => if flag.PrSync? then 3 else 0
  }

  /**
   * From the moment a listing is added until the next look for either flag, every step of the loop
   * itself brings that look nearer and none of them is the end of the poll interval; requests push it
   * no further.
   */
  lemma LookComesNear(states: seq<State>, steps: seq<Step>, ttl: nat, i: nat, flag: Flag)
    requires IsRun(states, steps, ttl) && i < |steps| && New(states[i], flag) != {}
    requires steps[i] != IdlePaused && !IsLook(steps[i], flag)
    ensures !steps[i].IntervalOver?
    ensures OfLoop(steps[i]) ==> Distance(states[i + 1], flag) < Distance(states[i], flag)
    ensures !OfLoop(steps[i]) ==> Distance(states[i + 1], flag) == Distance(states[i], flag)
    ensures New(states[i], flag) <= New(states[i + 1], flag)
  {
    RunKeepsInv(states, steps, ttl, i);
  }

  /** A listing that is new to a look stays so until that look. */
  lemma {:induction false} AddedStaysNew(states: seq<State>, steps: seq<Step>, ttl: nat, i: nat, j: nat, added: Listing,
                                         flag: Flag)
    requires IsRun(states, steps, ttl) && i <= j < |states| && added in New(states[i], flag)
    requires forall k | i <= k < j :: !IsLook(steps[k], flag)
    ensures added in New(states[j], flag)
  {
    if i < j {
      AddedStaysNew(states, steps, ttl, i, j - 1, added, flag);
    }
  }

  /** And an upsert that lists a repository adds it to both. */
  lemma UpsertAdds(states: seq<State>, steps: seq<Step>, ttl: nat, i: nat, flag: Flag)
    requires IsRun(states, steps, ttl) && i < |steps| && steps[i].Request? && AddsListing(states[i].table, steps[i].op)
    ensures (steps[i].op.uuid, steps[i].op.repo) in New(states[i + 1], flag)
    ensures Lists(ReposOf(states[i + 1].table, steps[i].op.uuid), steps[i].op.repo)
  {
    var op := steps[i].op;
    ListsMerged(ReposOf(states[i].table, op.uuid), op.repo, op.prSync, op.notifications);
  }

  lemma {:induction false} ListsMerged(repos: seq<RepoSub>, repo: Repo, p: bool, n: bool)
    ensures Lists(Merge(repos, repo, p, n), repo)
  {
    var merged := Merge(repos, repo, p, n);
    if repos == [] || repos[0].repo == repo {
      assert merged[0].repo == repo;
    } else {
      ListsMerged(repos[1..], repo, p, n);
      var rest := Merge(repos[1..], repo, p, n);
      var i :| 0 <= i < |rest| && rest[i].repo == repo;
      assert merged[i + 1] == rest[i];
    }
  }

  /**
   * An upsert wakes a waiting loop exactly when it lists a repository its uuid did not list before.
   * One that only sets a flag on a listed repository leaves the loop to its poll interval, even
   * though the repository may thereby have become active.
   */
  lemma UpsertWakesIffListed(s: State, ttl: nat, uuid: string, repo: Repo, p: bool, n: bool, now: nat)
    requires s.phase == Waiting && !s.permit
    ensures var s' := Next(s, ttl, Request(Upsert(uuid, repo, p, n), now));
            && (Enabled(s', ttl, Wake) <==> !Lists(ReposOf(s.table, uuid), repo))
            && (Enabled(s', ttl, IntervalOver) <==> Lists(ReposOf(s.table, uuid), repo))
            && (p && ttl > 0 ==> ActiveIn(s'.table, ttl, now, PrSync, repo))
  {
    if p && ttl > 0 {
      var t := Apply(s.table, ttl, Upsert(uuid, repo, p, n), now);
      MergeSets(ReposOf(s.table, uuid), repo, p, n);
      assert uuid in t && Counts(t[uuid], ttl, now, PrSync, repo);
    }
  }

  lemma {:induction false} MergeSets(repos: seq<RepoSub>, repo: Repo, p: bool, n: bool)
    requires p
    ensures HasFlag(Merge(repos, repo, p, n), repo, PrSync)
  {
    var merged := Merge(repos, repo, p, n);
    if repos == [] || repos[0].repo == repo {
      assert merged[0].repo == repo && Has(merged[0], PrSync);
    } else {
      MergeSets(repos[1..], repo, p, n);
      var rest := Merge(repos[1..], repo, p, n);
      var i :| 0 <= i < |rest| && rest[i].repo == repo && Has(rest[i], PrSync);
      assert merged[i + 1] == rest[i];
    }
  }
}
