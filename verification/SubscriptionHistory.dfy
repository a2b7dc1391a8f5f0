/** What the subscriber table means in terms of the requests so far, and why sweeping it is invisible. */
module SubscriptionHistory {
  import opened Wrappers
  import opened Subscriptions

  datatype Event = Event(time: nat, op: Op)

  type History = seq<Event>

  ghost predicate Ordered(h: History) {
    forall i, j | 0 <= i < j < |h| :: h[i].time <= h[j].time
  }

  function Run(h: History, ttl: nat): Table {
    if h == [] then map[]
    else Apply(Run(h[..|h| - 1], ttl), ttl, h[|h| - 1].op, h[|h| - 1].time)
  }

  predicate Touches(op: Op, u: string) {
    !op.Sweep? && op.uuid == u
  }

  predicate UpsertOf(op: Op, u: string) {
    op.Upsert? && op.uuid == u
  }

  predicate Sets(op: Op, u: string, repo: Repo, flag: Flag) {
    UpsertOf(op, u) && op.repo == repo && (if flag.PrSync? then op.prSync else op.notifications)
  }

  // ---- the meaning in terms of the requests ------------------------------------------------

  /** Some request since i touched u less than ttl before `now`. */
  ghost predicate TouchedWithin(h: History, i: nat, u: string, now: nat, ttl: nat) {
    exists k :: i <= k < |h| && Touches(h[k].op, u) && now < h[k].time + ttl
  }

  /** Every sweep since i found u touched within the ttl, so the entry u had at i is still there. */
  ghost predicate Survives(h: History, i: nat, u: string, ttl: nat) {
    forall s | i < s < |h| && h[s].op.Sweep? :: TouchedWithin(h[..s], i, u, h[s].time, ttl)
  }

  /** Since the current entry of u was created, the flag was asked for in request i. */
  ghost predicate AskedAt(h: History, i: nat, u: string, repo: Repo, flag: Flag, ttl: nat) {
    i < |h| && Sets(h[i].op, u, repo, flag) && Survives(h, i, u, ttl)
  }

  ghost predicate Asked(h: History, u: string, repo: Repo, flag: Flag, ttl: nat) {
    exists i: nat :: AskedAt(h, i, u, repo, flag, ttl)
  }

  ghost predicate PresentAt(h: History, i: nat, u: string, ttl: nat) {
    i < |h| && UpsertOf(h[i].op, u) && Survives(h, i, u, ttl)
  }

  ghost predicate Present(h: History, u: string, ttl: nat) {
    exists i: nat :: PresentAt(h, i, u, ttl)
  }

  /** The time of the last request that touches u; 0 if there is none. */
  function LastTouch(h: History, u: string): nat {
    if h == [] then 0
    else if Touches(h[|h| - 1].op, u) then h[|h| - 1].time
    else LastTouch(h[..|h| - 1], u)
  }

  lemma {:induction false} LastTouchDecides(h: History, i: nat, u: string, now: nat, ttl: nat)
    requires Ordered(h) && i < |h| && Touches(h[i].op, u)
    ensures TouchedWithin(h, i, u, now, ttl) <==> now < LastTouch(h, u) + ttl
    ensures h[i].time <= LastTouch(h, u)
  {
    var n := |h| - 1;
    var init := h[..n];
    if Touches(h[n].op, u) {
      if TouchedWithin(h, i, u, now, ttl) {
        var k :| i <= k < |h| && Touches(h[k].op, u) && now < h[k].time + ttl;
        assert k < n ==> h[k].time <= h[n].time;
      }
      assert i < n ==> h[i].time <= h[n].time;
    } else {
      assert init[i] == h[i];
      LastTouchDecides(init, i, u, now, ttl);
      if TouchedWithin(init, i, u, now, ttl) {
        var k :| i <= k < |init| && Touches(init[k].op, u) && now < init[k].time + ttl;
        assert Touches(h[k].op, u);
      }
      if TouchedWithin(h, i, u, now, ttl) {
        var k :| i <= k < |h| && Touches(h[k].op, u) && now < h[k].time + ttl;
        assert Touches(init[k].op, u);
      }
    }
  }

  /** One more request: a sweep ends the entries not touched within the ttl, nothing else ends any. */
  lemma SurvivesStep(h: History, i: nat, u: string, ttl: nat)
    requires Ordered(h) && h != [] && i < |h| - 1 && Touches(h[i].op, u)
    ensures var init, last := h[..|h| - 1], h[|h| - 1];
            Survives(h, i, u, ttl) <==>
            (Survives(init, i, u, ttl) && (last.op.Sweep? ==> last.time < LastTouch(init, u) + ttl))
  {
    var n := |h| - 1;
    var init := h[..n];
    LastTouchDecides(init, i, u, h[n].time, ttl);
    forall s | i < s < n ensures init[..s] == h[..s] && init[s] == h[s] {
    }
    assert h[..n] == init;
    if Survives(h, i, u, ttl) {
      forall s | i < s < |init| && init[s].op.Sweep? ensures TouchedWithin(init[..s], i, u, init[s].time, ttl) {
        assert h[s].op.Sweep?;
      }
    }
  }

  lemma {:induction false} MergeFlag(repos: seq<RepoSub>, repo: Repo, p: bool, n: bool, other: Repo, flag: Flag)
    ensures HasFlag(Merge(repos, repo, p, n), other, flag) <==>
            (HasFlag(repos, other, flag) || (other == repo && if flag.PrSync? then p else n))
  {
    var merged := Merge(repos, repo, p, n);
    if repos == [] {
      assert merged[0] == RepoSub(repo, p, n);
    } else {
      FlagCons(repos, other, flag);
      FlagCons(merged, other, flag);
      if repos[0].repo != repo {
        MergeFlag(repos[1..], repo, p, n, other, flag);
      }
    }
  }

  lemma FlagCons(repos: seq<RepoSub>, repo: Repo, flag: Flag)
    requires repos != []
    ensures HasFlag(repos, repo, flag) <==>
            ((repos[0].repo == repo && Has(repos[0], flag)) || HasFlag(repos[1..], repo, flag))
  {
    if HasFlag(repos[1..], repo, flag) {
      var i :| 0 <= i < |repos[1..]| && repos[1..][i].repo == repo && Has(repos[1..][i], flag);
      assert repos[i + 1].repo == repo;
    }
    if HasFlag(repos, repo, flag) {
      var i :| 0 <= i < |repos| && repos[i].repo == repo && Has(repos[i], flag);
      assert i > 0 ==> repos[1..][i - 1].repo == repo;
    }
  }

  /** The entry a table has for u is what the requests say. */
  ghost predicate EntryAgrees(h: History, u: string, repo: Repo, flag: Flag, ttl: nat) {
    var t := Run(h, ttl);
    && (u in t <==> Present(h, u, ttl))
    && (u in t ==> t[u].lastSeen == LastTouch(h, u))
    && (HasFlag(ReposOf(t, u), repo, flag) <==> Asked(h, u, repo, flag, ttl))
  }

  lemma PresentStep(h: History, u: string, ttl: nat)
    requires Ordered(h) && h != []
    ensures var init, last := h[..|h| - 1], h[|h| - 1];
            Present(h, u, ttl) <==>
            (UpsertOf(last.op, u)
             || (Present(init, u, ttl) && (last.op.Sweep? ==> last.time < LastTouch(init, u) + ttl)))
  {
    var n := |h| - 1;
    var init := h[..n];
    if UpsertOf(h[n].op, u) {
      assert PresentAt(h, n, u, ttl);
    }
    if i: nat :| PresentAt(init, i, u, ttl) {
      assert init[i] == h[i];
      SurvivesStep(h, i, u, ttl);
      if h[n].op.Sweep? ==> h[n].time < LastTouch(init, u) + ttl {
        assert PresentAt(h, i, u, ttl);
      }
    }
    if i: nat :| PresentAt(h, i, u, ttl) && i < n {
      assert init[i] == h[i];
      SurvivesStep(h, i, u, ttl);
      assert PresentAt(init, i, u, ttl);
    }
  }

  lemma AskedStep(h: History, u: string, repo: Repo, flag: Flag, ttl: nat)
    requires Ordered(h) && h != []
    ensures var init, last := h[..|h| - 1], h[|h| - 1];
            Asked(h, u, repo, flag, ttl) <==>
            (Sets(last.op, u, repo, flag)
             || (Asked(init, u, repo, flag, ttl) && (last.op.Sweep? ==> last.time < LastTouch(init, u) + ttl)))
  {
    var n := |h| - 1;
    var init := h[..n];
    if Sets(h[n].op, u, repo, flag) {
      assert AskedAt(h, n, u, repo, flag, ttl);
    }
    if i: nat :| AskedAt(init, i, u, repo, flag, ttl) {
      assert init[i] == h[i];
      SurvivesStep(h, i, u, ttl);
      if h[n].op.Sweep? ==> h[n].time < LastTouch(init, u) + ttl {
        assert AskedAt(h, i, u, repo, flag, ttl);
      }
    }
    if i: nat :| AskedAt(h, i, u, repo, flag, ttl) && i < n {
      assert init[i] == h[i];
      SurvivesStep(h, i, u, ttl);
      assert AskedAt(init, i, u, repo, flag, ttl);
    }
  }

  lemma AskedIsPresent(h: History, u: string, repo: Repo, flag: Flag, ttl: nat)
    requires Asked(h, u, repo, flag, ttl)
    ensures Present(h, u, ttl)
  {
    var i: nat :| AskedAt(h, i, u, repo, flag, ttl);
    assert PresentAt(h, i, u, ttl);
  }

  lemma {:induction false} TableAgrees(h: History, u: string, repo: Repo, flag: Flag, ttl: nat)
    requires Ordered(h)
    ensures EntryAgrees(h, u, repo, flag, ttl)
  {
    if h != [] {
      var init, last := h[..|h| - 1], h[|h| - 1];
      var t := Run(init, ttl);
      TableAgrees(init, u, repo, flag, ttl);
      PresentStep(h, u, ttl);
      AskedStep(h, u, repo, flag, ttl);
      if UpsertOf(last.op, u) {
        MergeFlag(ReposOf(t, u), last.op.repo, last.op.prSync, last.op.notifications, repo, flag);
      }
      if Asked(init, u, repo, flag, ttl) {
        AskedIsPresent(init, u, repo, flag, ttl);
      }
    }
  }

  /**
   * A repository is active for a flag exactly when some uuid asked for it with that flag since its
   * current entry was created, and was last touched less than the ttl ago.
   */
  lemma ActiveMeansAsked(h: History, repo: Repo, flag: Flag, ttl: nat, now: nat)
    requires Ordered(h)
    ensures ActiveIn(Run(h, ttl), ttl, now, flag, repo) <==>
            exists u, i: nat :: AskedAt(h, i, u, repo, flag, ttl) && TouchedWithin(h, i, u, now, ttl)
  {
    var t := Run(h, ttl);
    if u :| u in t && Counts(t[u], ttl, now, flag, repo) {
      TableAgrees(h, u, repo, flag, ttl);
      var i: nat :| AskedAt(h, i, u, repo, flag, ttl);
      LastTouchDecides(h, i, u, now, ttl);
    }
    if u, i: nat :| AskedAt(h, i, u, repo, flag, ttl) && TouchedWithin(h, i, u, now, ttl) {
      LastTouchDecides(h, i, u, now, ttl);
      TableAgrees(h, u, repo, flag, ttl);
      AskedIsPresent(h, u, repo, flag, ttl);
      assert u in t && Counts(t[u], ttl, now, flag, repo);
    }
  }

  // ---- entries ----------------------------------------------------------------------------

  ghost predicate ListsOnce(repos: seq<RepoSub>) {
    forall i, j | 0 <= i < j < |repos| :: repos[i].repo != repos[j].repo
  }

  lemma {:induction false} MergeListsOnce(repos: seq<RepoSub>, repo: Repo, p: bool, n: bool)
    requires ListsOnce(repos)
    ensures ListsOnce(Merge(repos, repo, p, n))
    ensures forall r | r in Merge(repos, repo, p, n) :: r.repo == repo || exists q :: q in repos && q.repo == r.repo
  {
    if repos != [] && repos[0].repo != repo {
      MergeListsOnce(repos[1..], repo, p, n);
      var rest := Merge(repos[1..], repo, p, n);
      forall j | 0 <= j < |rest| ensures rest[j].repo != repos[0].repo {
        assert rest[j] in rest;
      }
    }
  }

  /** In every run an entry lists each repository at most once. */
  lemma {:induction false} EntriesListOnce(h: History, ttl: nat, u: string)
    ensures ListsOnce(ReposOf(Run(h, ttl), u))
  {
    if h != [] {
      var t, last := Run(h[..|h| - 1], ttl), h[|h| - 1];
      EntriesListOnce(h[..|h| - 1], ttl, u);
      if UpsertOf(last.op, u) {
        MergeListsOnce(ReposOf(t, u), last.op.repo, last.op.prSync, last.op.notifications);
      }
    }
  }

  /** While an entry lives, no request takes a flag away from it. */
  lemma FlagsStay(t: Table, ttl: nat, e: Event, u: string, repo: Repo, flag: Flag)
    requires HasFlag(ReposOf(t, u), repo, flag) && u in Apply(t, ttl, e.op, e.time)
    ensures HasFlag(ReposOf(Apply(t, ttl, e.op, e.time), u), repo, flag)
  {
    if UpsertOf(e.op, u) {
      MergeFlag(ReposOf(t, u), e.op.repo, e.op.prSync, e.op.notifications, repo, flag);
    }
  }

  // ---- the sweep ----------------------------------------------------------------------------

  function Strip(h: History): History {
    if h == [] then []
    else Strip(h[..|h| - 1]) + if h[|h| - 1].op.Sweep? then [] else [h[|h| - 1]]
  }

  /** All that the two active-repository queries can see of the table. */
  function LiveView(t: Table, ttl: nat, now: nat): map<string, seq<RepoSub>> {
    map u | u in t && Live(t[u], ttl, now) :: t[u].repos
  }

  /**
   * The request does not bring an expired entry's old repositories back to life: its uuid is unknown
   * or live, or it asks for all that the expired entry had.
   */
  predicate Harmless(t: Table, ttl: nat, e: Event) {
    match e.op
    case Sweep => true
    case Heartbeat(u) => u in t ==> Live(t[u], ttl, e.time)
    case Upsert(u, repo, p, n) =>
      u in t ==> Live(t[u], ttl, e.time) || Merge(t[u].repos, repo, p, n) == [RepoSub(repo, p, n)]
  }

  ghost predicate NeverRevives(h: History, ttl: nat) {
    forall k | 0 <= k < |h| :: Harmless(Run(h[..k], ttl), ttl, h[k])
  }

  /** The swept table lacks only entries that have expired. */
  ghost predicate Covers(swept: Table, full: Table, ttl: nat, now: nat) {
    && (forall u | u in swept :: u in full && swept[u] == full[u])
    && (forall u | u in full && u !in swept :: !Live(full[u], ttl, now))
  }

  lemma {:induction false} StripHarmless(h: History, ttl: nat, now: nat)
    requires Ordered(h) && (forall e | e in h :: e.time <= now) && NeverRevives(Strip(h), ttl)
    ensures Covers(Run(h, ttl), Run(Strip(h), ttl), ttl, now)
  {
    if h != [] {
      var init, last := h[..|h| - 1], h[|h| - 1];
      var g := Strip(init);
      assert last in h;
      forall k | 0 <= k < |g| ensures Harmless(Run(g[..k], ttl), ttl, g[k]) {
        assert Strip(h)[..k] == g[..k] && Strip(h)[k] == g[k];
      }
      StripHarmless(init, ttl, last.time);
      if last.op.Sweep? {
        assert Strip(h) == g;
      } else {
        assert Strip(h)[..|g|] == g && Strip(h)[|g|] == last;
      }
    }
  }

  /** Sweeps put anywhere into (a part of) the requests leave every view unchanged. */
  ghost predicate SweepsInvisible(g: History, ttl: nat) {
    forall h, now | SweptVersion(h, g, now) ::
      LiveView(Run(h, ttl), ttl, now) == LiveView(Run(Strip(h), ttl), ttl, now)
  }

  ghost predicate SweptVersion(h: History, g: History, now: nat) {
    Ordered(h) && Strip(h) <= g && forall e | e in h :: e.time <= now
  }

  /**
   * The sweep is invisible exactly when no request revives an expired entry, that is, touches it in a
   * way that would turn out differently had it been swept just before.
   */
  lemma SweepsInvisibleIff(g: History, ttl: nat)
    requires Ordered(g) && Strip(g) == g
    ensures SweepsInvisible(g, ttl) <==> ttl == 0 || NeverRevives(g, ttl)
  {
    if ttl == 0 {
      NothingToSee(g);
    }
    if NeverRevives(g, ttl) {
      SweepsNeverSeen(g, ttl);
    }
    if SweepsInvisible(g, ttl) && ttl > 0 {
      forall k | 0 <= k < |g| ensures Harmless(Run(g[..k], ttl), ttl, g[k]) {
        if !Harmless(Run(g[..k], ttl), ttl, g[k]) {
          RevivalShows(g, ttl, k);
        }
      }
    }
  }

  lemma NothingToSee(g: History)
    ensures SweepsInvisible(g, 0)
  {
    forall h, now | SweptVersion(h, g, now)
      ensures LiveView(Run(h, 0), 0, now) == LiveView(Run(Strip(h), 0), 0, now)
    {
      StripTimes(h, now);
      NothingLivesForNoTime(h, now);
      NothingLivesForNoTime(Strip(h), now);
    }
  }

  lemma PartNeverRevives(f: History, g: History, ttl: nat)
    requires f <= g && NeverRevives(g, ttl)
    ensures NeverRevives(f, ttl)
  {
    forall k | 0 <= k < |f| ensures Harmless(Run(f[..k], ttl), ttl, f[k]) {
      assert f[..k] == g[..k];
    }
  }

  lemma SweepsNeverSeen(g: History, ttl: nat)
    requires NeverRevives(g, ttl)
    ensures SweepsInvisible(g, ttl)
  {
    forall h, now | SweptVersion(h, g, now)
      ensures LiveView(Run(h, ttl), ttl, now) == LiveView(Run(Strip(h), ttl), ttl, now)
    {
      PartNeverRevives(Strip(h), g, ttl);
      StripHarmless(h, ttl, now);
    }
  }

  lemma {:induction false} StripTimes(h: History, now: nat)
    requires forall e | e in h :: e.time <= now
    ensures forall e | e in Strip(h) :: e.time <= now
  {
    if h != [] {
      StripTimes(h[..|h| - 1], now);
      assert h[|h| - 1] in h;
    }
  }

  lemma {:induction false} NothingLivesForNoTime(h: History, now: nat)
    requires forall e | e in h :: e.time <= now
    ensures forall u | u in Run(h, 0) :: Run(h, 0)[u].lastSeen <= now
    ensures LiveView(Run(h, 0), 0, now) == map[]
  {
    if h != [] {
      NothingLivesForNoTime(h[..|h| - 1], now);
      assert h[|h| - 1] in h;
    }
  }

  ghost predicate NoSweeps(h: History) {
    forall i | 0 <= i < |h| :: !h[i].op.Sweep?
  }

  lemma {:induction false} StripOfNone(h: History)
    requires NoSweeps(h)
    ensures Strip(h) == h
  {
    if h != [] {
      var init, last := h[..|h| - 1], h[|h| - 1];
      StripOfNone(init);
      assert !last.op.Sweep? && init + [last] == h;
    }
  }

  lemma {:induction false} StripShorter(h: History)
    ensures |Strip(h)| <= |h| && (|Strip(h)| == |h| ==> NoSweeps(h))
  {
    if h != [] {
      StripShorter(h[..|h| - 1]);
    }
  }

  lemma StripStripped(g: History, k: nat)
    requires Strip(g) == g && k <= |g|
    ensures Strip(g[..k]) == g[..k] && !(k < |g| && g[k].op.Sweep?)
  {
    StripShorter(g);
    StripOfNone(g[..k]);
  }

  lemma RevivalDiffers(t: Table, ttl: nat, e: Event)
    requires ttl > 0 && !e.op.Sweep?
    requires LiveView(Apply(Apply(t, ttl, Sweep, e.time), ttl, e.op, e.time), ttl, e.time)
             == LiveView(Apply(t, ttl, e.op, e.time), ttl, e.time)
    ensures Harmless(t, ttl, e)
  {
    var u := e.op.uuid;
    if u in t && !Live(t[u], ttl, e.time) {
      var swept := Apply(t, ttl, Sweep, e.time);
      assert u !in swept;
      var t1, t2 := Apply(swept, ttl, e.op, e.time), Apply(t, ttl, e.op, e.time);
      assert u in LiveView(t2, ttl, e.time);
      assert LiveView(t1, ttl, e.time)[u] == t1[u].repos && LiveView(t2, ttl, e.time)[u] == t2[u].repos;
    }
  }

  lemma TakeMore(g: History, k: nat)
    requires k < |g|
    ensures g[..k] + [g[k]] == g[..k + 1]
  {
  }

  function SweptBefore(g: History, k: nat): History
    requires k < |g|
  {
    g[..k] + [Event(g[k].time, Sweep)] + [g[k]]
  }

  lemma SweptBeforeOrdered(g: History, k: nat)
    requires Ordered(g) && k < |g|
    ensures Ordered(SweptBefore(g, k)) && forall e | e in SweptBefore(g, k) :: e.time <= g[k].time
  {
    var h := SweptBefore(g, k);
    assert forall i | 0 <= i < |h| :: h[i].time == g[if i < k then i else k].time;
  }

  lemma SweptBeforeStrips(g: History, k: nat)
    requires Strip(g) == g && k < |g|
    ensures Strip(SweptBefore(g, k)) == g[..k + 1]
  {
    StripStripped(g, k);
    TakeMore(g, k);
  }

  lemma SweptBeforeIsVersion(g: History, k: nat)
    requires Ordered(g) && Strip(g) == g && k < |g|
    ensures SweptVersion(SweptBefore(g, k), g, g[k].time) && Strip(SweptBefore(g, k)) == g[..k + 1]
  {
    SweptBeforeOrdered(g, k);
    SweptBeforeStrips(g, k);
  }

  /** A sweep just before a request that revives an expired entry shows in the live entries just after it. */
  lemma RevivalShows(g: History, ttl: nat, k: nat)
    requires Ordered(g) && Strip(g) == g && ttl > 0 && k < |g| && !Harmless(Run(g[..k], ttl), ttl, g[k])
    ensures SweptVersion(SweptBefore(g, k), g, g[k].time) && Strip(SweptBefore(g, k)) == g[..k + 1]
    ensures LiveView(Run(SweptBefore(g, k), ttl), ttl, g[k].time) != LiveView(Run(g[..k + 1], ttl), ttl, g[k].time)
  {
    SweptBeforeIsVersion(g, k);
    SweptBeforeRuns(g, ttl, k);
    if LiveView(Run(SweptBefore(g, k), ttl), ttl, g[k].time) == LiveView(Run(g[..k + 1], ttl), ttl, g[k].time) {
      RevivalDiffers(Run(g[..k], ttl), ttl, g[k]);
    }
  }

  lemma SweptBeforeRuns(g: History, ttl: nat, k: nat)
    requires Strip(g) == g && k < |g|
    ensures !g[k].op.Sweep?
    ensures Run(g[..k + 1], ttl) == Apply(Run(g[..k], ttl), ttl, g[k].op, g[k].time)
    ensures Run(SweptBefore(g, k), ttl)
            == Apply(Apply(Run(g[..k], ttl), ttl, Sweep, g[k].time), ttl, g[k].op, g[k].time)
  {
    StripStripped(g, k);
    TakeMore(g, k);
    RunMore(g[..k], ttl, g[k]);
    RunMore(g[..k], ttl, Event(g[k].time, Sweep));
    RunMore(g[..k] + [Event(g[k].time, Sweep)], ttl, g[k]);
  }

  lemma RunMore(h: History, ttl: nat, e: Event)
    ensures Run(h + [e], ttl) == Apply(Run(h, ttl), ttl, e.op, e.time)
  {
    assert (h + [e])[..|h|] == h;
  }
}
