/** When sweeping changes what the two active-repository queries answer. */
module SweepAnswers {
  import opened Wrappers
  import opened Subscriptions
  import opened SubscriptionHistory

  // An answer tells only which repositories are active, so a subscriber that comes back from the dead
  // goes unnoticed as long as another one stands in for it.

  ghost predicate SameAnswers(a: Table, b: Table, ttl: nat, now: nat) {
    forall flag, repo :: ActiveIn(a, ttl, now, flag, repo) <==> ActiveIn(b, ttl, now, flag, repo)
  }

  /** The answers look at live entries only. */
  lemma ActiveInView(t: Table, ttl: nat, now: nat, flag: Flag, repo: Repo)
    ensures ActiveIn(t, ttl, now, flag, repo) <==>
            exists u :: u in LiveView(t, ttl, now) && HasFlag(LiveView(t, ttl, now)[u], repo, flag)
  {
    if ActiveIn(t, ttl, now, flag, repo) {
      var u :| u in t && Counts(t[u], ttl, now, flag, repo);
      assert u in LiveView(t, ttl, now) && HasFlag(LiveView(t, ttl, now)[u], repo, flag);
    }
    if u :| u in LiveView(t, ttl, now) && HasFlag(LiveView(t, ttl, now)[u], repo, flag) {
      assert u in t && Counts(t[u], ttl, now, flag, repo);
    }
  }

  lemma SameViewSameAnswers(a: Table, b: Table, ttl: nat, now: nat)
    requires LiveView(a, ttl, now) == LiveView(b, ttl, now)
    ensures SameAnswers(a, b, ttl, now)
  {
    forall flag, repo ensures ActiveIn(a, ttl, now, flag, repo) <==> ActiveIn(b, ttl, now, flag, repo) {
      ActiveInView(a, ttl, now, flag, repo);
      ActiveInView(b, ttl, now, flag, repo);
    }
  }

  /** Sweeps put anywhere into (a part of) the requests leave every answer unchanged. */
  ghost predicate AnswersUnchanged(g: History, ttl: nat) {
    forall h, now | SweptVersion(h, g, now) :: SameAnswers(Run(h, ttl), Run(Strip(h), ttl), ttl, now)
  }

  /** The sweep changes no answer as long as no request touches an expired entry to any effect. */
  lemma NoRevivalNoChange(g: History, ttl: nat)
    requires Ordered(g) && Strip(g) == g && NeverRevives(g, ttl)
    ensures AnswersUnchanged(g, ttl)
  {
    SweepsInvisibleIff(g, ttl);
    forall h, now | SweptVersion(h, g, now) ensures SameAnswers(Run(h, ttl), Run(Strip(h), ttl), ttl, now) {
      SameViewSameAnswers(Run(h, ttl), Run(Strip(h), ttl), ttl, now);
    }
  }

  // ---- the exact condition ----------------------------------------------------------------------

  /** From request j on, v was never touched after a silence as long as the ttl. */
  ghost predicate NoLapse(g: History, j: nat, v: string, ttl: nat) {
    forall b | j < b < |g| && Touches(g[b].op, v) :: TouchedWithin(g[..b], j, v, g[b].time, ttl)
  }

  /** Request i asked for the flag for u, and u is live at the last request. */
  ghost predicate Heard(g: History, i: nat, u: string, repo: Repo, flag: Flag, ttl: nat) {
    i < |g| && Sets(g[i].op, u, repo, flag) && TouchedWithin(g, i, u, g[|g| - 1].time, ttl)
  }

  /** v asked for the same in request j, has not lapsed since, and was touched no earlier than u. */
  ghost predicate StandsIn(g: History, j: nat, v: string, u: string, repo: Repo, flag: Flag, ttl: nat) {
    j < |g| && Sets(g[j].op, v, repo, flag) && NoLapse(g, j, v, ttl) && LastTouch(g, v) >= LastTouch(g, u)
  }

  ghost predicate Covered(f: History, u: string, repo: Repo, flag: Flag, ttl: nat) {
    exists v, j: nat :: StandsIn(f, j, v, u, repo, flag, ttl)
  }

  /** After every request, whatever some live uuid ever asked for is held by one that has not lapsed since it asked. */
  ghost predicate AllCovered(g: History, ttl: nat) {
    forall m: nat, i: nat, u, repo, flag | m <= |g| && Heard(g[..m], i, u, repo, flag, ttl) ::
        Covered(g[..m], u, repo, flag, ttl)
  }

  // ---- indices of the requests among the sweeps --------------------------------------------------

  lemma {:induction false} StripPrefix(h: History, i: nat)
    requires i <= |h|
    ensures Strip(h[..i]) <= Strip(h)
  {
    if i == |h| {
      assert h[..i] == h;
    } else {
      assert h[..|h| - 1][..i] == h[..i];
      StripPrefix(h[..|h| - 1], i);
    }
  }

  lemma StripAt(h: History, i: nat)
    requires i < |h| && !h[i].op.Sweep?
    ensures |Strip(h[..i])| < |Strip(h)| && Strip(h)[|Strip(h[..i])|] == h[i]
  {
    assert h[..i + 1][..i] == h[..i];
    StripPrefix(h, i + 1);
  }

  lemma StripOrder(h: History, i: nat, j: nat)
    requires i <= j <= |h|
    ensures |Strip(h[..i])| <= |Strip(h[..j])|
    ensures i < j && !h[i].op.Sweep? ==> |Strip(h[..i])| < |Strip(h[..j])|
  {
    assert h[..j][..i] == h[..i];
    StripPrefix(h[..j], i);
    if i < j && !h[i].op.Sweep? {
      StripAt(h[..j], i);
    }
  }

  lemma {:induction false} StripFound(h: History, c: nat) returns (i: nat)
    requires c < |Strip(h)|
    ensures i < |h| && !h[i].op.Sweep? && |Strip(h[..i])| == c && Strip(h)[c] == h[i]
  {
    var n := |h| - 1;
    if c < |Strip(h[..n])| {
      i := StripFound(h[..n], c);
      assert h[..n][..i] == h[..i];
      StripPrefix(h, n);
    } else {
      i := n;
    }
  }

  /** Sweeps do not touch anyone. */
  lemma TouchLifts(h: History, p: nat, v: string, now: nat, ttl: nat)
    requires p <= |h|
    ensures TouchedWithin(Strip(h), |Strip(h[..p])|, v, now, ttl) <==> TouchedWithin(h, p, v, now, ttl)
  {
    var f, c := Strip(h), |Strip(h[..p])|;
    if TouchedWithin(h, p, v, now, ttl) {
      var k :| p <= k < |h| && Touches(h[k].op, v) && now < h[k].time + ttl;
      StripAt(h, k);
      StripOrder(h, p, k);
      assert Touches(f[|Strip(h[..k])|].op, v);
    }
    if TouchedWithin(f, c, v, now, ttl) {
      var d :| c <= d < |f| && Touches(f[d].op, v) && now < f[d].time + ttl;
      var k := StripFound(h, d);
      if k < p {
        StripOrder(h, k, p);
      }
      assert Touches(h[k].op, v);
    }
  }

  // ---- if every one that is heard is covered, no sweep shows ---------------------------------------

  lemma StripHasNone(h: History)
    requires Strip(h) == h
    ensures NoSweeps(h)
  {
    StripShorter(h);
  }

  /** Taking the sweeps out makes nothing inactive. */
  lemma ActiveWithoutSweeps(h: History, ttl: nat, now: nat, flag: Flag, repo: Repo)
    requires Ordered(h) && Ordered(Strip(h)) && NoSweeps(Strip(h)) && ActiveIn(Run(h, ttl), ttl, now, flag, repo)
    ensures ActiveIn(Run(Strip(h), ttl), ttl, now, flag, repo)
  {
    ActiveMeansAsked(h, repo, flag, ttl, now);
    var u, i: nat :| AskedAt(h, i, u, repo, flag, ttl) && TouchedWithin(h, i, u, now, ttl);
    StripAt(h, i);
    TouchLifts(h, i, u, now, ttl);
    ActiveMeansAsked(Strip(h), repo, flag, ttl, now);
  }

  /** Someone who has not lapsed by the end had not lapsed at any time before. */
  lemma {:induction false} HadNotLapsed(f: History, j: nat, v: string, ttl: nat, c: nat, now: nat)
    requires Ordered(f) && j < c <= |f| && Touches(f[j].op, v) && NoLapse(f, j, v, ttl)
    requires (forall b | c <= b < |f| :: now <= f[b].time) && now < LastTouch(f, v) + ttl
    ensures TouchedWithin(f[..c], j, v, now, ttl)
    decreases |f|
  {
    if c == |f| {
      assert f[..c] == f;
      LastTouchDecides(f, j, v, now, ttl);
    } else {
      var n := |f| - 1;
      var init := f[..n];
      if Touches(f[n].op, v) {
        LastTouchDecides(init, j, v, f[n].time, ttl);
      }
      assert forall b | j < b < n :: init[..b] == f[..b];
      assert init[..c] == f[..c];
      HadNotLapsed(init, j, v, ttl, c, now);
    }
  }

  /** So every sweep leaves its entry alone. */
  lemma StandInSurvives(h: History, p: nat, v: string, ttl: nat, now: nat)
    requires Ordered(h) && Ordered(Strip(h)) && p < |h| && Touches(h[p].op, v) && forall e | e in h :: e.time <= now
    requires NoLapse(Strip(h), |Strip(h[..p])|, v, ttl) && now < LastTouch(Strip(h), v) + ttl
    ensures Survives(h, p, v, ttl)
  {
    var f, j := Strip(h), |Strip(h[..p])|;
    StripAt(h, p);
    forall s | p < s < |h| && h[s].op.Sweep? ensures TouchedWithin(h[..s], p, v, h[s].time, ttl) {
      var c := |Strip(h[..s])|;
      StripOrder(h, p, s);
      StripPrefix(h, s);
      assert h[s] in h;
      forall b | c <= b < |f| ensures h[s].time <= f[b].time {
        LaterThanSweep(h, s, b);
      }
      HadNotLapsed(f, j, v, ttl, c, h[s].time);
      assert f[..c] == Strip(h[..s]) && h[..s][..p] == h[..p];
      TouchLifts(h[..s], p, v, h[s].time, ttl);
    }
  }

  lemma LaterThanSweep(h: History, s: nat, b: nat)
    requires Ordered(h) && s < |h| && |Strip(h[..s])| <= b < |Strip(h)|
    ensures h[s].time <= Strip(h)[b].time
  {
    var k := StripFound(h, b);
    if k < s {
      StripOrder(h, k, s);
    }
  }

  lemma CoveredIsActive(h: History, u: string, ttl: nat, now: nat, flag: Flag, repo: Repo)
    requires Ordered(h) && Ordered(Strip(h)) && forall e | e in h :: e.time <= now
    requires Covered(Strip(h), u, repo, flag, ttl) && now < LastTouch(Strip(h), u) + ttl
    ensures ActiveIn(Run(h, ttl), ttl, now, flag, repo)
  {
    var f := Strip(h);
    var v, j: nat :| StandsIn(f, j, v, u, repo, flag, ttl);
    var p := StripFound(h, j);
    StandInSurvives(h, p, v, ttl, now);
    LastTouchDecides(f, j, v, now, ttl);
    TouchLifts(h, p, v, now, ttl);
    assert AskedAt(h, p, v, repo, flag, ttl);
    ActiveMeansAsked(h, repo, flag, ttl, now);
  }

  lemma CoveredNoChange(g: History, ttl: nat, h: History, now: nat)
    requires Ordered(g) && Strip(g) == g && AllCovered(g, ttl) && SweptVersion(h, g, now)
    ensures SameAnswers(Run(h, ttl), Run(Strip(h), ttl), ttl, now)
  {
    var f := Strip(h);
    StripHasNone(g);
    assert NoSweeps(f) by {
      assert forall i | 0 <= i < |f| :: f[i] == g[i];
    }
    StripTimes(h, now);
    forall flag, repo
      ensures ActiveIn(Run(h, ttl), ttl, now, flag, repo) <==> ActiveIn(Run(f, ttl), ttl, now, flag, repo) {
      if ActiveIn(Run(h, ttl), ttl, now, flag, repo) {
        ActiveWithoutSweeps(h, ttl, now, flag, repo);
      }
      if ActiveIn(Run(f, ttl), ttl, now, flag, repo) {
        var u := HeardWhenActive(f, g, ttl, now, flag, repo);
        CoveredIsActive(h, u, ttl, now, flag, repo);
      }
    }
  }

  lemma HeardWhenActive(f: History, g: History, ttl: nat, now: nat, flag: Flag, repo: Repo) returns (u: string)
    requires Ordered(f) && f <= g && AllCovered(g, ttl) && (forall e | e in f :: e.time <= now)
    requires ActiveIn(Run(f, ttl), ttl, now, flag, repo)
    ensures Covered(f, u, repo, flag, ttl) && now < LastTouch(f, u) + ttl
  {
    ActiveMeansAsked(f, repo, flag, ttl, now);
    var i: nat;
    u, i :| AskedAt(f, i, u, repo, flag, ttl) && TouchedWithin(f, i, u, now, ttl);
    LastTouchDecides(f, i, u, now, ttl);
    assert f[|f| - 1] in f;
    LastTouchDecides(f, i, u, f[|f| - 1].time, ttl);
    assert g[..|f|] == f;
    assert Heard(g[..|f|], i, u, repo, flag, ttl);
  }

  // ---- if no sweep shows, every one that is heard is covered ---------------------------------------

  /** A sweep just before every request. */
  function EverySwept(f: History): (h: History)
    ensures |h| == 2 * |f|
  {
    if f == [] then []
    else EverySwept(f[..|f| - 1]) + [Event(f[|f| - 1].time, Sweep), f[|f| - 1]]
  }

  lemma {:induction false} EverySweptStrips(f: History)
    requires NoSweeps(f)
    ensures Strip(EverySwept(f)) == f
  {
    if f != [] {
      var init, last := f[..|f| - 1], f[|f| - 1];
      EverySweptStrips(init);
      SweptPair(EverySwept(init), last);
      assert init + [last] == f;
    }
  }

  lemma SweptPair(h: History, e: Event)
    requires !e.op.Sweep?
    ensures Strip(h + [Event(e.time, Sweep), e]) == Strip(h) + [e]
  {
    assert h + [Event(e.time, Sweep)] + [e] == h + [Event(e.time, Sweep), e];
    assert Strip(h) + [] == Strip(h);
  }

  lemma {:induction false} EverySweptTime(f: History, k: nat)
    requires k < 2 * |f|
    ensures EverySwept(f)[k].time == f[k / 2].time
  {
    var n := |f| - 1;
    if k < 2 * n {
      EverySweptTime(f[..n], k);
    } else {
      assert k / 2 == n;
    }
  }

  lemma {:induction false} EverySweptAt(f: History, b: nat)
    requires b < |f|
    ensures EverySwept(f)[2 * b] == Event(f[b].time, Sweep) && EverySwept(f)[..2 * b] == EverySwept(f[..b])
  {
    var n := |f| - 1;
    if b < n {
      var init := f[..n];
      EverySweptAt(init, b);
      assert init[..b] == f[..b] && init[b] == f[b];
    } else {
    }
  }

  lemma EverySweptVersion(f: History, g: History, now: nat)
    requires f <= g && Ordered(g) && NoSweeps(f) && f != [] && f[|f| - 1].time <= now
    ensures SweptVersion(EverySwept(f), g, now)
  {
    var h := EverySwept(f);
    EverySweptStrips(f);
    EverySweptOrdered(f);
    forall e | e in h ensures e.time <= now {
      var k: nat :| k < |h| && h[k] == e;
      EverySweptTime(f, k);
      assert f[k / 2].time <= f[|f| - 1].time;
    }
  }

  lemma EverySweptOrdered(f: History)
    requires Ordered(f)
    ensures Ordered(EverySwept(f))
  {
    var h := EverySwept(f);
    forall i, j | 0 <= i < j < |h| ensures h[i].time <= h[j].time {
      EverySweptTime(f, i);
      EverySweptTime(f, j);
      assert i / 2 <= j / 2;
    }
  }

  /** An entry that outlives a sweep before every request has never lapsed. */
  lemma SurvivorNeverLapsed(f: History, i: nat, v: string, ttl: nat)
    requires NoSweeps(f) && i < |EverySwept(f)| && !EverySwept(f)[i].op.Sweep? && Survives(EverySwept(f), i, v, ttl)
    ensures NoLapse(f, |Strip(EverySwept(f)[..i])|, v, ttl)
  {
    var h, j := EverySwept(f), |Strip(EverySwept(f)[..i])|;
    forall b | j < b < |f| && Touches(f[b].op, v) ensures TouchedWithin(f[..b], j, v, f[b].time, ttl) {
      SurvivorAtSweep(f, i, v, ttl, b);
    }
  }

  lemma SurvivorAtSweep(f: History, i: nat, v: string, ttl: nat, b: nat)
    requires NoSweeps(f) && i < |EverySwept(f)| && Survives(EverySwept(f), i, v, ttl)
    requires |Strip(EverySwept(f)[..i])| < b < |f|
    ensures TouchedWithin(f[..b], |Strip(EverySwept(f)[..i])|, v, f[b].time, ttl)
  {
    var h, s := EverySwept(f), 2 * b;
    EverySweptAt(f, b);
    EverySweptStrips(f[..b]);
    if s <= i {
      StripOrder(h, s, i);
    } else {
      TouchLifts(h[..s], i, v, h[s].time, ttl);
      assert h[..s][..i] == h[..i];
    }
  }

  lemma UnchangedIsCovered(g: History, ttl: nat, f: History, i: nat, u: string, repo: Repo, flag: Flag)
    requires Ordered(g) && NoSweeps(g) && AnswersUnchanged(g, ttl) && f <= g && Heard(f, i, u, repo, flag, ttl)
    ensures Covered(f, u, repo, flag, ttl)
  {
    assert NoSweeps(f) by {
      assert forall k | 0 <= k < |f| :: f[k] == g[k];
    }
    LastTouchDecides(f, i, u, f[|f| - 1].time, ttl);
    var now := LastTouch(f, u) + ttl - 1;
    LastTouchIsEarlier(f, u);
    assert f[|f| - 1].time <= now;
    LastTouchDecides(f, i, u, now, ttl);
    ActiveMeansAsked(f, repo, flag, ttl, now);
    EverySweptVersion(f, g, now);
    EverySweptStrips(f);
    var h := EverySwept(f);
    assert SameAnswers(Run(h, ttl), Run(Strip(h), ttl), ttl, now);
    assert ActiveIn(Run(h, ttl), ttl, now, flag, repo);
    SurvivorCovers(f, u, ttl, now, flag, repo);
  }

  lemma SurvivorCovers(f: History, u: string, ttl: nat, now: nat, flag: Flag, repo: Repo)
    requires Ordered(f) && NoSweeps(f) && Ordered(EverySwept(f)) && now == LastTouch(f, u) + ttl - 1
    requires ActiveIn(Run(EverySwept(f), ttl), ttl, now, flag, repo)
    ensures Covered(f, u, repo, flag, ttl)
  {
    var h := EverySwept(f);
    EverySweptStrips(f);
    ActiveMeansAsked(h, repo, flag, ttl, now);
    var v, k: nat :| AskedAt(h, k, v, repo, flag, ttl) && TouchedWithin(h, k, v, now, ttl);
    var j := |Strip(h[..k])|;
    StripAt(h, k);
    SurvivorNeverLapsed(f, k, v, ttl);
    TouchLifts(h, k, v, now, ttl);
    LastTouchDecides(f, j, v, now, ttl);
    assert StandsIn(f, j, v, u, repo, flag, ttl);
  }

  lemma {:induction false} LastTouchIsEarlier(f: History, u: string)
    requires Ordered(f) && f != []
    ensures LastTouch(f, u) <= f[|f| - 1].time
  {
    if !Touches(f[|f| - 1].op, u) && |f| > 1 {
      LastTouchIsEarlier(f[..|f| - 1], u);
    }
  }

  /**
   * Sweeping changes no answer of the active-repository queries if and only if, after every request,
   * whatever some live subscriber ever asked for is also held by one that has never been silent for
   * the ttl since it asked, and that was touched no earlier.
   */
  lemma AnswersUnchangedIff(g: History, ttl: nat)
    requires Ordered(g) && Strip(g) == g
    ensures AnswersUnchanged(g, ttl) <==> AllCovered(g, ttl)
  {
    StripHasNone(g);
    if AnswersUnchanged(g, ttl) {
      forall m: nat, i: nat, u, repo, flag | m <= |g| && Heard(g[..m], i, u, repo, flag, ttl)
        ensures Covered(g[..m], u, repo, flag, ttl) {
        UnchangedIsCovered(g, ttl, g[..m], i, u, repo, flag);
      }
    }
    if AllCovered(g, ttl) {
      forall h, now | SweptVersion(h, g, now) ensures SameAnswers(Run(h, ttl), Run(Strip(h), ttl), ttl, now) {
        CoveredNoChange(g, ttl, h, now);
      }
    }
  }

  /** A revival that shows in the entries and in no answer: nothing was asked for. */
  lemma IdleRevivalIsUnseen(repo: Repo)
    ensures var g := [Event(0, Upsert("u", repo, false, false)), Event(100, Heartbeat("u"))];
            !NeverRevives(g, 10) && AnswersUnchanged(g, 10)
  {
    var first, second := Event(0, Upsert("u", repo, false, false)), Event(100, Heartbeat("u"));
    var g := [first, second];
    assert g[..1] == [first] && [first][..0] == [];
    assert Strip([first]) == [first] && Strip(g) == g;
    assert Run([first], 10) == map["u" := Sub(0, [RepoSub(repo, false, false)])];
    assert !Harmless(Run(g[..1], 10), 10, g[1]);
    forall m: nat, i: nat, u, r, flag | m <= |g| ensures !Heard(g[..m], i, u, r, flag, 10) {
      assert i < m ==> g[..m][i] == g[i];
    }
    AnswersUnchangedIff(g, 10);
  }
}
