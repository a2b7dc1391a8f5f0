/** The table of subscribers: who asked for which repositories, and until when. */
module Subscriptions {
  import opened Wrappers

  // Instants are natural numbers that never go backwards; an entry is live while less than `ttl` has
  // passed since it was last touched. `permit` is the one stored permit of the `Notify`.

  type Repo = (string, string)

  datatype RepoSub = RepoSub(repo: Repo, prSync: bool, notifications: bool)

  datatype Sub = Sub(lastSeen: nat, repos: seq<RepoSub>)

  type Table = map<string, Sub>

  datatype Flag = PrSync | Notifications

  predicate Has(r: RepoSub, flag: Flag) {
    if flag.PrSync? then r.prSync else r.notifications
  }

  datatype Op =
    | Upsert(uuid: string, repo: Repo, prSync: bool, notifications: bool)
    | Heartbeat(uuid: string)
    | Sweep

  // ---- one operation ------------------------------------------------------------------

  predicate Lists(repos: seq<RepoSub>, repo: Repo) {
    exists i :: 0 <= i < |repos| && repos[i].repo == repo
  }

  /** The first listed entry of the repository gains the flags; an unlisted repository is appended. */
  function Merge(repos: seq<RepoSub>, repo: Repo, prSync: bool, notifications: bool): seq<RepoSub> {
    if repos == [] then [RepoSub(repo, prSync, notifications)]
    else if repos[0].repo == repo then
      [RepoSub(repo, repos[0].prSync || prSync, repos[0].notifications || notifications)] + repos[1..]
    else [repos[0]] + Merge(repos[1..], repo, prSync, notifications)
  }

  function ReposOf(t: Table, uuid: string): seq<RepoSub> {
    if uuid in t then t[uuid].repos else []
  }

  function Apply(t: Table, ttl: nat, op: Op, now: nat): Table {
    match op
    case Upsert(u, repo, p, n) => t[u := Sub(now, Merge(ReposOf(t, u), repo, p, n))]
    case Heartbeat(u) => if u in t then t[u := Sub(now, t[u].repos)] else t
    case Sweep => map u | u in t && now < t[u].lastSeen + ttl :: t[u]
  }

  predicate Live(s: Sub, ttl: nat, now: nat) {
    now < s.lastSeen + ttl
  }

  predicate HasFlag(repos: seq<RepoSub>, repo: Repo, flag: Flag) {
    exists i :: 0 <= i < |repos| && repos[i].repo == repo && Has(repos[i], flag)
  }

  predicate Counts(s: Sub, ttl: nat, now: nat, flag: Flag, repo: Repo) {
    Live(s, ttl, now) && HasFlag(s.repos, repo, flag)
  }

  predicate ActiveIn(t: Table, ttl: nat, now: nat, flag: Flag, repo: Repo) {
    exists u | u in t :: Counts(t[u], ttl, now, flag, repo)
  }

  // ---- the object ---------------------------------------------------------------------

  class Subscriptions {
    var inner: Table
    const ttl: nat
    var permit: bool

    constructor (ttl: nat)
      ensures this.ttl == ttl && inner == map[] && !permit
    {
      this.ttl, inner, permit := ttl, map[], false;
    }

    method Upsert(uuid: string, repo: Repo, prSync: bool, notifications: bool, now: nat)
      modifies this
      ensures inner == Apply(old(inner), ttl, Op.Upsert(uuid, repo, prSync, notifications), now)
      ensures permit == (old(permit) || !Lists(ReposOf(old(inner), uuid), repo))
    {
      var repos := if uuid in inner then inner[uuid].repos else [];
      var i := 0;
      while i < |repos| && repos[i].repo != repo
        invariant i <= |repos| && forall j | 0 <= j < i :: repos[j].repo != repo
      {
        i := i + 1;
      }
      MergeIs(repos, repo, prSync, notifications, i);
      if i < |repos| {
        var r := repos[i];
        inner := inner[uuid := Sub(now,
                                   repos[i := RepoSub(repo, r.prSync || prSync, r.notifications || notifications)])];
      } else {
        inner := inner[uuid := Sub(now, repos + [RepoSub(repo, prSync, notifications)])];
        permit := true;
      }
    }

    method Heartbeat(uuid: string, now: nat) returns (known: bool)
      modifies this`inner
      ensures known == (uuid in old(inner))
      ensures inner == Apply(old(inner), ttl, Op.Heartbeat(uuid), now)
    {
      known := uuid in inner;
      if known {
        inner := inner[uuid := Sub(now, inner[uuid].repos)];
      }
    }

    method Sweep(now: nat)
      modifies this`inner
      ensures inner == Apply(old(inner), ttl, Op.Sweep, now)
    {
      inner := map u | u in inner && now < inner[u].lastSeen + ttl :: inner[u];
    }

    /** Collects the repositories that some live subscriber has the flag for. */
    method ActiveRepos(flag: Flag, now: nat) returns (active: set<Repo>)
      ensures forall repo :: repo in active <==> ActiveIn(inner, ttl, now, flag, repo)
    {
      active := {};
      var rest := inner;
      ghost var done: Table := map[];
      while rest != map[]
        invariant done.Keys !! rest.Keys && inner == done + rest
        invariant forall repo :: repo in active <==> ActiveIn(done, ttl, now, flag, repo)
        decreases |rest|
      {
        var u :| u in rest;
        var sub := rest[u];
        OneMoreEntry(done, u, sub, ttl, now, flag);
        if now < sub.lastSeen + ttl {
          var flagged := Flagged(sub.repos, flag);
          active := active + flagged;
        }
        MoveEntry(done, rest, u);
        done, rest := done[u := sub], rest - {u};
      }
      assert inner == done;
    }
  }

  lemma MoveEntry(done: Table, rest: Table, u: string)
    requires done.Keys !! rest.Keys && u in rest
    ensures done[u := rest[u]].Keys !! (rest - {u}).Keys
    ensures done[u := rest[u]] + (rest - {u}) == done + rest
  {
    var moved, all := done[u := rest[u]] + (rest - {u}), done + rest;
    assert moved.Keys == all.Keys;
    forall v | v in all ensures moved[v] == all[v] {
    }
  }

  /** The repositories of one subscriber that carry the flag. */
  method Flagged(repos: seq<RepoSub>, flag: Flag) returns (flagged: set<Repo>)
    ensures forall repo :: repo in flagged <==> HasFlag(repos, repo, flag)
  {
    flagged := {};
    for i := 0 to |repos|
      invariant forall repo :: repo in flagged <==> HasFlag(repos[..i], repo, flag)
    {
      forall repo {
        OneMoreRepo(repos, i, repo, flag);
      }
      if Has(repos[i], flag) {
        flagged := flagged + {repos[i].repo};
      }
    }
    assert repos[..|repos|] == repos;
  }

  lemma OneMoreRepo(repos: seq<RepoSub>, i: nat, repo: Repo, flag: Flag)
    requires i < |repos|
    ensures HasFlag(repos[..i + 1], repo, flag) <==>
            (HasFlag(repos[..i], repo, flag) || (repos[i].repo == repo && Has(repos[i], flag)))
  {
    var more := repos[..i + 1];
    assert more[i] == repos[i] && forall k | 0 <= k < i :: more[k] == repos[..i][k];
    if HasFlag(repos[..i], repo, flag) {
      var k :| 0 <= k < i && repos[..i][k].repo == repo && Has(repos[..i][k], flag);
      assert more[k].repo == repo;
    }
  }

  lemma OneMoreEntry(t: Table, u: string, sub: Sub, ttl: nat, now: nat, flag: Flag)
    requires u !in t
    ensures forall repo :: ActiveIn(t[u := sub], ttl, now, flag, repo) <==>
                           (ActiveIn(t, ttl, now, flag, repo) || Counts(sub, ttl, now, flag, repo))
  {
    var t' := t[u := sub];
    forall repo | ActiveIn(t, ttl, now, flag, repo) ensures ActiveIn(t', ttl, now, flag, repo) {
      var v :| v in t && Counts(t[v], ttl, now, flag, repo);
      assert v in t' && Counts(t'[v], ttl, now, flag, repo);
    }
    forall repo | Counts(sub, ttl, now, flag, repo) ensures ActiveIn(t', ttl, now, flag, repo) {
      assert u in t' && Counts(t'[u], ttl, now, flag, repo);
    }
  }

  lemma {:induction false} MergeIs(repos: seq<RepoSub>, repo: Repo, p: bool, n: bool, i: nat)
    requires i <= |repos| && (i < |repos| ==> repos[i].repo == repo)
    requires forall j | 0 <= j < i :: repos[j].repo != repo
    ensures i < |repos| ==>
            Merge(repos, repo, p, n) == repos[i := RepoSub(repo, repos[i].prSync || p, repos[i].notifications || n)]
    ensures i == |repos| ==> Merge(repos, repo, p, n) == repos + [RepoSub(repo, p, n)]
    ensures i < |repos| <==> Lists(repos, repo)
  {
    if i > 0 {
      MergeIs(repos[1..], repo, p, n, i - 1);
    }
  }
}
