/**
 * The tables that a sync pass reads and writes, as maps from their UNIQUE keys, and the connection
 * through which it does so. Answers from GitHub come with their JSON fields already extracted.
 */
module Database {
  import opened Wrappers
  import opened ChangeLog

  type Slug = (string, string)

  datatype RepoRow = RepoRow(id: nat, defaultBranch: string)

  datatype PrState = Open | Merged | Closed

  datatype Review = Review(author: Option<string>, state: string)

  datatype Check = Check(state: string, url: Option<string>, description: Option<string>)

  /**
   * A pull request with its dependent rows: `labels` maps a label to its colour, `checks` a context to
   * its status; `rest` stands for the columns copied without a decision.
   */
  datatype PrRow = PrRow(
    id: nat, state: PrState, title: string, headRef: Option<string>, headSha: Option<string>,
    createdAt: string, updatedAt: string, labels: map<string, Option<string>>, reviews: map<int, Review>,
    reviewers: set<string>, checks: map<string, Check>, rest: string)

  datatype EventRow = EventRow(id: nat, kind: string, actor: Option<string>, payload: EventPayload, createdAt: string)

  /** The payload fields that the program looks at, and the text of the whole payload. */
  datatype EventPayload = EventPayload(
    number: Option<int>, pullRequestNumber: Option<int>, gitRef: Option<string>, sha: Option<string>,
    checkRunSha: Option<string>, checkSuiteSha: Option<string>, text: string)

  datatype PollState = PollState(etag: Option<string>, lastModified: Option<string>, interval: Option<int>,
                                 lastPolled: nat)

  datatype Db = Db(
    repos: map<Slug, RepoRow>, repoSeq: nat,
    prs: map<(nat, int), PrRow>, prSeq: nat,
    events: map<(nat, string), EventRow>, eventSeq: nat,
    polls: map<string, PollState>,
    log: Log)

  /** Repository ids are unique, and the counter has given them out. */
  ghost predicate KnownIds(db: Db) {
    && (forall r | r in db.repos :: 0 < db.repos[r].id <= db.repoSeq)
    && (forall r, s | r in db.repos && s in db.repos && db.repos[r].id == db.repos[s].id :: r == s)
  }

  /** Ids are unique within each table and none is above its AUTOINCREMENT counter. */
  ghost predicate Valid(db: Db) {
    && db.log.Valid()
    && KnownIds(db)
    && (forall k | k in db.prs :: 0 < db.prs[k].id <= db.prSeq)
    && (forall k, l | k in db.prs && l in db.prs && db.prs[k].id == db.prs[l].id :: k == l)
    && (forall k | k in db.events :: 0 < db.events[k].id <= db.eventSeq)
    && (forall k, l | k in db.events && l in db.events && db.events[k].id == db.events[l].id :: k == l)
  }

  function SlugText(slug: Slug): string {
    slug.0 + "/" + slug.1
  }

  function LogChange(db: Db, entity: Entity, id: nat, event: ChangeEvent, slug: string): Db {
    db.(log := db.log.Append(entity, id, event, Some(slug), None))
  }

  /** INSERT ... ON CONFLICT(owner, name) DO UPDATE SET default_branch. */
  function UpsertRepo(db: Db, slug: Slug, defaultBranch: string): (Db, nat) {
    if slug in db.repos then
      (db.(repos := db.repos[slug := db.repos[slug].(defaultBranch := defaultBranch)]), db.repos[slug].id)
    else
      (db.(repos := db.repos[slug := RepoRow(db.repoSeq + 1, defaultBranch)], repoSeq := db.repoSeq + 1),
       db.repoSeq + 1)
  }

  /** A known repository keeps its id, a new one gets an id never used, and no other repository changes. */
  lemma UpsertRepoKeepsIds(db: Db, slug: Slug, defaultBranch: string, other: Slug)
    requires Valid(db)
    ensures var (db', id) := UpsertRepo(db, slug, defaultBranch);
            && Valid(db') && slug in db'.repos && db'.repos[slug] == RepoRow(id, defaultBranch)
            && (if slug in db.repos then id == db.repos[slug].id else id > db.repoSeq)
            && (other != slug ==>
                (other in db'.repos <==> other in db.repos)
                    && (other in db.repos ==> db'.repos[other] == db.repos[other]))
            && (other != slug && other in db'.repos ==> db'.repos[other].id != id)
  {
  }

  function GetPollState(db: Db, endpoint: string): Option<PollState> {
    if endpoint in db.polls then Some(db.polls[endpoint]) else None
  }

  /** Everything is overwritten except an interval that the answer does not carry. */
  function SetPollState(db: Db, endpoint: string, etag: Option<string>, lastModified: Option<string>,
                        interval: Option<int>, now: nat): Db
  {
    var kept := if interval.None? && endpoint in db.polls then db.polls[endpoint].interval else interval;
    db.(polls := db.polls[endpoint := PollState(etag, lastModified, kept, now)])
  }

  function Or<T>(x: Option<T>, default: T): T {
    if x.Some? then x.value else default
  }

  class Connection {
    var db: Db

    constructor (db: Db)
      ensures this.db == db
    {
      this.db := db;
    }
  }
}
