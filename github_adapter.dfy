/**
 * The admission filter of the root pipeline (github_adapter.py). Each
 * repository from the search feed passes, in order: the name/description
 * keyword scan, the age gate, a snapshot and the growth query, the
 * activity-or-viral gate, the README quality gate, the late README keyword
 * check, and signal extraction. The scan stops once `limit` candidates are
 * accepted. A repository is a record of what the GitHub client would
 * fetch; each is examined at one clock reading.
 */
module GithubAdapter {
  import opened Wrappers
  import opened Clock
  import opened Text
  import opened Schemas
  import opened Database

  /** One of these must occur in the name, description or README. */
  const TARGET_KEYWORDS: seq<string> := ["agent", "orchestration", "inference", "rag", "eval",
                                         "workflow", "automation", "devtools", "infra", "observability"]
  /** A meaningful README mentions at least two of these. */
  const README_KEYWORDS: seq<string> := ["use case", "problem", "solution", "why", "example",
                                         "quickstart", "demo", "workflow"]
  /** Operational words counted as production signals. */
  const PROD_KEYWORDS: seq<string> := ["production", "deploy", "self-hosted", "on-prem", "latency", "cost"]

  const MAX_AGE_DAYS: int := 90
  const ACTIVE_DAYS: int := 14
  const VIRAL_GROWTH: int := 30
  const MIN_README_LENGTH: int := 800
  const MIN_README_KEYWORDS: int := 2
  const README_EXCERPT: int := 3000

  /**
   * A search result. `readme` and `files` are `None` when fetching them
   * failed; the adapter then sees an empty text and an empty listing.
   */
  datatype Repo = Repo(
    name: string,
    description: Option<string>,
    htmlUrl: string,
    createdAt: int,
    pushedAt: int,
    stargazersCount: int,
    readme: Option<string>,
    files: Option<seq<string>>)

  /** A repository of the feed together with the clock reading it is examined at. */
  datatype Visit = Visit(repo: Repo, now: int)

  /** Why a repository was turned away. */
  datatype Rejection = TooOld | Inactive | WeakReadme | NoKeyword

  /** What the gates make of one repository. */
  datatype Screened = Rejected(reason: Rejection) | Accepted(candidate: NormalizedProject)

  /** `_get_readme`: the README, or "" when it cannot be fetched. */
  function ReadmeText(repo: Repo): string {
    repo.readme.GetOr("")
  }

  /** `_get_file_structure`: the root listing, or [] when it cannot be fetched. */
  function FileStructure(repo: Repo): seq<string> {
    repo.files.GetOr([])
  }

  /** The text the early keyword scan looks at: name, a space, description. */
  function MetaText(repo: Repo): string {
    Lower(repo.name + " " + repo.description.GetOr(""))
  }

  /** No quality keyword is listed twice. */
  lemma ReadmeKeywordsDistinct()
    ensures Distinct(README_KEYWORDS)
  {
  }

  /** No operational keyword is listed twice. */
  lemma ProdKeywordsDistinct()
    ensures Distinct(PROD_KEYWORDS)
  {
  }

  /**
   * `_is_readme_meaningful`: at least 800 characters and at least two
   * distinct quality keywords in the lower-cased text.
   */
  function IsReadmeMeaningful(content: string): (b: bool)
    ensures b <==> |content| >= MIN_README_LENGTH && |FoundSet(README_KEYWORDS, Lower(content))| >= MIN_README_KEYWORDS
    ensures |content| < MIN_README_LENGTH ==> !b
  {
    ReadmeKeywordsDistinct();
    FoundCountsDistinct(README_KEYWORDS, Lower(content));
    |content| >= MIN_README_LENGTH && |Found(README_KEYWORDS, Lower(content))| >= MIN_README_KEYWORDS
  }

  function BoolToInt(b: bool): int { if b then 1 else 0 }

  /**
   * `_extract_production_signals`: a Docker marker in some path (case
   * folded), a CI directory in some path (case kept), plus the number of
   * distinct operational keywords in the README. An empty listing has
   * neither marker; the total never exceeds 2 + 6.
   */
  function ExtractProductionSignals(files: seq<string>, readme: string): (s: ProductionSignals)
    ensures s.hasDocker <==> exists f :: f in files && Contains(Lower(f), "docker")
    ensures s.hasCi <==> exists f :: f in files && (Contains(f, ".github/workflows") || Contains(f, ".circleci"))
    ensures files == [] ==> !s.hasDocker && !s.hasCi
    ensures s.productionSignalsCount
            == BoolToInt(s.hasDocker) + BoolToInt(s.hasCi) + |FoundSet(PROD_KEYWORDS, Lower(readme))|
    ensures 0 <= s.productionSignalsCount <= 2 + |PROD_KEYWORDS|
    ensures s.categoryGuess == "other" && s.categoryConfidence == 0.0
  {
    var hasDocker := exists f :: f in files && Contains(Lower(f), "docker");
    var hasCi := exists f :: f in files && (Contains(f, ".github/workflows") || Contains(f, ".circleci"));
    ProdKeywordsDistinct();
    FoundCountsDistinct(PROD_KEYWORDS, Lower(readme));
    var keywordCount := |Found(PROD_KEYWORDS, Lower(readme))|;
    ProductionSignals(hasDocker, hasCi, BoolToInt(hasDocker) + BoolToInt(hasCi) + keywordCount, "other", 0.0)
  }

  /** Python's `str(files)` for a list of paths: `['a', 'b']` (escaping aside). */
  function ListRepr(files: seq<string>): string {
    "[" + QuotedItems(files) + "]"
  }

  function QuotedItems(files: seq<string>): string {
    if files == [] then ""
    else if |files| == 1 then "'" + files[0] + "'"
    else "'" + files[0] + "', " + QuotedItems(files[1..])
  }

  /** The context handed to the scorer: the first 3000 README characters and the listing. */
  function RawText(readme: string, files: seq<string>): (r: string)
    ensures var n := if |readme| <= README_EXCERPT then |readme| else README_EXCERPT;
      && |r| >= 8 + n
      && r[..8] == "README:\n" && r[8..8 + n] == readme[..n]
      && r[8 + n..] == "\n\nFILE STRUCTURE:\n" + ListRepr(files)
  {
    var excerpt := if |readme| <= README_EXCERPT then readme else readme[..README_EXCERPT];
    "README:\n" + excerpt + "\n\nFILE STRUCTURE:\n" + ListRepr(files)
  }

  /**
   * The normalised candidate: the reported 24h growth is the real delta
   * from the store (0 without windowed data), never the filtering proxy.
   */
  function Candidate(repo: Repo, ageDays: int, starsGrowth: int): (c: NormalizedProject)
    ensures c.id == repo.htmlUrl && c.url == repo.htmlUrl && c.title == repo.name && c.source == "github"
    ensures c.description == repo.description && c.createdAt == repo.createdAt
    ensures c.metrics == ProjectMetrics(repo.stargazersCount, ageDays, repo.pushedAt, starsGrowth, 0)
    ensures c.signals == ExtractProductionSignals(FileStructure(repo), ReadmeText(repo))
    ensures c.rawText == RawText(ReadmeText(repo), FileStructure(repo))
  {
    var readme := ReadmeText(repo);
    NormalizedProject(
      id := repo.htmlUrl,
      title := repo.name,
      url := repo.htmlUrl,
      metrics := ProjectMetrics(
        starsTotal := repo.stargazersCount,
        ageDays := ageDays,
        lastCommitDate := repo.pushedAt,
        stars24h := starsGrowth,
        forks24h := 0),
      signals := ExtractProductionSignals(FileStructure(repo), readme),
      rawText := RawText(readme, FileStructure(repo)),
      createdAt := repo.createdAt,
      description := repo.description,
      source := "github")
  }

  /** The growth figure the activity gate uses: total stars when no windowed sample exists. */
  function EffectiveGrowth(g: Growth, totalStars: int): int {
    if g.isReal then g.starsGained else totalStars
  }

  /** The snapshot the adapter saves for a repository. */
  function SnapshotOf(v: Visit): StarRow {
    StarRow(v.repo.htmlUrl, v.repo.stargazersCount, v.now)
  }

  /**
   * One iteration of the scan over `star_history` = `rows`: the new table
   * and what the gates decided, or the error the snapshot insert raised.
   * A repository older than 90 days is turned away before any snapshot;
   * every other one gets exactly one snapshot before its growth is read.
   */
  function Screen(rows: seq<StarRow>, v: Visit): (r: Result<(seq<StarRow>, Screened), DbError>)
    ensures Days(v.now, v.repo.createdAt) > MAX_AGE_DAYS ==> r == Success((rows, Rejected(TooOld)))
    ensures Days(v.now, v.repo.createdAt) <= MAX_AGE_DAYS ==>
      (r.Failure? <==> HasKey(rows, v.repo.htmlUrl, v.now))
    ensures Days(v.now, v.repo.createdAt) <= MAX_AGE_DAYS && r.Success? ==> r.value.0 == rows + [SnapshotOf(v)]
  {
    var repo, now := v.repo, v.now;
    var keywordsFoundInMeta := AnyIn(TARGET_KEYWORDS, MetaText(repo));
    var ageDays := Days(now, repo.createdAt);
    if ageDays > MAX_AGE_DAYS then Success((rows, Rejected(TooOld)))
    else if HasKey(rows, repo.htmlUrl, now) then Failure(IntegrityError)
    else
      var saved := rows + [SnapshotOf(v)];
      var growth := GrowthStats(saved, repo.htmlUrl, repo.stargazersCount, now);
      var effective := EffectiveGrowth(growth, repo.stargazersCount);
      var isActive := Days(now, repo.pushedAt) <= ACTIVE_DAYS;
      var isViral := effective >= VIRAL_GROWTH;
      var readme := ReadmeText(repo);
      if !(isActive || isViral) then Success((saved, Rejected(Inactive)))
      else if !IsReadmeMeaningful(readme) then Success((saved, Rejected(WeakReadme)))
      else if !keywordsFoundInMeta && !AnyIn(TARGET_KEYWORDS, Lower(readme)) then Success((saved, Rejected(NoKeyword)))
      else Success((saved, Accepted(Candidate(repo, ageDays, growth.starsGained))))
  }

  /**
   * The gates, stated on their own: a repository is accepted iff it is at
   * most 90 days old, its snapshot could be stored, it was pushed within
   * 14 days or its effective growth reaches 30, its README is meaningful,
   * and a target keyword occurs in its name/description or README.
   */
  lemma ScreenAcceptsIff(rows: seq<StarRow>, v: Visit)
    ensures Screen(rows, v).Success? && Screen(rows, v).value.1.Accepted? <==>
      var repo := v.repo;
      var growth := GrowthStats(rows + [SnapshotOf(v)], repo.htmlUrl, repo.stargazersCount, v.now);
      && Days(v.now, repo.createdAt) <= MAX_AGE_DAYS
      && !HasKey(rows, repo.htmlUrl, v.now)
      && (Days(v.now, repo.pushedAt) <= ACTIVE_DAYS || EffectiveGrowth(growth, repo.stargazersCount) >= VIRAL_GROWTH)
      && IsReadmeMeaningful(ReadmeText(repo))
      && (AnyIn(TARGET_KEYWORDS, MetaText(repo)) || AnyIn(TARGET_KEYWORDS, Lower(ReadmeText(repo))))
  {
  }

  /** What an accepted candidate says about the repository it came from. */
  ghost predicate Admitted(v: Visit, c: NormalizedProject) {
    var repo := v.repo;
    var readme := ReadmeText(repo);
    && c.id == repo.htmlUrl && c.url == repo.htmlUrl && c.title == repo.name && c.source == "github"
    && c.metrics.ageDays == Days(v.now, repo.createdAt) && c.metrics.ageDays <= MAX_AGE_DAYS
    && c.metrics.starsTotal == repo.stargazersCount && c.metrics.forks24h == 0
    && (|| Days(v.now, repo.pushedAt) <= ACTIVE_DAYS
        || c.metrics.stars24h >= VIRAL_GROWTH
        || (c.metrics.stars24h == 0 && repo.stargazersCount >= VIRAL_GROWTH))
    && IsReadmeMeaningful(readme)
    && (AnyIn(TARGET_KEYWORDS, MetaText(repo)) || AnyIn(TARGET_KEYWORDS, Lower(readme)))
    && c.signals == ExtractProductionSignals(FileStructure(repo), readme)
    && c.description == repo.description && c.createdAt == repo.createdAt
    && c.metrics.lastCommitDate == repo.pushedAt
    && c.rawText == RawText(readme, FileStructure(repo))
  }

  /**
   * An accepted candidate passed every gate, and it reports the real
   * windowed growth read after its own snapshot was stored (0 when no
   * sample lies in the window), never the total-stars proxy.
   */
  lemma ScreenAdmits(rows: seq<StarRow>, v: Visit)
    requires Screen(rows, v).Success? && Screen(rows, v).value.1.Accepted?
    ensures Admitted(v, Screen(rows, v).value.1.candidate)
    ensures var growth := GrowthStats(rows + [SnapshotOf(v)], v.repo.htmlUrl, v.repo.stargazersCount, v.now);
      && Screen(rows, v).value.1.candidate.metrics.stars24h == growth.starsGained
      && (!growth.isReal ==> Screen(rows, v).value.1.candidate.metrics.stars24h == 0)
      && (Days(v.now, v.repo.pushedAt) <= ACTIVE_DAYS || EffectiveGrowth(growth, v.repo.stargazersCount) >= VIRAL_GROWTH)
  {
  }

  /** The state of `fetch_candidates` between iterations. */
  datatype ScanState = ScanState(rows: seq<StarRow>, candidates: seq<NormalizedProject>, error: Option<DbError>)

  /** The loop has ended: an insert raised or `limit` candidates were accepted. */
  predicate Stopped(s: ScanState, limit: int) {
    s.error.Some? || |s.candidates| >= limit
  }

  /** One iteration of the loop of `fetch_candidates`. */
  function Step(s: ScanState, v: Visit, limit: int): (r: ScanState)
    ensures Stopped(s, limit) ==> r == s
    ensures s.rows <= r.rows && |r.rows| <= |s.rows| + 1
    ensures s.candidates <= r.candidates && |r.candidates| <= |s.candidates| + 1
    ensures s.error.Some? ==> r.error == s.error
  {
    if Stopped(s, limit) then s
    else
      match Screen(s.rows, v)
      case Failure(e) => ScanState(s.rows, s.candidates, Some(e))
      case Success((rows', Rejected(_))) => ScanState(rows', s.candidates, None)
      case Success((rows', Accepted(c))) => ScanState(rows', s.candidates + [c], None)
  }

  /** The loop of `fetch_candidates` over the feed, from a table holding `rows`. */
  function Scan(rows: seq<StarRow>, feed: seq<Visit>, limit: int): (r: ScanState)
    ensures rows <= r.rows && |r.rows| <= |rows| + |feed|
    ensures |r.candidates| <= |feed|
    decreases |feed|
  {
    if feed == [] then ScanState(rows, [], None)
    else Step(Scan(rows, feed[..|feed| - 1], limit), feed[|feed| - 1], limit)
  }

  lemma ScanExtend(rows: seq<StarRow>, feed: seq<Visit>, limit: int, i: nat)
    requires i < |feed|
    ensures Scan(rows, feed[..i + 1], limit) == Step(Scan(rows, feed[..i], limit), feed[i], limit)
  {
    assert feed[..i + 1][..i] == feed[..i];
  }

  /** The scan state after a running scan examined one more repository with this outcome. */
  function Advance(s: ScanState, rows': seq<StarRow>, outcome: Result<Screened, DbError>): ScanState {
    match outcome
    case Failure(e) => ScanState(s.rows, s.candidates, Some(e))
    case Success(Rejected(_)) => ScanState(rows', s.candidates, None)
    case Success(Accepted(c)) => ScanState(rows', s.candidates + [c], None)
  }

  /** One more iteration of a running scan, given what `Screen` made of the repository. */
  lemma ScanContinues(rows: seq<StarRow>, feed: seq<Visit>, limit: int, i: nat,
                      rows': seq<StarRow>, outcome: Result<Screened, DbError>)
    requires i < |feed|
    requires !Stopped(Scan(rows, feed[..i], limit), limit)
    requires Screen(Scan(rows, feed[..i], limit).rows, feed[i]) == match outcome
      case Failure(e) => Failure(e)
      case Success(o) => Success((rows', o))
    ensures Scan(rows, feed[..i + 1], limit) == Advance(Scan(rows, feed[..i], limit), rows', outcome)
  {
    ScanExtend(rows, feed, limit, i);
  }

  /** Once the loop has stopped, the rest of the feed is never looked at. */
  lemma {:induction false} ScanStops(rows: seq<StarRow>, feed: seq<Visit>, limit: int, n: nat, m: nat)
    requires n <= m <= |feed|
    requires Stopped(Scan(rows, feed[..n], limit), limit)
    ensures Scan(rows, feed[..m], limit) == Scan(rows, feed[..n], limit)
    decreases m - n
  {
    if n < m {
      ScanStops(rows, feed, limit, n, m - 1);
      ScanExtend(rows, feed, limit, m - 1);
    }
  }

  /** What an earlier point of the scan has collected and stored is kept to the end. */
  lemma {:induction false} ScanPrefix(rows: seq<StarRow>, feed: seq<Visit>, limit: int, i: nat)
    requires i <= |feed|
    ensures Scan(rows, feed[..i], limit).candidates <= Scan(rows, feed, limit).candidates
    ensures Scan(rows, feed[..i], limit).rows <= Scan(rows, feed, limit).rows
    decreases |feed| - i
  {
    if i == |feed| {
      assert feed[..i] == feed;
    } else {
      ScanPrefix(rows, feed, limit, i + 1);
      ScanExtend(rows, feed, limit, i);
    }
  }

  /**
   * A repository accepted while the scan is still running is returned, at
   * the position following the candidates collected before it.
   */
  lemma ScanCollectsAccepted(rows: seq<StarRow>, feed: seq<Visit>, limit: int, i: nat,
                             rows': seq<StarRow>, c: NormalizedProject)
    requires i < |feed|
    requires !Stopped(Scan(rows, feed[..i], limit), limit)
    requires Screen(Scan(rows, feed[..i], limit).rows, feed[i]) == Success((rows', Accepted(c)))
    ensures var k := |Scan(rows, feed[..i], limit).candidates|;
      k < |Scan(rows, feed, limit).candidates| && Scan(rows, feed, limit).candidates[k] == c
  {
    ScanExtend(rows, feed, limit, i);
    ScanPrefix(rows, feed, limit, i + 1);
    var before := Scan(rows, feed[..i], limit).candidates;
    assert Scan(rows, feed[..i + 1], limit).candidates == before + [c];
  }

  /**
   * A repository that passed the age gate while the scan is still running
   * has its snapshot stored, right after the rows stored before it.
   */
  lemma ScanSavesSnapshot(rows: seq<StarRow>, feed: seq<Visit>, limit: int, i: nat)
    requires i < |feed|
    requires !Stopped(Scan(rows, feed[..i], limit), limit)
    requires Days(feed[i].now, feed[i].repo.createdAt) <= MAX_AGE_DAYS
    requires Screen(Scan(rows, feed[..i], limit).rows, feed[i]).Success?
    ensures var k := |Scan(rows, feed[..i], limit).rows|;
      k < |Scan(rows, feed, limit).rows| && Scan(rows, feed, limit).rows[k] == SnapshotOf(feed[i])
  {
    ScanExtend(rows, feed, limit, i);
    ScanPrefix(rows, feed, limit, i + 1);
    var before := Scan(rows, feed[..i], limit).rows;
    assert Scan(rows, feed[..i + 1], limit).rows == before + [SnapshotOf(feed[i])];
  }

  /** `fetch_candidates` returns at most `limit` candidates (none for a limit of 0 or less). */
  lemma {:induction false} ScanRespectsLimit(rows: seq<StarRow>, feed: seq<Visit>, limit: int)
    ensures |Scan(rows, feed, limit).candidates| <= if limit < 0 then 0 else limit
    decreases |feed|
  {
    if feed != [] {
      ScanRespectsLimit(rows, feed[..|feed| - 1], limit);
    }
  }

  /**
   * Snapshots are only ever appended: the rows already stored stay, and
   * each new row is the snapshot of a repository of the feed that passed
   * the age gate.
   */
  lemma {:induction false} ScanAppendsSnapshots(rows: seq<StarRow>, feed: seq<Visit>, limit: int)
    ensures var s := Scan(rows, feed, limit);
      && rows <= s.rows
      && forall k :: |rows| <= k < |s.rows| ==>
           exists j :: 0 <= j < |feed| && s.rows[k] == SnapshotOf(feed[j])
                    && Days(feed[j].now, feed[j].repo.createdAt) <= MAX_AGE_DAYS
    decreases |feed|
  {
    if feed != [] {
      var init := feed[..|feed| - 1];
      var v := feed[|feed| - 1];
      ScanAppendsSnapshots(rows, init, limit);
      var before := Scan(rows, init, limit);
      var after := Scan(rows, feed, limit);
      forall k | |rows| <= k < |after.rows|
        ensures exists j :: 0 <= j < |feed| && after.rows[k] == SnapshotOf(feed[j])
                         && Days(feed[j].now, feed[j].repo.createdAt) <= MAX_AGE_DAYS
      {
        if k < |before.rows| {
          var j :| 0 <= j < |init| && before.rows[k] == SnapshotOf(init[j])
                   && Days(init[j].now, init[j].repo.createdAt) <= MAX_AGE_DAYS;
          assert after.rows[k] == before.rows[k];
          assert feed[j] == init[j];
        } else {
          assert after.rows[k] == SnapshotOf(feed[|feed| - 1]);
        }
      }
    }
  }

  /** Every candidate returned was admitted from some repository of the feed. */
  lemma {:induction false} ScanCandidatesAdmitted(rows: seq<StarRow>, feed: seq<Visit>, limit: int)
    ensures forall c :: c in Scan(rows, feed, limit).candidates ==>
      exists j :: 0 <= j < |feed| && Admitted(feed[j], c)
    decreases |feed|
  {
    if feed != [] {
      var init := feed[..|feed| - 1];
      var v := feed[|feed| - 1];
      ScanCandidatesAdmitted(rows, init, limit);
      var before := Scan(rows, init, limit);
      forall c | c in Scan(rows, feed, limit).candidates
        ensures exists j :: 0 <= j < |feed| && Admitted(feed[j], c)
      {
        if c in before.candidates {
          var j :| 0 <= j < |init| && Admitted(init[j], c);
          assert feed[j] == init[j];
        } else {
          ScreenAdmits(before.rows, v);
          assert Admitted(feed[|feed| - 1], c);
        }
      }
    }
  }

  /** The adapter; only its database handle is state. */
  class GitHubAdapter {
    var db: DatabaseManager

    constructor (db: DatabaseManager)
      ensures this.db == db
    {
      this.db := db;
    }

    /**
     * One pass of the loop body of `fetch_candidates` for a repository:
     * the gates in order, with the snapshot saved between the age gate and
     * the growth query. Table and outcome are those of `Screen`.
     */
    method Examine(v: Visit) returns (r: Result<Screened, DbError>)
      requires db.Valid()
      modifies db
      ensures db.Valid()
      ensures Screen(old(db.starHistory), v) == match r
        case Failure(e) => Failure(e)
        case Success(outcome) => Success((db.starHistory, outcome))
      ensures r.Failure? ==> db.starHistory == old(db.starHistory)
    {
      var repo, now := v.repo, v.now;
      var keywordsFoundInMeta := AnyIn(TARGET_KEYWORDS, MetaText(repo));
      var ageDays := Days(now, repo.createdAt);
      if ageDays > MAX_AGE_DAYS {
        return Success(Rejected(TooOld));
      }
      var saved := db.SaveSnapshot(repo.htmlUrl, repo.stargazersCount, now);
      if saved.Failure? {
        assert HasKey(old(db.starHistory), repo.htmlUrl, now);
        assert Screen(old(db.starHistory), v) == Failure(IntegrityError);
        assert saved.error == IntegrityError;
        return Failure(saved.error);
      }
      var growth := db.GetGrowthStats(repo.htmlUrl, repo.stargazersCount, now);
      var effectiveGrowth := if growth.isReal then growth.starsGained else repo.stargazersCount;
      var isActive := Days(now, repo.pushedAt) <= ACTIVE_DAYS;
      var isViral := effectiveGrowth >= VIRAL_GROWTH;
      if !(isActive || isViral) {
        return Success(Rejected(Inactive));
      }
      var readme := ReadmeText(repo);
      if !IsReadmeMeaningful(readme) {
        return Success(Rejected(WeakReadme));
      }
      if !keywordsFoundInMeta && !AnyIn(TARGET_KEYWORDS, Lower(readme)) {
        return Success(Rejected(NoKeyword));
      }
      r := Success(Accepted(Candidate(repo, ageDays, growth.starsGained)));
    }

    /**
     * `fetch_candidates`: runs the gates over `feed` in order, saving a
     * snapshot for every repository that passes the age gate, until
     * `limit` candidates are accepted. The table and the result are those
     * of `Scan`; an insert that raises ends the call with that error.
     */
    method FetchCandidates(feed: seq<Visit>, limit: int := 10) returns (r: Result<seq<NormalizedProject>, DbError>)
      requires db.Valid()
      modifies db
      ensures db.Valid()
      ensures var s := Scan(old(db.starHistory), feed, limit);
        && db.starHistory == s.rows
        && r == (if s.error.Some? then Failure(s.error.value) else Success(s.candidates))
    {
      ghost var rows0 := db.starHistory;
      var candidates: seq<NormalizedProject> := [];
      var count := 0;
      var i := 0;
      while i < |feed|
        invariant 0 <= i <= |feed|
        invariant db.Valid()
        invariant count == |candidates|
        invariant Scan(rows0, feed[..i], limit) == ScanState(db.starHistory, candidates, None)
      {
        if count >= limit {
          break;
        }
        var outcome := Examine(feed[i]);
        ScanContinues(rows0, feed, limit, i, db.starHistory, outcome);
        match outcome {
          case Failure(e) =>
            ScanStops(rows0, feed, limit, i + 1, |feed|);
            assert feed[..|feed|] == feed;
            return Failure(e);
          case Success(Rejected(_)) =>
          case Success(Accepted(c)) =>
            candidates := candidates + [c];
            count := count + 1;
        }
        i := i + 1;
      }
      if i < |feed| {
        ScanStops(rows0, feed, limit, i, |feed|);
      }
      assert feed[..|feed|] == feed;
      r := Success(candidates);
    }
  }
}
