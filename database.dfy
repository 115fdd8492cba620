/**
 * The star-history store of the root pipeline (database.py): one table
 * `star_history(repo_url, stars, recorded_at)` whose primary key is
 * (repo_url, recorded_at), written with a plain INSERT, and a query for
 * the growth since the latest sample taken 18 to 30 hours ago.
 */
module Database {
  import opened Wrappers
  import opened Clock

  /** One row of `star_history`. */
  datatype StarRow = StarRow(repoUrl: string, stars: int, recordedAt: int)

  /** The error a plain INSERT raises on an existing primary key. */
  datatype DbError = IntegrityError

  /** `(stars_gained, is_real_24h_data)` as `get_growth_stats` returns it. */
  datatype Growth = Growth(starsGained: int, isReal: bool)

  const WINDOW_START_HOURS: int := 30
  const WINDOW_END_HOURS: int := 18

  /** SQL `recorded_at BETWEEN now - 30h AND now - 18h` (both ends included). */
  predicate InWindow(recordedAt: int, now: int) {
    now - WINDOW_START_HOURS * HOUR <= recordedAt <= now - WINDOW_END_HOURS * HOUR
  }

  /** Some row of `rows` has the key (url, at). */
  predicate HasKey(rows: seq<StarRow>, url: string, at: int) {
    exists r :: r in rows && r.repoUrl == url && r.recordedAt == at
  }

  /** The primary key holds: no two rows share (repo_url, recorded_at). */
  ghost predicate UniqueKeys(rows: seq<StarRow>) {
    forall i, j :: 0 <= i < j < |rows| ==>
      rows[i].repoUrl != rows[j].repoUrl || rows[i].recordedAt != rows[j].recordedAt
  }

  /** `r` is a row of `url` inside the window and no such row is more recent. */
  ghost predicate IsLatestInWindow(rows: seq<StarRow>, url: string, now: int, r: StarRow) {
    && r in rows && r.repoUrl == url && InWindow(r.recordedAt, now)
    && forall x :: x in rows && x.repoUrl == url && InWindow(x.recordedAt, now) ==> x.recordedAt <= r.recordedAt
  }

  /** `ORDER BY recorded_at DESC LIMIT 1` over the rows of `url` inside the window. */
  function LatestInWindow(rows: seq<StarRow>, url: string, now: int): (r: Option<StarRow>)
    ensures r.Some? ==> IsLatestInWindow(rows, url, now, r.value)
    ensures r.None? <==> forall x :: x in rows && x.repoUrl == url ==> !InWindow(x.recordedAt, now)
  {
    if rows == [] then None
    else
      var rest := LatestInWindow(rows[1..], url, now);
      var x := rows[0];
      if x.repoUrl == url && InWindow(x.recordedAt, now) && (rest.None? || rest.value.recordedAt < x.recordedAt)
      then Some(x)
      else rest
  }

  /**
   * Under the primary key the latest windowed row is unique, so the
   * query's answer does not depend on the order rows are stored in.
   */
  lemma LatestInWindowUnique(rows: seq<StarRow>, url: string, now: int, a: StarRow, b: StarRow)
    requires UniqueKeys(rows)
    requires IsLatestInWindow(rows, url, now, a) && IsLatestInWindow(rows, url, now, b)
    ensures a == b
  {
    var i :| 0 <= i < |rows| && rows[i] == a;
    var j :| 0 <= j < |rows| && rows[j] == b;
    assert a.recordedAt == b.recordedAt;
    assert i == j;
  }

  /**
   * `get_growth_stats`: the stars gained since the latest sample 18 to 30
   * hours old, not clamped at zero, flagged as real data; (0, False) when
   * the window is empty, whatever older or newer rows exist.
   */
  function GrowthStats(rows: seq<StarRow>, url: string, currentStars: int, now: int): (g: Growth)
    ensures g.isReal <==> exists x :: x in rows && x.repoUrl == url && InWindow(x.recordedAt, now)
    ensures g.isReal ==> exists r :: IsLatestInWindow(rows, url, now, r) && g.starsGained == currentStars - r.stars
    ensures !g.isReal ==> g == Growth(0, false)
  {
    match LatestInWindow(rows, url, now)
    case Some(r) => Growth(currentStars - r.stars, true)
    case None => Growth(0, false)
  }

  /** The growth is negative when the star count fell since the windowed sample. */
  lemma GrowthMayBeNegative(url: string, now: int)
    ensures GrowthStats([StarRow(url, 10, now - 24 * HOUR)], url, 7, now) == Growth(-3, true)
  {
    var rows := [StarRow(url, 10, now - 24 * HOUR)];
    assert LatestInWindow(rows[1..], url, now) == None;
  }

  /** The database handle: the contents of `star_history`. */
  class DatabaseManager {
    var starHistory: seq<StarRow>

    ghost predicate Valid()
      reads this
    {
      UniqueKeys(starHistory)
    }

    /** Opens the store; the table keeps whatever rows earlier runs left. */
    constructor (existing: seq<StarRow>)
      requires UniqueKeys(existing)
      ensures Valid() && starHistory == existing
    {
      starHistory := existing;
    }

    /**
     * `save_snapshot`: a plain INSERT of (repo_url, stars, now). It adds
     * exactly one row and touches no other; on an existing key it raises
     * and the table is unchanged.
     */
    method SaveSnapshot(repoUrl: string, stars: int, now: int) returns (r: Result<(), DbError>)
      requires Valid()
      modifies this
      ensures Valid()
      ensures r.Success? <==> !HasKey(old(starHistory), repoUrl, now)
      ensures r.Success? ==> starHistory == old(starHistory) + [StarRow(repoUrl, stars, now)]
      ensures r.Failure? ==> starHistory == old(starHistory)
    {
      if exists x :: x in starHistory && x.repoUrl == repoUrl && x.recordedAt == now {
        return Failure(IntegrityError);
      }
      starHistory := starHistory + [StarRow(repoUrl, stars, now)];
      r := Success(());
    }

    /** `get_growth_stats`, a read-only query of the table. */
    function GetGrowthStats(repoUrl: string, currentStars: int, now: int): Growth
      reads this
    {
      GrowthStats(starHistory, repoUrl, currentStars, now)
    }
  }
}
