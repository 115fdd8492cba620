/**
 * The persistence unit of the packaged pipeline (src/database.py): the
 * snapshot table `metrics_history(url, stars, forks, recorded_at)` keyed by
 * (url, recorded_at), the judgment ledger `processed_items` keyed by url,
 * both written with INSERT OR REPLACE, and the read-only queries over them.
 */
module SrcDatabase {
  import opened Wrappers
  import opened Clock
  import SrcSchemas

  /** One row of `metrics_history`. */
  datatype MetricsRow = MetricsRow(url: string, stars: int, forks: int, recordedAt: int)

  /** One row of `processed_items`: the project as judged and its verdict. */
  datatype ProcessedRow = ProcessedRow(
    url: string,
    title: string,
    description: Option<string>,
    starsTotal: int,
    velocity: int,
    prodScore: int,
    rawText: string,
    decision: string,
    score: int,
    processedAt: int)

  /** `(star_delta, fork_delta, windowed)` as `get_deltas` returns it. */
  datatype Deltas = Deltas(stars: int, forks: int, windowed: bool)

  const WINDOW_START_HOURS: int := 30
  const WINDOW_END_HOURS: int := 18
  const INCUBATION_HOURS: int := 18

  function Max0(x: int): int { if x < 0 then 0 else x }

  /** `recorded_at BETWEEN now - 30h AND now - 18h`, both ends included. */
  predicate InWindow(recordedAt: int, now: int) {
    now - WINDOW_START_HOURS * HOUR <= recordedAt <= now - WINDOW_END_HOURS * HOUR
  }

  /** Two rows clash on the primary key (url, recorded_at). */
  predicate SameKey(a: MetricsRow, b: MetricsRow) {
    a.url == b.url && a.recordedAt == b.recordedAt
  }

  /** The primary key holds: no two distinct rows share (url, recorded_at). */
  ghost predicate UniqueKeys(rows: seq<MetricsRow>) {
    forall i, j :: 0 <= i < |rows| && 0 <= j < |rows| && i != j ==> !SameKey(rows[i], rows[j])
  }

  /** The rows of `rows` whose key differs from that of `row`, in order. */
  function DropKey(rows: seq<MetricsRow>, row: MetricsRow): (r: seq<MetricsRow>)
    ensures forall x :: x in r <==> x in rows && !SameKey(x, row)
    ensures UniqueKeys(rows) ==> UniqueKeys(r)
  {
    if rows == [] then []
    else
      var tail := DropKey(rows[1..], row);
      if SameKey(rows[0], row) then tail
      else
        assert UniqueKeys(rows) ==> UniqueKeys(rows[1..]) by {
          if UniqueKeys(rows) {
            forall i, j | 0 <= i < |rows[1..]| && 0 <= j < |rows[1..]| && i != j
              ensures !SameKey(rows[1..][i], rows[1..][j])
            {
              assert rows[1..][i] == rows[i + 1] && rows[1..][j] == rows[j + 1];
            }
          }
        }
        assert UniqueKeys(rows) ==> UniqueKeys([rows[0]] + tail) by {
          if UniqueKeys(rows) {
            var r := [rows[0]] + tail;
            forall i, j | 0 <= i < |r| && 0 <= j < |r| && i != j ensures !SameKey(r[i], r[j]) {
              if i == 0 || j == 0 {
                var other := if i == 0 then j else i;
                assert r[other] == tail[other - 1] && tail[other - 1] in rows[1..];
                var k :| 0 <= k < |rows[1..]| && rows[1..][k] == r[other];
                assert rows[k + 1] == r[other] && !SameKey(rows[0], rows[k + 1]);
              } else {
                assert r[i] == tail[i - 1] && r[j] == tail[j - 1];
              }
            }
          }
        }
        [rows[0]] + tail
  }

  /**
   * INSERT OR REPLACE into `metrics_history`: the row holding the same key,
   * if any, is replaced by `row`; every row with another key stays.
   */
  function Upsert(rows: seq<MetricsRow>, row: MetricsRow): (r: seq<MetricsRow>)
    ensures row in r
    ensures forall x :: x in r && SameKey(x, row) ==> x == row
    ensures forall x :: !SameKey(x, row) ==> (x in r <==> x in rows)
    ensures UniqueKeys(rows) ==> UniqueKeys(r)
  {
    var kept := DropKey(rows, row);
    assert UniqueKeys(rows) ==> UniqueKeys(kept + [row]) by {
      if UniqueKeys(rows) {
        var r := kept + [row];
        forall i, j | 0 <= i < |r| && 0 <= j < |r| && i != j ensures !SameKey(r[i], r[j]) {
          if i < |kept| && j < |kept| {
          } else if i < |kept| {
            assert r[i] in kept;
          } else {
            assert r[j] in kept;
          }
        }
      }
    }
    kept + [row]
  }

  /** Some snapshot of `url` exists. */
  predicate HasHistory(rows: seq<MetricsRow>, url: string) {
    exists x :: x in rows && x.url == url
  }

  /** `r` is the most recent row of `url` inside the window. */
  ghost predicate IsLatestInWindow(rows: seq<MetricsRow>, url: string, now: int, r: MetricsRow) {
    && r in rows && r.url == url && InWindow(r.recordedAt, now)
    && forall x :: x in rows && x.url == url && InWindow(x.recordedAt, now) ==> x.recordedAt <= r.recordedAt
  }

  /** `r` is the first-ever row of `url`. */
  ghost predicate IsEarliest(rows: seq<MetricsRow>, url: string, r: MetricsRow) {
    && r in rows && r.url == url
    && forall x :: x in rows && x.url == url ==> r.recordedAt <= x.recordedAt
  }

  /** `ORDER BY recorded_at DESC LIMIT 1` over the rows of `url` inside the window. */
  function LatestInWindow(rows: seq<MetricsRow>, url: string, now: int): (r: Option<MetricsRow>)
    ensures r.Some? ==> IsLatestInWindow(rows, url, now, r.value)
    ensures r.None? <==> forall x :: x in rows && x.url == url ==> !InWindow(x.recordedAt, now)
  {
    if rows == [] then None
    else
      var rest := LatestInWindow(rows[1..], url, now);
      var x := rows[0];
      if x.url == url && InWindow(x.recordedAt, now) && (rest.None? || rest.value.recordedAt < x.recordedAt)
      then Some(x)
      else rest
  }

  /**
   * Under the primary key the latest windowed row is unique, so the
   * baseline of a windowed delta does not depend on row order.
   */
  lemma LatestInWindowUnique(rows: seq<MetricsRow>, url: string, now: int, a: MetricsRow, b: MetricsRow)
    requires UniqueKeys(rows)
    requires IsLatestInWindow(rows, url, now, a) && IsLatestInWindow(rows, url, now, b)
    ensures a == b
  {
    var i :| 0 <= i < |rows| && rows[i] == a;
    var j :| 0 <= j < |rows| && rows[j] == b;
    assert a.recordedAt == b.recordedAt;
    assert i == j;
  }

  /**
   * Under the primary key the first-ever row is unique, so the baseline of
   * the fallback delta does not depend on row order.
   */
  lemma EarliestUnique(rows: seq<MetricsRow>, url: string, a: MetricsRow, b: MetricsRow)
    requires UniqueKeys(rows)
    requires IsEarliest(rows, url, a) && IsEarliest(rows, url, b)
    ensures a == b
  {
    var i :| 0 <= i < |rows| && rows[i] == a;
    var j :| 0 <= j < |rows| && rows[j] == b;
    assert a.recordedAt == b.recordedAt;
    assert i == j;
  }

  /** `ORDER BY recorded_at ASC LIMIT 1` over the rows of `url`. */
  function Earliest(rows: seq<MetricsRow>, url: string): (r: Option<MetricsRow>)
    ensures r.Some? ==> IsEarliest(rows, url, r.value)
    ensures r.None? <==> !HasHistory(rows, url)
  {
    if rows == [] then None
    else
      var rest := Earliest(rows[1..], url);
      var x := rows[0];
      if x.url == url && (rest.None? || x.recordedAt < rest.value.recordedAt) then Some(x) else rest
  }

  /**
   * `get_deltas`: growth against the latest sample 18 to 30 hours old,
   * flagged windowed; failing that, against the first-ever sample; with
   * no history at all, (0, 0, False). Neither delta is ever negative.
   */
  function ComputeDeltas(rows: seq<MetricsRow>, url: string, currentStars: int, currentForks: int, now: int): (d: Deltas)
    ensures d.stars >= 0 && d.forks >= 0
    ensures d.windowed <==> exists x :: x in rows && x.url == url && InWindow(x.recordedAt, now)
    ensures d.windowed ==> exists r :: (IsLatestInWindow(rows, url, now, r)
      && d.stars == Max0(currentStars - r.stars) && d.forks == Max0(currentForks - r.forks))
    ensures !d.windowed && HasHistory(rows, url) ==> exists r :: (IsEarliest(rows, url, r)
      && d.stars == Max0(currentStars - r.stars) && d.forks == Max0(currentForks - r.forks))
    ensures !HasHistory(rows, url) ==> d == Deltas(0, 0, false)
  {
    match LatestInWindow(rows, url, now)
    case Some(r) => Deltas(Max0(currentStars - r.stars), Max0(currentForks - r.forks), true)
    case None =>
      match Earliest(rows, url)
      case Some(first) => Deltas(Max0(currentStars - first.stars), Max0(currentForks - first.forks), false)
      case None => Deltas(0, 0, false)
  }

  /**
   * `is_waiting_room`: some snapshot of `url` is less than 18 hours old.
   * A subject in the waiting room has history.
   */
  function IsWaitingRoom(rows: seq<MetricsRow>, url: string, now: int): (b: bool)
    ensures b ==> HasHistory(rows, url)
    ensures b <==> !forall x :: x in rows && x.url == url ==> x.recordedAt <= now - INCUBATION_HOURS * HOUR
  {
    exists x :: x in rows && x.url == url && x.recordedAt > now - INCUBATION_HOURS * HOUR
  }

  /**
   * `save_snapshot` and `has_history` together: after a snapshot the url
   * has history, and no url that had history loses it.
   */
  lemma SnapshotKeepsHistory(rows: seq<MetricsRow>, row: MetricsRow, url: string)
    ensures HasHistory(Upsert(rows, row), row.url)
    ensures HasHistory(rows, url) ==> HasHistory(Upsert(rows, row), url)
  {
    var after := Upsert(rows, row);
    assert row in after;
    if HasHistory(rows, url) {
      var x :| x in rows && x.url == url;
      if SameKey(x, row) {
        assert row.url == url;
      } else {
        assert x in after;
      }
    }
  }

  /**
   * `save_snapshot` and `is_waiting_room` together: a snapshot taken at
   * `t` keeps its url incubating until 18 hours after `t`.
   */
  lemma SnapshotStartsIncubation(rows: seq<MetricsRow>, url: string, stars: int, forks: int, t: int, now: int)
    requires now < t + INCUBATION_HOURS * HOUR
    ensures IsWaitingRoom(Upsert(rows, MetricsRow(url, stars, forks, t)), url, now)
  {
    var row := MetricsRow(url, stars, forks, t);
    assert row in Upsert(rows, row) && row.recordedAt > now - INCUBATION_HOURS * HOUR;
  }

  /**
   * Incubation ends: after a snapshot taken at `t`, with every earlier
   * snapshot of `url` at least 18 hours old, the url leaves the waiting
   * room at `t + 18h`.
   */
  lemma IncubationEnds(rows: seq<MetricsRow>, url: string, stars: int, forks: int, t: int, now: int)
    requires forall x :: x in rows && x.url == url ==> x.recordedAt + INCUBATION_HOURS * HOUR <= now
    requires t + INCUBATION_HOURS * HOUR <= now
    ensures !IsWaitingRoom(Upsert(rows, MetricsRow(url, stars, forks, t)), url, now)
  {
    var row := MetricsRow(url, stars, forks, t);
    forall x | x in Upsert(rows, row) && x.url == url
      ensures x.recordedAt <= now - INCUBATION_HOURS * HOUR
    {
      if !SameKey(x, row) {
        assert x in rows;
      }
    }
  }

  /**
   * The judgment row `mark_processed` writes for `project`: velocity is the
   * project's 24h star growth and prod_score its production-signal count.
   */
  function JudgmentRow(project: SrcSchemas.NormalizedProject, decision: string, score: int, now: int): (r: ProcessedRow)
    ensures r.url == project.url && r.title == project.title && r.description == project.description
    ensures r.starsTotal == project.metrics.starsTotal
    ensures r.velocity == project.metrics.stars24h && r.prodScore == project.signals.productionSignals
    ensures r.rawText == project.rawText
    ensures r.decision == decision && r.score == score && r.processedAt == now
  {
    ProcessedRow(project.url, project.title, project.description, project.metrics.starsTotal,
                 project.metrics.stars24h, project.signals.productionSignals, project.rawText,
                 decision, score, now)
  }

  /**
   * Day one: for a subject never seen before, a snapshot followed by a
   * query at the same instant with the same counters yields (0, 0, False).
   */
  lemma DayOne(rows: seq<MetricsRow>, url: string, stars: int, forks: int, now: int)
    requires !HasHistory(rows, url)
    ensures ComputeDeltas(Upsert(rows, MetricsRow(url, stars, forks, now)), url, stars, forks, now) == Deltas(0, 0, false)
  {
    var row := MetricsRow(url, stars, forks, now);
    var after := Upsert(rows, row);
    forall x | x in after && x.url == url ensures x == row {
      if !SameKey(x, row) {
        assert false;
      }
    }
    assert !InWindow(now, now);
  }

  /**
   * Window precedence: with a sample 24 hours old and another 40 hours
   * old, the 24-hour sample is the baseline and the result is windowed.
   */
  lemma WindowPrecedence(url: string, now: int)
    ensures ComputeDeltas([MetricsRow(url, 100, 4, now - 40 * HOUR), MetricsRow(url, 130, 5, now - 24 * HOUR)],
                          url, 170, 9, now) == Deltas(40, 4, true)
  {
    var rows := [MetricsRow(url, 100, 4, now - 40 * HOUR), MetricsRow(url, 130, 5, now - 24 * HOUR)];
    assert LatestInWindow(rows[1..][1..], url, now) == None;
  }

  /**
   * Fallback: with no sample in the window but one 80 hours old, that
   * sample is the baseline and the result is not windowed.
   */
  lemma FallbackToEarliest(url: string, now: int)
    ensures ComputeDeltas([MetricsRow(url, 100, 4, now - 80 * HOUR), MetricsRow(url, 150, 8, now - 2 * HOUR)],
                          url, 170, 3, now) == Deltas(70, 0, false)
  {
    var rows := [MetricsRow(url, 100, 4, now - 80 * HOUR), MetricsRow(url, 150, 8, now - 2 * HOUR)];
    assert Earliest(rows[1..][1..], url) == None;
    assert LatestInWindow(rows[1..][1..], url, now) == None;
  }

  /**
   * The persistence handle: both tables. Each row write replaces the row
   * with the same key; nothing is ever deleted.
   */
  class DatabaseManager {
    var history: seq<MetricsRow>
    var processed: map<string, ProcessedRow>

    ghost predicate Valid()
      reads this
    {
      UniqueKeys(history)
    }

    /** Opens the store; both tables keep whatever earlier runs left. */
    constructor (existingHistory: seq<MetricsRow>, existingProcessed: map<string, ProcessedRow>)
      requires UniqueKeys(existingHistory)
      ensures Valid() && history == existingHistory && processed == existingProcessed
    {
      history := existingHistory;
      processed := existingProcessed;
    }

    /**
     * `save_snapshot`: afterwards exactly one row has the key (url, now)
     * and it holds the given counters; rows with other keys are kept.
     */
    method SaveSnapshot(url: string, stars: int, forks: int, now: int)
      requires Valid()
      modifies this
      ensures Valid()
      ensures history == Upsert(old(history), MetricsRow(url, stars, forks, now))
      ensures processed == old(processed)
    {
      history := Upsert(history, MetricsRow(url, stars, forks, now));
    }

    /** `get_deltas`, a read-only query of `metrics_history`. */
    function GetDeltas(url: string, currentStars: int, currentForks: int, now: int): Deltas
      reads this
    {
      ComputeDeltas(history, url, currentStars, currentForks, now)
    }

    /** `is_judged`: a `processed_items` row exists for `url`. */
    function IsJudged(url: string): (b: bool)
      reads this
      ensures b <==> url in processed
    {
      url in processed
    }

    /**
     * `mark_processed`: records the verdict for `project.url`, replacing
     * any earlier one; rows of other urls and the snapshots are untouched.
     */
    method MarkProcessed(project: SrcSchemas.NormalizedProject, decision: string, score: int, now: int)
      modifies this
      ensures processed == old(processed)[project.url := JudgmentRow(project, decision, score, now)]
      ensures IsJudged(project.url)
      ensures processed[project.url].decision == decision && processed[project.url].score == score
      ensures forall u :: u != project.url ==> (u in processed <==> u in old(processed))
      ensures forall u :: u != project.url && u in processed ==> processed[u] == old(processed)[u]
      ensures history == old(history)
    {
      processed := processed[project.url := JudgmentRow(project, decision, score, now)];
    }

    /** `has_history`. */
    function HasAnyHistory(url: string): (b: bool)
      reads this
      ensures b <==> Earliest(history, url).Some?
    {
      HasHistory(history, url)
    }

    /** `is_waiting_room`. */
    function InWaitingRoom(url: string, now: int): bool
      reads this
    {
      IsWaitingRoom(history, url, now)
    }
  }
}
