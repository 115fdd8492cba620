# Deal-flow scanner core, modelled in Dafny

This project models the deterministic core of a repository-scouting
pipeline. The pipeline searches GitHub for young AI repositories and
records a star-count snapshot of each one that passes the 90-day age gate. It computes their growth over
an 18-to-30-hour window, pushes them through a chain of admission gates
and hands the survivors to an external scorer. A local rule then decides
PUBLISH or REJECT, whatever verdict the scorer itself gave.

Modules, one per source file:

- `Database` (database.py): the root pipeline's `star_history` table. Snapshots are written with a plain INSERT, so a duplicate (repo_url, recorded_at) key raises. `get_growth_stats` returns an unclamped windowed difference, or (0, False) when the window is empty.
- `SrcDatabase` (src/database.py): the packaged pipeline's two tables. Snapshots and judgments are both written with INSERT OR REPLACE. `get_deltas` clamps at zero and falls back to the first-ever sample. It also models `is_judged`, `mark_processed`, `has_history` and `is_waiting_room`.
- `GithubAdapter` (github_adapter.py): `fetch_candidates` as a loop over a feed of repository records. `Screen` is one iteration and `Scan` is the whole loop. The module also models the README quality test and the production-signal extractor.
- `Judge` (judge.py): the logic after the scorer returns. It recomputes the core score, overrides the decision, discards a rejected draft and copies the category onto the project.
- `Pipeline` (main.py): the judging loop of `run_pipeline`. It records one judgment per returned verdict, collects the PUBLISH deals and fills the summary counts.
- `Schemas`, `SrcSchemas` (schemas.py, src/schemas.py): the record types, their defaults and the 0..10 score ranges.
- `Wrappers`, `Clock`, `Text`: Option/Result, whole-second time with floor-day arithmetic, and ASCII lower-casing with Python's substring test.

Time is whole seconds and every clock reading is a parameter. Tables are
sequences (or a map keyed by url) held in a class whose methods rewrite
them. The scorer is an oracle whose answer is an `Option`: `None` stands
for a call that raised.

## Model

| member | source | states |
|---|---|---|
| `Clock.Days` | github_adapter.py:77-78 | Age in days is the floor of the elapsed time: `d*DAY <= now-since < (d+1)*DAY`. |
| `Text.Found` | github_adapter.py:170 | The keywords kept are exactly those of the list that occur in the text, and no more than the list holds. |
| `Text.FoundCountsDistinct` | github_adapter.py:179 | For a list without repeats, the count of keywords found equals the number of distinct keywords present. |
| `Schemas.Defaults` | schemas.py:8-30 | stars_24h and forks_24h default to 0; signals default to no docker, no CI, count 0, category "other"; source defaults to "github"; reject_flags defaults to []. |
| `SrcSchemas.Defaults` | src/schemas.py:7-24 | forks_24h defaults to 0 (stars_24h is required); signals default to false/false/0/"pending"; source defaults to "github"; reject_flags defaults to []. |
| `Database.LatestInWindow` | database.py:57-62 | Returns a row of the url inside [now-30h, now-18h] (both ends included) with no windowed row more recent; `None` exactly when no row of the url is in the window. |
| `Database.LatestInWindowUnique` | database.py:20-25 | Under the (repo_url, recorded_at) primary key, the latest windowed row is unique, so the query's answer does not depend on row order. |
| `Database.GrowthStats` | database.py:43-78 | The result is flagged real iff a windowed row exists. It is then current minus the latest windowed row's stars, unclamped. Otherwise it is exactly (0, False), whatever older rows exist. |
| `Database.GrowthMayBeNegative` | database.py:67-71 | A drop in stars since the windowed sample gives a negative growth (10 then 7 gives -3). |
| `Database.DatabaseManager.constructor` | database.py:8-28 | Opening the store keeps the rows left by earlier runs, which satisfy the primary key. |
| `Database.DatabaseManager.SaveSnapshot` | database.py:30-39 | It succeeds iff the key (url, now) is new, and then appends exactly one row. On a duplicate key it fails with an integrity error and the table is unchanged. The primary key stays valid. |
| `SrcDatabase.Upsert` | src/database.py:33-36 | After INSERT OR REPLACE, the new row is present and is the only row with its key. Rows with other keys are kept, nothing else is added, and key uniqueness is preserved. |
| `SrcDatabase.LatestInWindow` | src/database.py:41-48 | Returns a row of the url inside the inclusive window with no more recent windowed row; `None` iff the window is empty for the url. |
| `SrcDatabase.LatestInWindowUnique` | src/database.py:13-16 | Under the (url, recorded_at) primary key the latest windowed row is unique, so the windowed baseline does not depend on row order. |
| `SrcDatabase.EarliestUnique` | src/database.py:13-16 | Under the primary key the first-ever row is unique, so the fallback baseline does not depend on row order. |
| `SrcDatabase.Earliest` | src/database.py:54 | Returns the url's row with the smallest recorded_at; `None` iff the url has no history. |
| `SrcDatabase.ComputeDeltas` | src/database.py:38-57 | Both deltas are non-negative. The windowed flag is set iff a windowed sample exists, and the baseline is then the latest windowed sample. Otherwise the baseline is the first-ever sample. With no history the result is (0, 0, False). |
| `SrcDatabase.IsWaitingRoom` | src/database.py:91-100 | A url is in the waiting room iff some snapshot of it is newer than now-18h; a url in the waiting room has history. |
| `SrcDatabase.SnapshotStartsIncubation` | src/database.py:91-100 | After a snapshot of a url taken at t, the url is in the waiting room at every instant before t+18h. |
| `SrcDatabase.IncubationEnds` | src/database.py:91-100 | After a snapshot at t, with every earlier snapshot of the url at least 18 hours old, the url is out of the waiting room from t+18h on. |
| `SrcDatabase.SnapshotKeepsHistory` | src/database.py:86-89 | After `save_snapshot`, `has_history` holds for its url. A url that had history keeps it. |
| `SrcDatabase.JudgmentRow` | src/database.py:72-83 | The judgment row copies url, title, description, stars_total and raw_text from the project. velocity is stars_24h, prod_score is production_signals, and the decision, score and processing time are as given. |
| `SrcDatabase.DayOne` | src/database.py:33-57 | For a never-seen url, a snapshot followed by a query at the same instant with the same counters gives (0, 0, False). |
| `SrcDatabase.WindowPrecedence` | src/database.py:41-51 | With samples 24h and 40h old, the 24h one is the baseline and the result is windowed. |
| `SrcDatabase.FallbackToEarliest` | src/database.py:53-56 | With no windowed sample but one 80h old, the 80h sample is the baseline and the result is not windowed, clamped at 0. |
| `SrcDatabase.DatabaseManager.constructor` | src/database.py:5-32 | Opening the store keeps both tables as earlier runs left them. |
| `SrcDatabase.DatabaseManager.SaveSnapshot` | src/database.py:33-36 | The snapshot table becomes `Upsert(old, row)` and the judgment ledger is untouched. |
| `SrcDatabase.DatabaseManager.IsJudged` | src/database.py:59-61 | A url is judged iff the ledger holds a row for it. |
| `SrcDatabase.DatabaseManager.HasAnyHistory` | src/database.py:86-89 | A url has history iff its first-ever snapshot exists, which is the baseline `get_deltas` falls back to. |
| `SrcDatabase.DatabaseManager.MarkProcessed` | src/database.py:59-83 | Afterwards `is_judged(url)` holds and that row carries the given decision and score. Rows of other urls are unchanged and the snapshot table is untouched. |
| `GithubAdapter.IsReadmeMeaningful` | github_adapter.py:167-171 | True iff the README has at least 800 characters and at least 2 distinct quality keywords in its lower-cased text. Under 800 characters it is always false. |
| `GithubAdapter.ExtractProductionSignals` | github_adapter.py:173-189 | has_docker means some path contains "docker" case-insensitively. has_ci means some path contains ".github/workflows" or ".circleci". An empty listing gives neither. The total is docker + CI + distinct operational keywords, within 0..8, and the category is "other" with confidence 0. |
| `GithubAdapter.Screen` | github_adapter.py:75-88 | A repo older than 90 days is rejected with the table unchanged. A younger one fails iff its snapshot key already exists; otherwise exactly its snapshot is appended before the growth query. |
| `GithubAdapter.ScreenAcceptsIff` | github_adapter.py:66-119 | A repo is accepted iff all of these hold: age <= 90; its snapshot was stored; it was pushed within 14 days or its effective growth is >= 30 (total stars without windowed data); its README is meaningful; a target keyword occurs in name+description or in the README. |
| `GithubAdapter.RawText` | github_adapter.py:151 | The scorer context is "README:\n", then the first min(len, 3000) README characters, then "\n\nFILE STRUCTURE:\n" and the listing. |
| `GithubAdapter.Candidate` | github_adapter.py:136-152 | The candidate takes id = url = html_url, title, description, created_at, last_commit_date = pushed_at, total stars, the given age and growth, forks_24h = 0, the extracted signals and the raw text. |
| `GithubAdapter.ScreenAdmits` | github_adapter.py:136-152 | An accepted candidate passed the age, README and keyword gates. It carries the fields above, and the exact activity gate held. Its stars_24h is the real windowed growth read after its own snapshot: 0 without windowed data, never the total-stars proxy. |
| `GithubAdapter.Step` | github_adapter.py:60-155 | One iteration changes nothing once the loop has stopped. Otherwise it adds at most one snapshot and at most one candidate, and a raised error persists. |
| `GithubAdapter.Scan` | github_adapter.py:57-157 | The loop over the feed keeps the stored rows as a prefix. It adds at most one row and at most one candidate per repository. |
| `GithubAdapter.ScanStops` | github_adapter.py:60-62 | Once `limit` candidates are accepted, or an insert has raised, no later repository is examined. |
| `GithubAdapter.ScanRespectsLimit` | github_adapter.py:57-62 | At most `limit` candidates are returned, and none for a limit of 0 or less. |
| `GithubAdapter.ScanAppendsSnapshots` | github_adapter.py:85-86 | Existing snapshots are kept (the old table is a prefix of the new one). Every added row is the snapshot of a feed repository that passed the age gate. |
| `GithubAdapter.ScanPrefix` | github_adapter.py:57-157 | The candidates and rows held at any point of the loop are prefixes of the final ones. |
| `GithubAdapter.ScanCollectsAccepted` | github_adapter.py:154-155 | A repository accepted while the loop is running is returned, right after the candidates accepted before it. |
| `GithubAdapter.ScanSavesSnapshot` | github_adapter.py:85-86 | A repository that passes the age gate while the loop is running has its snapshot stored, right after the rows stored before it. |
| `GithubAdapter.ScanCandidatesAdmitted` | github_adapter.py:154-157 | Every returned candidate was admitted from some repository of the feed. |
| `GithubAdapter.GitHubAdapter.Examine` | github_adapter.py:64-155 | One loop iteration leaves the table and the outcome that `Screen` prescribes. It leaves the table unchanged when the insert raises. |
| `GithubAdapter.GitHubAdapter.FetchCandidates` | github_adapter.py:44-157 | The final table and the returned candidates are those of `Scan` over the feed, with `limit` defaulting to 10. An insert error ends the call with that error. |
| `Judge.CoreScore` | judge.py:119-121 | With every sub-score in 0..10, novelty + market_leverage + moat_potential lies in 0..30. |
| `Judge.Evaluate` | judge.py:102-143 | With no scorecard, nothing changes and there is no verdict. Otherwise the decision is PUBLISH iff the core score is >= 18. A rejection clears preview_post and a PUBLISH keeps it. All other scorecard fields are kept. The project's category guess and confidence become the scorer's, and nothing else of the project changes. A well-formed scorecard stays well-formed, and the copied confidence lies in 0..1. |
| `Judge.VerdictIgnoresScorerDecision` | judge.py:129-137 | Two scorecards that differ only in their stated final_decision lead to the same result. |
| `Judge.OverrideExample` | judge.py:130-131 | Sub-scores 7/6/6/9/5 with a stated REJECT give PUBLISH (core sum 19). |
| `Pipeline.ScoreInvestment` | main.py:41-43 | With in-range sub-scores the investment score lies in 0..30. |
| `Pipeline.DecisionFor` | main.py:50-51 | The decision is "PUBLISH" or "REJECT", and it is "PUBLISH" iff the score is >= 18. |
| `Pipeline.Classified` | src/judge.py:75-77 | The scored project takes the scorer's category guess and confidence. Its other signals, metrics, title, description, url, raw text and source are kept. |
| `Pipeline.Judged` | main.py:40-52 | The ledger only grows. Every url it gains belongs to some candidate. |
| `Pipeline.Deals` | main.py:54-66 | There are at most as many deals as candidates, and every deal's total_score is >= 18. |
| `Pipeline.DealsArePublished` | main.py:54-66 | A value is a deal iff it is built from a candidate whose verdict is present and scores >= 18, with total_score = score_investment. |
| `Pipeline.PublishIndices` | main.py:54-66 | The indices of the candidates whose verdict is present and scores >= 18, strictly increasing, and all of them. |
| `Pipeline.DealsInCandidateOrder` | main.py:54-66 | There is one deal per publishing candidate, in candidate order. The k-th deal is built from the k-th publishing candidate. |
| `Pipeline.DealsCount` | main.py:79-85 | new_deals_found equals the number of candidates whose verdict is present and scores >= 18. |
| `Pipeline.DealsScoreRange` | main.py:54-66 | With well-formed scorecards, every deal's total_score lies in 18..30 and its project's confidence in 0..1. |
| `Pipeline.JudgedKeys` | main.py:40-52 | The ledger gains a row exactly for each candidate that got a verdict; a candidate with no verdict adds none; rows of other urls are unchanged. |
| `Pipeline.JudgedRowIsLastVerdict` | main.py:50-52 | Each judged url's row is the one written for the last candidate with that url that got a verdict. |
| `Pipeline.JudgedDecisionsFollowScores` | main.py:51-52 | Every recorded decision is PUBLISH iff its recorded score is >= 18. |
| `Pipeline.RunPipeline` | main.py:14-84 | If a credential is missing, it returns before anything is judged and the ledger is unchanged. Otherwise the ledger becomes `Judged(...)`. The report holds `Deals(...)`, with passed_hard_filters = number of candidates and new_deals_found = number of deals. The judging loop leaves snapshots untouched; the `fetch_candidates` call on line 27 is outside this member and its candidates are an input. |

## Left out

- GitHub I/O. Search, pagination, `get_readme`, `get_contents` and UTF-8 decoding are replaced by a feed of `Repo` records. A README or listing that could not be fetched is `None`, and the adapter sees it as "" or [].
- The LLM chains, prompts and model selection of judge.py and src/judge.py. The scorer is an input: an optional scorecard per call.
- src/judge.py is not part of this model beyond its one local effect. It copies the category onto the project, which `Pipeline.Classified` applies to each deal's project.
- src/github_adapter.py and src/utils are not part of this model. `run_pipeline` receives its candidates as an input, and the summary's total_fetched (the adapter's audit log) is not modelled.
- view_table.py and log_saver.py (console report and output tee), JSON report writing, the 12-second pause between scorer calls, `.env` loading and all printing.
- The `__main__` test block of judge.py.
- The commented-out growth filter in github_adapter.py (lines 124-131). It is not active code.
- Clock readings: the source reads the clock separately for age, snapshot, growth and push age. `GithubAdapter` uses one reading per repository. `Pipeline` uses one reading per run for processed_at.
- SQLite mechanics: connections, SQL text, atomicity, and the text encoding of DATETIME values. Timestamps are integers compared numerically.
- Python's Unicode `str.lower()` is modelled for ASCII letters only. The escaping `str(list)` applies to quotes inside paths is not modelled in `RawText`. pydantic's URL validation is not modelled.
- `category_confidence` is a float in the source. It is modelled as `real` and only copied and range-checked.
- GithubAdapter.ScanCandidatesAdmitted: a candidate keeps only its reported growth, not whether it came from windowed data. So the activity gate is stated as "pushed within 14 days, or reported growth >= 30, or reported growth 0 with total stars >= 30". The exact gate and the real-growth value are stated per repository in `ScreenAcceptsIff` and `ScreenAdmits`.

## Notes on the code

The model follows the code where it departs from the code's own comments, and where the two database modules differ:

- The README gate's comment says "Length > 800" (github_adapter.py:110). The test rejects only `len(content) < 800` (github_adapter.py:168), so a README of exactly 800 characters passes. `IsReadmeMeaningful` follows the test.
- database.py's growth query has no fallback to the first sample and does not clamp (database.py:67-78). Its comment defers the first-run heuristic to the adapter, which uses total stars for filtering only (github_adapter.py:91). src/database.py's `get_deltas` does both (lines 50-57).
- `is_waiting_room` reads only `metrics_history` (src/database.py:97-100) and never `processed_items`. A judged url with a fresh snapshot therefore still counts as incubating.
