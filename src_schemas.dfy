/**
 * Record types of the packaged pipeline (src/schemas.py). They differ from
 * the root ones: `stars_24h` is required, the signal count is called
 * `production_signals`, the placeholder category is "pending", and the
 * scorecard has no decision field, so every caller computes the decision.
 */
module SrcSchemas {
  import opened Wrappers

  datatype ProjectMetrics = ProjectMetrics(
    stars24h: int,
    starsTotal: int,
    ageDays: int,
    lastCommitDate: int,
    forks24h: int := 0)

  datatype ProductionSignals = ProductionSignals(
    hasDocker: bool := false,
    hasCi: bool := false,
    productionSignals: int := 0,
    categoryGuess: string := "pending",
    categoryConfidence: real := 0.0)

  datatype NormalizedProject = NormalizedProject(
    title: string,
    description: Option<string>,
    url: string,
    metrics: ProjectMetrics,
    signals: ProductionSignals,
    rawText: string,
    source: string := "github")

  /** The scorecard: five sub-scores and commentary, but no verdict. */
  datatype JudgeOutput = JudgeOutput(
    novelty: int,
    marketLeverage: int,
    moatPotential: int,
    executionSignal: int,
    timeToMarket: int,
    categoryGuess: string,
    categoryConfidence: real,
    oneLineReason: string,
    previewPost: string,
    rejectFlags: seq<string> := [])
  {
    predicate ScoresInRange() {
      && 0 <= novelty <= 10
      && 0 <= marketLeverage <= 10
      && 0 <= moatPotential <= 10
      && 0 <= executionSignal <= 10
      && 0 <= timeToMarket <= 10
    }

    predicate Valid() {
      ScoresInRange() && 0.0 <= categoryConfidence <= 1.0
    }
  }

  /** Fields left out take the declared defaults. */
  lemma Defaults(stars24h: int, starsTotal: int, ageDays: int, lastCommit: int, url: string, raw: string)
    ensures ProjectMetrics(stars24h, starsTotal, ageDays, lastCommit).forks24h == 0
    ensures ProductionSignals() == ProductionSignals(false, false, 0, "pending", 0.0)
    ensures NormalizedProject("", None, url, ProjectMetrics(stars24h, starsTotal, ageDays, lastCommit),
                              ProductionSignals(), raw).source == "github"
    ensures JudgeOutput(0, 0, 0, 0, 0, "other", 0.0, "", "").rejectFlags == []
  {
  }
}
