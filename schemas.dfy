/**
 * Record types of the root pipeline (schemas.py): what the adapter hands
 * to the judge and what the judge's scorecard looks like. Datetimes are
 * whole seconds; `category_confidence` is a float, kept as a `real` that
 * is only ever copied.
 */
module Schemas {
  import opened Wrappers

  /** Hard numbers for filtering; the 24h deltas default to 0. */
  datatype ProjectMetrics = ProjectMetrics(
    starsTotal: int,
    ageDays: int,
    lastCommitDate: int,
    stars24h: int := 0,
    forks24h: int := 0)

  /** Production-readiness flags; nothing is found until shown otherwise. */
  datatype ProductionSignals = ProductionSignals(
    hasDocker: bool := false,
    hasCi: bool := false,
    productionSignalsCount: int := 0,
    categoryGuess: string := "other",
    categoryConfidence: real := 0.0)

  /** A candidate as the adapter normalises it. */
  datatype NormalizedProject = NormalizedProject(
    id: string,
    title: string,
    url: string,
    metrics: ProjectMetrics,
    signals: ProductionSignals,
    rawText: string,
    createdAt: int,
    description: Option<string> := None,
    source: string := "github")

  /** The only two verdicts a scorecard may carry. */
  datatype Decision = PUBLISH | REJECT

  /**
   * The five-point scorecard. `previewPost` is optional because the judge
   * clears it on a rejection.
   */
  datatype JudgeOutput = JudgeOutput(
    novelty: int,
    marketLeverage: int,
    moatPotential: int,
    executionSignal: int,
    timeToMarket: int,
    categoryGuess: string,
    categoryConfidence: real,
    oneLineReason: string,
    finalDecision: Decision,
    previewPost: Option<string>,
    rejectFlags: seq<string> := [])
  {
    /** Every sub-score is an integer from 0 to 10. */
    predicate ScoresInRange() {
      && 0 <= novelty <= 10
      && 0 <= marketLeverage <= 10
      && 0 <= moatPotential <= 10
      && 0 <= executionSignal <= 10
      && 0 <= timeToMarket <= 10
    }

    /** The field constraints a parsed scorecard satisfies. */
    predicate Valid() {
      ScoresInRange() && 0.0 <= categoryConfidence <= 1.0
    }
  }

  /** Fields left out take the declared defaults. */
  lemma Defaults(starsTotal: int, ageDays: int, lastCommit: int, url: string, raw: string, created: int)
    ensures ProjectMetrics(starsTotal, ageDays, lastCommit).stars24h == 0
    ensures ProjectMetrics(starsTotal, ageDays, lastCommit).forks24h == 0
    ensures ProductionSignals() == ProductionSignals(false, false, 0, "other", 0.0)
    ensures var p := NormalizedProject(url, "", url, ProjectMetrics(starsTotal, ageDays, lastCommit), ProductionSignals(), raw, created);
      p.source == "github" && p.description == None
    ensures JudgeOutput(0, 0, 0, 0, 0, "other", 0.0, "", REJECT, None).rejectFlags == []
  {
  }
}
