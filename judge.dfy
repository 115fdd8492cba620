/**
 * The local logic of the root judge (judge.py, `JudgeAgent.evaluate`)
 * around the external scorer: the scorer's verdict is not trusted, the
 * decision is recomputed from three sub-scores, a rejected draft post is
 * discarded, and the scorer's category is copied onto the project. The
 * scorer is an oracle whose answer is `None` when its call raised.
 */
module Judge {
  import opened Wrappers
  import opened Schemas

  /** Novelty + market leverage + moat potential must reach this to publish. */
  const PUBLISH_THRESHOLD: int := 18

  /** The core score; with every sub-score in 0..10 it lies in 0..30. */
  function CoreScore(card: JudgeOutput): (s: int)
    ensures card.ScoresInRange() ==> 0 <= s <= 30
  {
    card.novelty + card.marketLeverage + card.moatPotential
  }

  /**
   * `evaluate` after the scorer returned: the updated project and the
   * verdict. With no scorecard (the call raised) nothing changes and no
   * decision is made.
   */
  function Evaluate(project: NormalizedProject, scored: Option<JudgeOutput>): (out: (NormalizedProject, Option<JudgeOutput>))
    ensures scored.None? ==> out == (project, None)
    ensures scored.Some? ==> out.1.Some?
    ensures scored.Some? ==> (out.1.value.finalDecision == PUBLISH <==> CoreScore(scored.value) >= PUBLISH_THRESHOLD)
    ensures scored.Some? && out.1.value.finalDecision == REJECT ==> out.1.value.previewPost == None
    ensures scored.Some? && out.1.value.finalDecision == PUBLISH ==> out.1.value.previewPost == scored.value.previewPost
    ensures scored.Some? ==> out.1.value == scored.value.(finalDecision := out.1.value.finalDecision, previewPost := out.1.value.previewPost)
    ensures scored.Some? ==> out.0.signals.categoryGuess == scored.value.categoryGuess
    ensures scored.Some? ==> out.0.signals.categoryConfidence == scored.value.categoryConfidence
    ensures scored.Some? ==> out.0 == project.(signals := out.0.signals)
    ensures scored.Some? ==> out.0.signals == project.signals.(categoryGuess := out.0.signals.categoryGuess,
                                                               categoryConfidence := out.0.signals.categoryConfidence)
    ensures scored.Some? && scored.value.Valid() ==>
      out.1.value.Valid() && 0.0 <= out.0.signals.categoryConfidence <= 1.0
  {
    match scored
    case None => (project, None)
    case Some(card) =>
      var classified := project.(signals := project.signals.(categoryGuess := card.categoryGuess,
                                                             categoryConfidence := card.categoryConfidence));
      if CoreScore(card) >= PUBLISH_THRESHOLD then
        (classified, Some(card.(finalDecision := PUBLISH)))
      else
        (classified, Some(card.(finalDecision := REJECT, previewPost := None)))
  }

  /**
   * The scorer's own verdict is ignored: two scorecards that differ only in
   * their stated decision are judged alike.
   */
  lemma VerdictIgnoresScorerDecision(project: NormalizedProject, card: JudgeOutput, stated: Decision)
    ensures Evaluate(project, Some(card)) == Evaluate(project, Some(card.(finalDecision := stated)))
  {
  }

  /**
   * Sub-scores 7/6/6/9/5 sum to 19 on the core criteria, so the verdict is
   * PUBLISH even though the scorer said REJECT.
   */
  lemma OverrideExample(project: NormalizedProject, post: string)
    ensures var card := JudgeOutput(7, 6, 6, 9, 5, "agents", 0.8, "", REJECT, Some(post));
      Evaluate(project, Some(card)).1 == Some(card.(finalDecision := PUBLISH))
  {
  }
}
