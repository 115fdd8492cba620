/**
 * The judging loop of the packaged pipeline (main.py, `run_pipeline`):
 * every candidate that passed the hard filters goes to the scorer; each
 * returned scorecard is turned into a PUBLISH/REJECT decision by the local
 * rule, recorded once in the judgment ledger, and the PUBLISH ones become
 * the run's deals. The scorer is an oracle: `verdicts[i]` is its answer
 * for `candidates[i]`, `None` when the call failed.
 */
module Pipeline {
  import opened Wrappers
  import opened SrcSchemas
  import opened SrcDatabase

  const PUBLISH_THRESHOLD: int := 18

  /** novelty + market leverage + moat potential; 0..30 for in-range sub-scores. */
  function ScoreInvestment(card: JudgeOutput): (s: int)
    ensures card.ScoresInRange() ==> 0 <= s <= 30
  {
    card.novelty + card.marketLeverage + card.moatPotential
  }

  /** The decision text stored in the ledger. */
  function DecisionFor(score: int): (d: string)
    ensures d == "PUBLISH" || d == "REJECT"
    ensures d == "PUBLISH" <==> score >= PUBLISH_THRESHOLD
  {
    if score >= PUBLISH_THRESHOLD then "PUBLISH" else "REJECT"
  }

  /** The scorer call copies its category onto the project (src/judge.py). */
  function Classified(project: NormalizedProject, card: JudgeOutput): (r: NormalizedProject)
    ensures r.signals.categoryGuess == card.categoryGuess
    ensures r.signals.categoryConfidence == card.categoryConfidence
    ensures r.signals.hasDocker == project.signals.hasDocker && r.signals.hasCi == project.signals.hasCi
    ensures r.signals.productionSignals == project.signals.productionSignals
    ensures r.title == project.title && r.description == project.description && r.url == project.url
    ensures r.metrics == project.metrics && r.rawText == project.rawText && r.source == project.source
  {
    project.(signals := project.signals.(categoryGuess := card.categoryGuess,
                                         categoryConfidence := card.categoryConfidence))
  }

  /** One entry of the report's `deals`. */
  datatype Deal = Deal(project: NormalizedProject, verdict: JudgeOutput, totalScore: int)

  /** The counts of the report's `summary` that this loop determines. */
  datatype Summary = Summary(passedHardFilters: nat, newDealsFound: nat)

  datatype Report = Report(summary: Summary, deals: seq<Deal>)

  function DealOf(project: NormalizedProject, card: JudgeOutput): Deal {
    Deal(Classified(project, card), card, ScoreInvestment(card))
  }

  /** The candidate at `i` was scored and reached the threshold. */
  predicate Publishes(verdicts: seq<Option<JudgeOutput>>, i: int)
    requires 0 <= i < |verdicts|
  {
    verdicts[i].Some? && ScoreInvestment(verdicts[i].value) >= PUBLISH_THRESHOLD
  }

  /** `final_deals`: the PUBLISH candidates, in candidate order. */
  function Deals(candidates: seq<NormalizedProject>, verdicts: seq<Option<JudgeOutput>>): (r: seq<Deal>)
    requires |verdicts| == |candidates|
    ensures |r| <= |candidates|
    ensures forall d :: d in r ==> d.totalScore >= PUBLISH_THRESHOLD
    decreases |candidates|
  {
    if candidates == [] then []
    else
      var n := |candidates| - 1;
      var earlier := Deals(candidates[..n], verdicts[..n]);
      if Publishes(verdicts, n) then earlier + [DealOf(candidates[n], verdicts[n].value)] else earlier
  }

  /** The ledger after recording every returned verdict, in candidate order. */
  function Judged(processed: map<string, ProcessedRow>, candidates: seq<NormalizedProject>,
                  verdicts: seq<Option<JudgeOutput>>, now: int): (r: map<string, ProcessedRow>)
    requires |verdicts| == |candidates|
    ensures processed.Keys <= r.Keys
    ensures forall u :: u in r && u !in processed ==> exists i :: 0 <= i < |candidates| && candidates[i].url == u
    decreases |candidates|
  {
    if candidates == [] then processed
    else
      var n := |candidates| - 1;
      var earlier := Judged(processed, candidates[..n], verdicts[..n], now);
      match verdicts[n]
      case None => earlier
      case Some(card) =>
        var score := ScoreInvestment(card);
        earlier[candidates[n].url := JudgmentRow(Classified(candidates[n], card), DecisionFor(score), score, now)]
  }

  /** The urls of the candidates the scorer returned a verdict for. */
  ghost function ScoredUrls(candidates: seq<NormalizedProject>, verdicts: seq<Option<JudgeOutput>>): set<string>
    requires |verdicts| == |candidates|
  {
    set i | 0 <= i < |candidates| && verdicts[i].Some? :: candidates[i].url
  }

  /** A deal is exactly a scored candidate whose score reached the threshold. */
  lemma {:induction false} DealsArePublished(candidates: seq<NormalizedProject>, verdicts: seq<Option<JudgeOutput>>)
    requires |verdicts| == |candidates|
    ensures forall d :: d in Deals(candidates, verdicts) <==>
      exists i :: 0 <= i < |candidates| && Publishes(verdicts, i) && d == DealOf(candidates[i], verdicts[i].value)
    decreases |candidates|
  {
    if candidates != [] {
      var n := |candidates| - 1;
      var c, v := candidates[..n], verdicts[..n];
      DealsArePublished(c, v);
      forall d | d in Deals(candidates, verdicts)
        ensures exists i :: 0 <= i < |candidates| && Publishes(verdicts, i) && d == DealOf(candidates[i], verdicts[i].value)
      {
        if d in Deals(c, v) {
          var i :| 0 <= i < |c| && Publishes(v, i) && d == DealOf(c[i], v[i].value);
          assert c[i] == candidates[i] && v[i] == verdicts[i];
        }
      }
      forall i | 0 <= i < |candidates| && Publishes(verdicts, i)
        ensures DealOf(candidates[i], verdicts[i].value) in Deals(candidates, verdicts)
      {
        if i < n {
          assert c[i] == candidates[i] && v[i] == verdicts[i];
          assert Publishes(v, i);
        }
      }
    }
  }

  /** The indices of the publishing candidates, in increasing order. */
  function PublishIndices(verdicts: seq<Option<JudgeOutput>>): (r: seq<int>)
    ensures forall k :: 0 <= k < |r| ==> 0 <= r[k] < |verdicts| && Publishes(verdicts, r[k])
    ensures forall k, l :: 0 <= k < l < |r| ==> r[k] < r[l]
    ensures forall i :: 0 <= i < |verdicts| && Publishes(verdicts, i) ==> i in r
    decreases |verdicts|
  {
    if verdicts == [] then []
    else
      var n := |verdicts| - 1;
      var earlier := PublishIndices(verdicts[..n]);
      assert forall k :: 0 <= k < |earlier| ==> verdicts[..n][earlier[k]] == verdicts[earlier[k]];
      assert forall i :: 0 <= i < n ==> verdicts[..n][i] == verdicts[i];
      if Publishes(verdicts, n) then earlier + [n] else earlier
  }

  /**
   * The deals follow candidate order, one per publishing candidate: the
   * k-th deal is built from the k-th publishing candidate.
   */
  lemma {:induction false} DealsInCandidateOrder(candidates: seq<NormalizedProject>, verdicts: seq<Option<JudgeOutput>>)
    requires |verdicts| == |candidates|
    ensures var deals, idx := Deals(candidates, verdicts), PublishIndices(verdicts);
      && |deals| == |idx|
      && forall k :: 0 <= k < |deals| ==> deals[k] == DealOf(candidates[idx[k]], verdicts[idx[k]].value)
    decreases |candidates|
  {
    if candidates != [] {
      var n := |candidates| - 1;
      var c, v := candidates[..n], verdicts[..n];
      DealsInCandidateOrder(c, v);
      var earlier, idx := Deals(c, v), PublishIndices(v);
      var deals, all := Deals(candidates, verdicts), PublishIndices(verdicts);
      assert deals[..|earlier|] == earlier && all[..|idx|] == idx;
      forall k | 0 <= k < |deals|
        ensures deals[k] == DealOf(candidates[all[k]], verdicts[all[k]].value)
      {
        if k < |earlier| {
          assert deals[k] == earlier[k] && all[k] == idx[k];
          assert c[idx[k]] == candidates[idx[k]] && v[idx[k]] == verdicts[idx[k]];
        }
      }
    }
  }

  /** The candidates publishing among the first `m`. */
  ghost function PublishSet(verdicts: seq<Option<JudgeOutput>>, m: int): set<int>
    requires 0 <= m <= |verdicts|
  {
    set i | 0 <= i < m && Publishes(verdicts, i)
  }

  /** `new_deals_found` counts the candidates whose score reached the threshold. */
  lemma {:induction false} DealsCount(candidates: seq<NormalizedProject>, verdicts: seq<Option<JudgeOutput>>)
    requires |verdicts| == |candidates|
    ensures |Deals(candidates, verdicts)| == |set i | 0 <= i < |candidates| && Publishes(verdicts, i)|
    decreases |candidates|
  {
    if candidates != [] {
      var n := |candidates| - 1;
      var c, v := candidates[..n], verdicts[..n];
      DealsCount(c, v);
      assert PublishSet(v, n) == PublishSet(verdicts, n) by {
        forall i | 0 <= i < n ensures Publishes(v, i) == Publishes(verdicts, i) {
          assert v[i] == verdicts[i];
        }
      }
      if Publishes(verdicts, n) {
        assert PublishSet(verdicts, n + 1) == PublishSet(verdicts, n) + {n};
      } else {
        assert PublishSet(verdicts, n + 1) == PublishSet(verdicts, n);
      }
    }
  }

  /**
   * With well-formed scorecards (every sub-score in 0..10, confidence in
   * 0..1), every deal scores 18..30 and carries a confidence in 0..1.
   */
  lemma DealsScoreRange(candidates: seq<NormalizedProject>, verdicts: seq<Option<JudgeOutput>>)
    requires |verdicts| == |candidates|
    requires forall i :: 0 <= i < |verdicts| && verdicts[i].Some? ==> verdicts[i].value.Valid()
    ensures forall d :: d in Deals(candidates, verdicts) ==>
      && PUBLISH_THRESHOLD <= d.totalScore <= 30
      && 0.0 <= d.project.signals.categoryConfidence <= 1.0
  {
    DealsArePublished(candidates, verdicts);
  }

  /** The row `mark_processed` writes for candidate `i`. */
  function RowFor(candidates: seq<NormalizedProject>, verdicts: seq<Option<JudgeOutput>>, i: int, now: int): ProcessedRow
    requires |verdicts| == |candidates| && 0 <= i < |candidates| && verdicts[i].Some?
  {
    var score := ScoreInvestment(verdicts[i].value);
    JudgmentRow(Classified(candidates[i], verdicts[i].value), DecisionFor(score), score, now)
  }

  lemma ScoredUrlsExtend(candidates: seq<NormalizedProject>, verdicts: seq<Option<JudgeOutput>>)
    requires |verdicts| == |candidates| && candidates != []
    ensures var n := |candidates| - 1;
      ScoredUrls(candidates, verdicts)
        == ScoredUrls(candidates[..n], verdicts[..n]) + (if verdicts[n].Some? then {candidates[n].url} else {})
  {
    var n := |candidates| - 1;
    assert forall i :: 0 <= i < n ==> candidates[..n][i] == candidates[i] && verdicts[..n][i] == verdicts[i];
  }

  /**
   * The ledger afterwards holds a row for every scored candidate and
   * nothing else new; rows of urls that were not scored are untouched.
   */
  lemma {:induction false} JudgedKeys(processed: map<string, ProcessedRow>, candidates: seq<NormalizedProject>,
                                      verdicts: seq<Option<JudgeOutput>>, now: int)
    requires |verdicts| == |candidates|
    ensures var after := Judged(processed, candidates, verdicts, now);
      && after.Keys == processed.Keys + ScoredUrls(candidates, verdicts)
      && forall u :: u in processed && u !in ScoredUrls(candidates, verdicts) ==> after[u] == processed[u]
    decreases |candidates|
  {
    if candidates != [] {
      var n := |candidates| - 1;
      JudgedKeys(processed, candidates[..n], verdicts[..n], now);
      ScoredUrlsExtend(candidates, verdicts);
    }
  }

  /** Unfolds `Judged` by its last candidate. */
  lemma JudgedStep(processed: map<string, ProcessedRow>, candidates: seq<NormalizedProject>,
                   verdicts: seq<Option<JudgeOutput>>, now: int)
    requires |verdicts| == |candidates| && candidates != []
    ensures var n := |candidates| - 1;
      var earlier := Judged(processed, candidates[..n], verdicts[..n], now);
      Judged(processed, candidates, verdicts, now)
        == if verdicts[n].Some? then earlier[candidates[n].url := RowFor(candidates, verdicts, n, now)] else earlier
  {
  }

  /** No candidate after `i` with url `u` was scored. */
  ghost predicate NoLaterVerdict(candidates: seq<NormalizedProject>, verdicts: seq<Option<JudgeOutput>>, i: int, u: string)
    requires |verdicts| == |candidates|
  {
    forall j :: 0 <= j < |candidates| && i < j && candidates[j].url == u ==> verdicts[j].None?
  }

  /** Candidate `i` of a prefix keeps its row and its "last" status when an unscored-for-`u` candidate follows. */
  lemma LastVerdictExtends(candidates: seq<NormalizedProject>, verdicts: seq<Option<JudgeOutput>>, i: int, u: string, now: int)
    requires |verdicts| == |candidates| && 0 <= i < |candidates| - 1
    requires verdicts[i].Some?
    requires var n := |candidates| - 1; !(verdicts[n].Some? && candidates[n].url == u)
    requires var n := |candidates| - 1; NoLaterVerdict(candidates[..n], verdicts[..n], i, u)
    ensures var n := |candidates| - 1; RowFor(candidates[..n], verdicts[..n], i, now) == RowFor(candidates, verdicts, i, now)
    ensures NoLaterVerdict(candidates, verdicts, i, u)
  {
    var n := |candidates| - 1;
    assert forall j :: 0 <= j < n ==> candidates[..n][j] == candidates[j] && verdicts[..n][j] == verdicts[j];
  }

  /**
   * Last write wins: the row of a scored url is the one written for some
   * candidate with that url, and no later candidate with that url was scored.
   */
  lemma {:induction false} JudgedRowIsLastVerdict(processed: map<string, ProcessedRow>, candidates: seq<NormalizedProject>,
                                                  verdicts: seq<Option<JudgeOutput>>, now: int, u: string)
    requires |verdicts| == |candidates|
    requires u in ScoredUrls(candidates, verdicts)
    ensures var after := Judged(processed, candidates, verdicts, now);
      u in after && exists i :: (0 <= i < |candidates| && candidates[i].url == u && verdicts[i].Some?
                   && after[u] == RowFor(candidates, verdicts, i, now)
                   && NoLaterVerdict(candidates, verdicts, i, u))
    decreases |candidates|
  {
    var n := |candidates| - 1;
    var c, v := candidates[..n], verdicts[..n];
    ScoredUrlsExtend(candidates, verdicts);
    JudgedStep(processed, candidates, verdicts, now);
    var earlier := Judged(processed, c, v, now);
    var after := Judged(processed, candidates, verdicts, now);
    if verdicts[n].Some? && candidates[n].url == u {
      assert after[u] == RowFor(candidates, verdicts, n, now);
      assert NoLaterVerdict(candidates, verdicts, n, u);
    } else {
      JudgedRowIsLastVerdict(processed, c, v, now, u);
      var i :| 0 <= i < n && c[i].url == u && v[i].Some?
               && earlier[u] == RowFor(c, v, i, now)
               && NoLaterVerdict(c, v, i, u);
      assert c[i] == candidates[i] && v[i] == verdicts[i];
      LastVerdictExtends(candidates, verdicts, i, u, now);
      assert after[u] == earlier[u];
    }
  }

  /** Every recorded decision agrees with its score: PUBLISH iff it reaches 18. */
  lemma JudgedDecisionsFollowScores(processed: map<string, ProcessedRow>, candidates: seq<NormalizedProject>,
                                    verdicts: seq<Option<JudgeOutput>>, now: int, u: string)
    requires |verdicts| == |candidates|
    requires u in ScoredUrls(candidates, verdicts)
    ensures var after := Judged(processed, candidates, verdicts, now);
      u in after && (after[u].decision == "PUBLISH" <==> after[u].score >= PUBLISH_THRESHOLD)
  {
    JudgedRowIsLastVerdict(processed, candidates, verdicts, now, u);
  }

  /**
   * `run_pipeline` from the scan's result on: without both credentials it
   * returns before anything is judged; otherwise it records one judgment
   * per returned verdict and reports the PUBLISH candidates as deals.
   */
  method RunPipeline(db: DatabaseManager, hasGithubToken: bool, hasGroqKey: bool,
                     candidates: seq<NormalizedProject>, verdicts: seq<Option<JudgeOutput>>, now: int)
    returns (report: Option<Report>)
    requires |verdicts| == |candidates|
    modifies db
    ensures !(hasGithubToken && hasGroqKey) ==> report == None && db.processed == old(db.processed)
    ensures hasGithubToken && hasGroqKey ==>
      && db.processed == Judged(old(db.processed), candidates, verdicts, now)
      && report == Some(Report(Summary(|candidates|, |Deals(candidates, verdicts)|), Deals(candidates, verdicts)))
    ensures db.history == old(db.history)
  {
    if !hasGithubToken || !hasGroqKey {
      return None;
    }
    ghost var processed0 := db.processed;
    var finalDeals: seq<Deal> := [];
    for i := 0 to |candidates|
      invariant db.processed == Judged(processed0, candidates[..i], verdicts[..i], now)
      invariant finalDeals == Deals(candidates[..i], verdicts[..i])
      invariant db.history == old(db.history)
    {
      assert candidates[..i + 1][..i] == candidates[..i] && verdicts[..i + 1][..i] == verdicts[..i];
      var project := candidates[i];
      var verdict := verdicts[i];
      if verdict.Some? {
        var card := verdict.value;
        var scoreInvestment := card.novelty + card.marketLeverage + card.moatPotential;
        var decision := if scoreInvestment >= PUBLISH_THRESHOLD then "PUBLISH" else "REJECT";
        db.MarkProcessed(Classified(project, card), decision, scoreInvestment, now);
        if decision == "PUBLISH" {
          finalDeals := finalDeals + [Deal(Classified(project, card), card, scoreInvestment)];
        }
      }
    }
    assert candidates[..|candidates|] == candidates && verdicts[..|verdicts|] == verdicts;
    report := Some(Report(Summary(|candidates|, |finalDeals|), finalDeals));
  }
}
