/**
 * The reviewer-facing workflow: score validation, the weighted ranking score
 * and the move to `aguardando_decisao`.
 */
module Review {
  import opened Meta
  import opened StatusManager
  import opened Editorial

  /** A criterion is scored when it is present and lies in [0, 10]. */
  predicate ScoreOk(raw: map<Criterion, real>, c: Criterion) {
    c in raw && 0.0 <= raw[c] <= 10.0
  }

  predicate AllScoresValid(raw: map<Criterion, real>) {
    forall c: Criterion :: c in raw && 0.0 <= raw[c] <= 10.0
  }

  /** The error for the first criterion of `cs` that is not properly scored, if any. */
  function ScoreIssue(raw: map<Criterion, real>, cs: seq<Criterion>): Option<Error> {
    if cs == [] then None
    else if cs[0] !in raw then Some(MissingScore(cs[0]))
    else if raw[cs[0]] < 0.0 || raw[cs[0]] > 10.0 then Some(InvalidScore(cs[0]))
    else ScoreIssue(raw, cs[1..])
  }

  /** The error `validate_scores` reports for a criterion that fails. */
  function IssueFor(raw: map<Criterion, real>, c: Criterion): Error {
    if c !in raw then MissingScore(c) else InvalidScore(c)
  }

  /**
   * `ScoreIssue` finds nothing exactly when every criterion passes, and
   * otherwise reports the first failing criterion in order.
   */
  lemma {:induction false} ScoreIssueIsFirst(raw: map<Criterion, real>, cs: seq<Criterion>)
    ensures ScoreIssue(raw, cs).None? <==> forall j :: 0 <= j < |cs| ==> ScoreOk(raw, cs[j])
    ensures ScoreIssue(raw, cs).Some? ==>
      exists k :: 0 <= k < |cs| && !ScoreOk(raw, cs[k]) && ScoreIssue(raw, cs).value == IssueFor(raw, cs[k])
        && forall j :: 0 <= j < k ==> ScoreOk(raw, cs[j])
  {
    if cs != [] && ScoreOk(raw, cs[0]) {
      ScoreIssueIsFirst(raw, cs[1..]);
      if ScoreIssue(raw, cs).Some? {
        var k :| 0 <= k < |cs[1..]| && !ScoreOk(raw, cs[1..][k]) && ScoreIssue(raw, cs[1..]).value == IssueFor(raw, cs[1..][k])
          && forall j :: 0 <= j < k ==> ScoreOk(raw, cs[1..][j]);
        assert forall j :: 0 <= j < k + 1 ==> ScoreOk(raw, cs[j]) by {
          forall j | 0 <= j < k + 1 ensures ScoreOk(raw, cs[j]) {
            if j > 0 { assert cs[j] == cs[1..][j - 1]; }
          }
        }
        assert cs[k + 1] == cs[1..][k];
      } else {
        forall j | 0 <= j < |cs| ensures ScoreOk(raw, cs[j]) {
          if j > 0 { assert cs[j] == cs[1..][j - 1]; }
        }
      }
    }
  }

  lemma AllCriteriaListed(c: Criterion)
    ensures c in Criteria
  {
  }

  /**
   * `validate_scores`: walk the five criteria in order, stop at the first one
   * that is missing or out of range, and otherwise return the scores.
   */
  method ValidateScores(raw: map<Criterion, real>) returns (r: Result<map<Criterion, real>>)
    ensures r.Ok? <==> AllScoresValid(raw)
    ensures r.Ok? ==> r.value == raw
    ensures r.Err? ==> ScoreIssue(raw, Criteria) == Some(r.error)
    ensures r.Err? ==>
      exists k :: 0 <= k < |Criteria| && !ScoreOk(raw, Criteria[k]) && r.error == IssueFor(raw, Criteria[k])
        && forall j :: 0 <= j < k ==> ScoreOk(raw, Criteria[j])
  {
    var scores: map<Criterion, real> := map[];
    var i := 0;
    while i < |Criteria|
      invariant 0 <= i <= |Criteria|
      invariant forall j :: 0 <= j < i ==> ScoreOk(raw, Criteria[j])
      invariant forall c :: c in scores <==> c in Criteria[..i]
      invariant forall c :: c in scores ==> c in raw && scores[c] == raw[c]
      invariant ScoreIssue(raw, Criteria) == ScoreIssue(raw, Criteria[i..])
    {
      var key := Criteria[i];
      assert Criteria[i..][1..] == Criteria[i + 1..];
      if key !in raw {
        return Err(MissingScore(key));
      }
      var val := raw[key];
      if val < 0.0 || val > 10.0 {
        return Err(InvalidScore(key));
      }
      scores := scores[key := val];
      assert Criteria[..i + 1] == Criteria[..i] + [key];
      i := i + 1;
    }
    forall c: Criterion ensures c in raw && 0.0 <= raw[c] <= 10.0 {
      AllCriteriaListed(c);
      var j :| 0 <= j < |Criteria| && Criteria[j] == c;
    }
    assert Criteria[..i] == Criteria;
    forall c | c in raw ensures c in scores {
      AllCriteriaListed(c);
    }
    r := Ok(scores);
  }

  /** `$weights[$key] ?? 1`: a criterion without a configured weight weighs 1. */
  function WeightOf(weights: map<Criterion, real>, c: Criterion): real {
    if c in weights then weights[c] else 1.0
  }

  /** Sum of score times weight over `cs`. */
  function WeightedSum(scores: map<Criterion, real>, weights: map<Criterion, real>, cs: seq<Criterion>): real
    requires forall c :: c in cs ==> c in scores
  {
    if cs == [] then 0.0
    else WeightedSum(scores, weights, cs[..|cs| - 1]) + scores[cs[|cs| - 1]] * WeightOf(weights, cs[|cs| - 1])
  }

  /** Sum of the weights over `cs`. */
  function TotalWeight(weights: map<Criterion, real>, cs: seq<Criterion>): real {
    if cs == [] then 0.0
    else TotalWeight(weights, cs[..|cs| - 1]) + WeightOf(weights, cs[|cs| - 1])
  }

  /** With no weights configured every criterion weighs 1. */
  lemma {:induction false} DefaultWeightsCount(cs: seq<Criterion>)
    ensures TotalWeight(map[], cs) == |cs| as real
  {
    if cs != [] {
      DefaultWeightsCount(cs[..|cs| - 1]);
    }
  }

  /** The ranking score: the weighted mean of the five criteria, 0 when the weights do not sum to a positive value. */
  function WeightedAverage(scores: map<Criterion, real>, weights: map<Criterion, real>): real
    requires forall c :: c in Criteria ==> c in scores
  {
    var total := TotalWeight(weights, Criteria);
    if total > 0.0 then WeightedSum(scores, weights, Criteria) / total else 0.0
  }

  /** `calculate_average`: accumulate the weighted sum and the total weight over the five criteria. */
  method CalculateAverage(scores: map<Criterion, real>, weights: map<Criterion, real>) returns (avg: real)
    requires forall c :: c in Criteria ==> c in scores
    ensures avg == WeightedAverage(scores, weights)
  {
    var totalWeight := 0.0;
    var weightedSum := 0.0;
    for i := 0 to |Criteria|
      invariant totalWeight == TotalWeight(weights, Criteria[..i])
      invariant weightedSum == WeightedSum(scores, weights, Criteria[..i])
    {
      var key := Criteria[i];
      assert Criteria[..i + 1][..i] == Criteria[..i];
      var weight := WeightOf(weights, key);
      weightedSum := weightedSum + scores[key] * weight;
      totalWeight := totalWeight + weight;
    }
    assert Criteria[..|Criteria|] == Criteria;
    avg := if totalWeight > 0.0 then weightedSum / totalWeight else 0.0;
  }

  lemma {:induction false} WeightedSumOfEqualScores(scores: map<Criterion, real>, weights: map<Criterion, real>, cs: seq<Criterion>, s: real)
    requires forall c :: c in cs ==> c in scores && scores[c] == s
    ensures WeightedSum(scores, weights, cs) == s * TotalWeight(weights, cs)
  {
    if cs != [] {
      WeightedSumOfEqualScores(scores, weights, cs[..|cs| - 1], s);
    }
  }

  /** When every criterion has the same score `s` and the weights sum to a positive value, the ranking score is `s`. */
  lemma EqualScoresAverage(scores: map<Criterion, real>, weights: map<Criterion, real>, s: real)
    requires forall c :: c in Criteria ==> c in scores && scores[c] == s
    requires TotalWeight(weights, Criteria) > 0.0
    ensures WeightedAverage(scores, weights) == s
  {
    WeightedSumOfEqualScores(scores, weights, Criteria, s);
  }

  lemma ScaledScoreBounds(x: real, w: real)
    requires 0.0 <= x <= 10.0 && 0.0 <= w
    ensures 0.0 <= x * w <= 10.0 * w
  {
  }

  lemma {:induction false} WeightedSumBounds(scores: map<Criterion, real>, weights: map<Criterion, real>, cs: seq<Criterion>)
    requires forall c :: c in cs ==> c in scores && 0.0 <= scores[c] <= 10.0 && WeightOf(weights, c) >= 0.0
    ensures 0.0 <= WeightedSum(scores, weights, cs) <= 10.0 * TotalWeight(weights, cs)
    ensures 0.0 <= TotalWeight(weights, cs)
  {
    if cs != [] {
      var prefix := cs[..|cs| - 1];
      var last := cs[|cs| - 1];
      WeightedSumBounds(scores, weights, prefix);
      var w := WeightOf(weights, last);
      var x := scores[last];
      ScaledScoreBounds(x, w);
      var prevSum := WeightedSum(scores, weights, prefix);
      var prevTotal := TotalWeight(weights, prefix);
      assert WeightedSum(scores, weights, cs) == prevSum + x * w;
      assert TotalWeight(weights, cs) == prevTotal + w;
    }
  }

  /** With non-negative weights, valid scores give a ranking score in [0, 10]. */
  lemma AverageInScoreRange(scores: map<Criterion, real>, weights: map<Criterion, real>)
    requires AllScoresValid(scores)
    requires forall c :: c in weights ==> weights[c] >= 0.0
    ensures 0.0 <= WeightedAverage(scores, weights) <= 10.0
  {
    WeightedSumBounds(scores, weights, Criteria);
    var total := TotalWeight(weights, Criteria);
    if total > 0.0 {
      var sum := WeightedSum(scores, weights, Criteria);
      assert sum / total <= 10.0 by {
        assert sum <= 10.0 * total;
      }
    }
  }

  /** The statuses in which a review may be submitted. */
  const ReviewStatuses: set<Status> := {EmAvaliacao, EmCorrecao, Submetido}

  const ReviewerDecisions: set<string> := {"approved", "approved_with_considerations", "rejected"}

  datatype ReviewData = ReviewData(scores: map<Criterion, real>, decision: string, notes: string)

  /** The post once the review fields, the `revisor` history entry and the ranking score are written. */
  function Reviewed(p: Post, data: ReviewData, weights: map<Criterion, real>, now: int, actor: UserId): (q: Post)
    requires AllScoresValid(data.scores)
    ensures q.scores == data.scores && q.reviewerDecision == data.decision && q.reviewerNotes == data.notes
    ensures q.rankingScore == WeightedAverage(data.scores, weights)
    ensures GetMessageHistory(q) == GetMessageHistory(p) + [Message("revisor", data.notes, now, actor)]
    ensures q.status == p.status && q.reviewerId == p.reviewerId && q.selectedForPresentation == p.selectedForPresentation
  {
    var written := p.(scores := data.scores, reviewerDecision := data.decision, reviewerNotes := data.notes);
    WithMessage(written, Message("revisor", data.notes, now, actor)).(rankingScore := WeightedAverage(data.scores, weights))
  }

  /**
   * `submit_review`. `weights` is the configured `ranking_weights` setting.
   * Once the guards pass, the review is written before the transition is tried,
   * so it stays written when the transition is rejected.
   */
  method SubmitReview(db: MetaStore, actor: UserId, id: PostId, data: ReviewData, weights: map<Criterion, real>, now: int)
    returns (r: Outcome)
    modifies db
    ensures actor != old(db.Read(id)).reviewerId ==> r == Fail(Unauthorized) && unchanged(db)
    ensures actor == old(db.Read(id)).reviewerId && GetStatus(old(db.Read(id))) !in ReviewStatuses ==>
      r == Fail(InvalidStatus) && unchanged(db)
    ensures actor == old(db.Read(id)).reviewerId && GetStatus(old(db.Read(id))) in ReviewStatuses ==>
      var from := GetStatus(old(db.Read(id)));
      && (!AllScoresValid(data.scores) ==> r.Fail? && ScoreIssue(data.scores, Criteria) == Some(r.error) && unchanged(db))
      && (AllScoresValid(data.scores) && data.decision !in ReviewerDecisions ==> r == Fail(InvalidDecision) && unchanged(db))
      && (AllScoresValid(data.scores) && data.decision in ReviewerDecisions ==>
            var reviewed := Reviewed(old(db.Read(id)), data, weights, now, actor);
            if from == EmCorrecao then
              r == Done && db.posts == old(db.posts)[id := reviewed] && db.outbox == old(db.outbox)
            else if CanTransition(from, AguardandoDecisao) then
              && r == Done
              && db.posts == old(db.posts)[id := reviewed.(status := Some(AguardandoDecisao))]
              && db.outbox == old(db.outbox) + [StatusChanged(id, AguardandoDecisao, from), ReviewComplete(id)]
            else
              && r == Fail(InvalidTransition(from, AguardandoDecisao))
              && db.posts == old(db.posts)[id := reviewed]
              && db.outbox == old(db.outbox))
  {
    var reviewer := db.Read(id).reviewerId;
    if actor != reviewer {
      return Fail(Unauthorized);
    }
    var current := GetStatus(db.Read(id));
    if current !in ReviewStatuses {
      return Fail(InvalidStatus);
    }
    var scores := ValidateScores(data.scores);
    if scores.Err? {
      return Fail(scores.error);
    }
    if data.decision !in ReviewerDecisions {
      return Fail(InvalidDecision);
    }
    ghost var before := db.Read(id);
    db.posts := db.posts[id := db.Read(id).(scores := scores.value, reviewerDecision := data.decision, reviewerNotes := data.notes)];
    AddMessage(db, id, "revisor", data.notes, now, actor);
    var rankingScore := CalculateAverage(scores.value, weights);
    db.posts := db.posts[id := db.Read(id).(rankingScore := rankingScore)];
    assert db.Read(id) == Reviewed(before, data, weights, now, actor);
    assert db.posts == old(db.posts)[id := Reviewed(before, data, weights, now, actor)];
    if current in {EmAvaliacao, Submetido} {
      r := Transition(db, id, AguardandoDecisao);
      if r.Done? {
        db.outbox := db.outbox + [ReviewComplete(id)];
      }
    } else {
      r := Done;
    }
  }

  /**
   * Of the two statuses from which a review tries `aguardando_decisao`, only
   * `em_avaliacao` has that edge: a review of a `submetido` post is stored but
   * always reports `invalid_transition`.
   */
  lemma ReviewTransitionEdges()
    ensures CanTransition(EmAvaliacao, AguardandoDecisao)
    ensures !CanTransition(Submetido, AguardandoDecisao)
  {
  }
}
