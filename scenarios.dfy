/**
 * Whole-workflow runs on a small store, each replaying a documented
 * scenario of the review, editorial and confirmation workflows through the
 * modelled operations.
 */
module Scenarios {
  import opened Meta
  import opened StatusManager
  import opened Editorial
  import opened Review
  import opened Submission
  import opened Confirmation
  import opened Selection
  import Ranking

  const Author: UserId := 7
  const Reviewer: UserId := 3
  const Editor: UserId := 1
  const Work: PostId := 93

  /** The same score for every criterion. */
  function Uniform(s: real): map<Criterion, real> {
    map c | c in Criteria :: s
  }

  lemma UniformIsValid(s: real)
    ensures forall c :: c in Uniform(s) && Uniform(s)[c] == s
  {
    forall c ensures c in Uniform(s) && Uniform(s)[c] == s {
      AllCriteriaListed(c);
    }
  }

  /** An Enfrute work by `Author` with the given reviewer and status. */
  function Seeded(reviewer: UserId, status: Status): Post {
    DefaultPost.(event := Some(Enfrute), authorId := Author, reviewerId := reviewer, status := Some(status))
  }

  /** One review by `Reviewer` of a work under review: it moves to `aguardando_decisao`. */
  method ReviewStep(db: MetaStore, data: ReviewData, now: int) returns (r: Outcome)
    modifies db
    requires AllScoresValid(data.scores) && data.decision in ReviewerDecisions
    requires db.Read(Work).reviewerId == Reviewer && db.Read(Work).status == Some(EmAvaliacao)
    ensures r == Done
    ensures db.Read(Work).reviewerId == Reviewer && db.Read(Work).status == Some(AguardandoDecisao)
    ensures db.Read(Work).rankingScore == WeightedAverage(data.scores, map[])
  {
    r := SubmitReview(db, Reviewer, Work, data, map[], now);
  }

  /** One editorial decision on a work awaiting it, as the transition table allows or refuses it. */
  method DecisionStep(db: MetaStore, decision: string, notes: string, now: int) returns (r: Outcome)
    modifies db
    requires decision in DecisionTable
    requires db.Read(Work).status == Some(AguardandoDecisao)
    ensures CanTransition(AguardandoDecisao, DecisionTable[decision]) ==>
      r == Done && db.Read(Work).status == Some(DecisionTable[decision])
    ensures !CanTransition(AguardandoDecisao, DecisionTable[decision]) ==>
      r == Fail(InvalidTransition(AguardandoDecisao, DecisionTable[decision])) && db.Read(Work).status == Some(AguardandoDecisao)
    ensures db.Read(Work).reviewerId == old(db.Read(Work)).reviewerId
    ensures db.Read(Work).authorId == old(db.Read(Work)).authorId
  {
    ghost var before := db.Read(Work);
    r := MakeDecision(db, true, Editor, Work, decision, notes, now);
    ghost var noted := WithEditorNotes(before, notes, now, Editor);
    assert noted.status == before.status && noted.reviewerId == before.reviewerId && noted.authorId == before.authorId;
  }

  /**
   * A review of an `em_avaliacao` work moves it to `aguardando_decisao`; the
   * editor's `return_to_reviewer` is then refused by the transition table, so
   * the work stays awaiting a decision and a second review of it is refused
   * for its status.
   */
  method ReviewAfterReturnToReviewer() returns (first: Outcome, returned: Outcome, second: Outcome, final: Status)
    ensures first == Done
    ensures returned == Fail(InvalidTransition(AguardandoDecisao, EmAvaliacao))
    ensures second == Fail(InvalidStatus)
    ensures final == AguardandoDecisao
  {
    var db := new MetaStore(map[Work := Seeded(Reviewer, EmAvaliacao)]);
    var data := ReviewData(Uniform(10.0), "approved_with_considerations", "Test notes");
    UniformIsValid(10.0);
    first := ReviewStep(db, data, 0);
    returned := DecisionStep(db, "return_to_reviewer", "Please review again", 1);
    second := SubmitReview(db, Reviewer, Work, data, map[], 2);
    final := GetStatus(db.Read(Work));
  }

  /**
   * From `submetido`: assigning a reviewer opens the review, a review with
   * every score 8 and default weights leaves a ranking score of 8 and awaits
   * the decision, and approval moves the work to `aprovado`.
   */
  method ReviewToDecision() returns (assignment: Outcome, reviewed: Outcome, decided: Outcome, score: real, final: Status)
    ensures assignment == Done && reviewed == Done && decided == Done
    ensures score == 8.0
    ensures final == Aprovado
  {
    var db := new MetaStore(map[Work := Seeded(0, Submetido)]);
    assert "sciflow_revisor" in {"sciflow_revisor"} * ReviewerRoles;
    assignment := AssignReviewer(db, true, Work, Reviewer, Some({"sciflow_revisor"}));
    var data := ReviewData(Uniform(8.0), "approved", "");
    UniformIsValid(8.0);
    DefaultWeightsCount(Criteria);
    EqualScoresAverage(data.scores, map[], 8.0);
    reviewed := ReviewStep(db, data, 0);
    score := db.Read(Work).rankingScore;
    decided := DecisionStep(db, "approve", "", 1);
    final := GetStatus(db.Read(Work));
  }

  /**
   * The correction loop: returning a work to its author moves it to
   * `em_correcao`, and the author's resubmission moves it back to
   * `submetido`; nobody else may resubmit.
   */
  method CorrectionLoop() returns (returned: Outcome, stranger: Outcome, resubmitted: Outcome, inCorrection: Status, final: Status)
    ensures returned == Done && resubmitted == Done
    ensures stranger == Fail(Unauthorized)
    ensures inCorrection == EmCorrecao
    ensures final == Submetido
  {
    var db := new MetaStore(map[Work := Seeded(Reviewer, AguardandoDecisao)]);
    returned := MakeDecision(db, true, Editor, Work, "return_to_author", "fix X", 0);
    inCorrection := GetStatus(db.Read(Work));
    stranger := Resubmit(db, Reviewer, Work, "Title", "Fixed", [], None);
    resubmitted := Resubmit(db, Author, Work, "Title", "Fixed", [], None);
    final := GetStatus(db.Read(Work));
  }

  /**
   * Only the author confirms a presentation; the confirmation moves the work
   * to `confirmado` and sets the confirmed flag.
   */
  method ConfirmationByAuthor() returns (stranger: Outcome, author: Outcome, final: Status, confirmed: bool)
    ensures stranger == Fail(Unauthorized)
    ensures author == Done
    ensures final == Confirmado && confirmed
  {
    var db := new MetaStore(map[Work := Seeded(Reviewer, AguardandoConfirmacao)]);
    stranger := ConfirmPresentation(db, Reviewer, Work);
    author := ConfirmPresentation(db, Author, Work);
    final := GetStatus(db.Read(Work));
    confirmed := db.Read(Work).presentationConfirmed;
  }

  const Lapsing: PostId := 2
  const RunnerUp: PostId := 1
  /** Four days after the first selection, in seconds. */
  const FourDaysOn: int := 345600

  /** A work selected at time 0 with score 9 and a runner-up with score 7, both in Enfrute. */
  function EscalationStart(): map<PostId, Post> {
    map[
      Lapsing := Seeded(Reviewer, AguardandoConfirmacao).(rankingScore := 9.0, selectedForPresentation := true,
                                                           confirmationDeadline := Some(ThreeDays)),
      RunnerUp := Seeded(Reviewer, Aprovado).(rankingScore := 7.0)]
  }

  /** The runner-up is the only candidate once the lapsed work is excluded. */
  lemma RunnerUpIsNext(m: map<PostId, Post>)
    requires m.Keys == {Lapsing, RunnerUp}
    requires Candidate(m, RunnerUp, Lapsing) && Ranking.InPool(m, Enfrute, RunnerUp)
    ensures FirstCandidate(m, Ranking.GetEventRanking(m, "enfrute"), Lapsing) == Some(RunnerUp)
  {
    var ranking := Ranking.GetEventRanking(m, "enfrute");
    Ranking.QueryRankedIsPool(m, Enfrute);
    FirstCandidateIsFirst(m, ranking, Lapsing);
    var k :| 0 <= k < |ranking| && ranking[k] == RunnerUp;
    assert Candidate(m, ranking[k], Lapsing);
  }

  /** The sweep's query for `e` when exactly `id` awaits confirmation there. */
  lemma SingleAwaiting(m: map<PostId, Post>, e: Event, id: PostId)
    requires id in m && m[id].event == Some(e) && m[id].status == Some(AguardandoConfirmacao)
    requires forall x :: x in m && x != id ==> m[x].status != Some(AguardandoConfirmacao)
    ensures AwaitingIds(m, e) == [id]
  {
    var awaiting := set x | x in m && m[x].event == Some(e) && m[x].status == Some(AguardandoConfirmacao);
    assert awaiting == {id};
    assert AwaitingIds(m, e) == NewestFirst(awaiting);
    assert NewestFirst({id}) == [id];
  }

  /** The sweep's query for `e` when nothing of `e` awaits confirmation. */
  lemma NoneAwaiting(m: map<PostId, Post>, e: Event)
    requires forall x :: x in m ==> m[x].status != Some(AguardandoConfirmacao) || m[x].event != Some(e)
    ensures AwaitingIds(m, e) == []
  {
    var awaiting := set x | x in m && m[x].event == Some(e) && m[x].status == Some(AguardandoConfirmacao);
    assert awaiting == {};
    assert AwaitingIds(m, e) == NewestFirst(awaiting);
  }

  lemma EscalationSweep(a: Post, b: Post, now: int)
    requires a.event == Some(Enfrute) && a.status == Some(AguardandoConfirmacao) && Lapsed(a, now)
    requires b.event == Some(Enfrute) && b.status == Some(Aprovado) && b.rankingScore > 0.0
    requires !b.selectedForPresentation && !b.presentationConfirmed
    ensures var after := SweepEvents(Store(map[Lapsing := a, RunnerUp := b], []), SweepOrder, now);
      && ReadPost(after.posts, Lapsing) == a.(selectedForPresentation := false, status := Some(Aprovado))
      && ReadPost(after.posts, RunnerUp) == b.(selectedForPresentation := true,
           confirmationDeadline := Some(now + ThreeDays), status := Some(AguardandoConfirmacao))
      && after.outbox == [ConfirmationNeeded(RunnerUp)]
  {
    var m0 := map[Lapsing := a, RunnerUp := b];
    var s0 := Store(m0, []);
    assert SweepOrder[..1] == [Enfrute] && [Enfrute][..0] == [] && [Lapsing][..0] == [];
    SingleAwaiting(m0, Enfrute, Lapsing);
    var m1 := m0[Lapsing := a.(selectedForPresentation := false, status := Some(Aprovado))];
    RunnerUpIsNext(m1);
    assert SweepEvents(s0, [], now) == s0;
    assert ReleaseAll(s0, Enfrute, [Lapsing], now) == ReleaseOne(s0, Enfrute, Lapsing, now);
    var s1 := SweepEvents(s0, [Enfrute], now);
    assert s1 == ReleaseAll(s0, Enfrute, [Lapsing], now);
    assert s1 == Promote(Store(m1, []), RunnerUp, now + ThreeDays);
    NoneAwaiting(s1.posts, Senco);
  }

  /**
   * A selected work whose confirmation deadline has passed is released back
   * to `aprovado`, and its slot goes to the runner-up of its event, which now
   * awaits confirmation with a fresh three-day deadline.
   */
  method EscalationAfterLapse() returns (released: Post, promoted: Post, notices: seq<Notice>)
    ensures released.status == Some(Aprovado) && !released.selectedForPresentation
    ensures promoted.status == Some(AguardandoConfirmacao) && promoted.selectedForPresentation
    ensures promoted.confirmationDeadline == Some(FourDaysOn + ThreeDays)
    ensures notices == [ConfirmationNeeded(RunnerUp)]
  {
    var db := new MetaStore(EscalationStart());
    CheckDeadlines(db, FourDaysOn);
    EscalationSweep(EscalationStart()[Lapsing], EscalationStart()[RunnerUp], FourDaysOn);
    released := db.Read(Lapsing);
    promoted := db.Read(RunnerUp);
    notices := db.outbox;
  }
}
