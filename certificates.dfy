/**
 * Certificate eligibility and the eligibility guard of certificate generation.
 * Rendering the certificate and writing the PDF or HTML file are not modelled;
 * `Generate` yields the data the certificate is rendered from.
 */
module Certificates {
  import opened Meta
  import opened StatusManager
  import Ranking
  import Confirmation
  import PosterUpload

  /** The raw statuses that earn a certificate once the fee is paid. */
  const CertifiedStatuses: set<Option<Status>> := {Some(Confirmado), Some(Aprovado), Some(PosterEnviado)}

  /**
   * `is_eligible`: the fee is paid and the stored status is one of the
   * certified ones. The presentation-confirmed flag is read but plays no part.
   */
  predicate IsEligible(p: Post) {
    p.paymentStatus == Confirmed && p.status in CertifiedStatuses
  }

  /** The values the certificate is rendered from. */
  datatype Certificate = Certificate(title: string, authorId: UserId, coauthors: seq<Coauthor>, event: string)

  /**
   * The printed name of an event, which opens with the event's own name; a
   * post without an event prints the empty stored value.
   */
  function EventLabel(e: Option<Event>): (shown: string)
    ensures e.Some? ==> |shown| > 0
    ensures e == Some(Enfrute) ==> |shown| >= 7 && shown[..7] == "Enfrute"
    ensures e == Some(Senco) ==> |shown| >= 5 && shown[..5] == "Senco"
    ensures e.None? ==> shown == ""
  {
    match e
    case Some(Enfrute) => "Enfrute" + " — Congresso Nacional"
    case Some(Senco) => "Senco" + " — Seminário Catarinense de Olericultura"
    case None => ""
  }

  /**
   * `generate`: `not_eligible` exactly when the work is not eligible;
   * otherwise the certificate names the work's title, author, co-authors and
   * event.
   */
  function Generate(m: map<PostId, Post>, id: PostId): (r: Result<Certificate>)
    ensures r.Err? <==> !IsEligible(ReadPost(m, id))
    ensures r.Err? ==> r.error == NotEligible
    ensures r.Ok? ==>
      && r.value.title == ReadPost(m, id).title
      && r.value.authorId == ReadPost(m, id).authorId
      && r.value.coauthors == ReadPost(m, id).coauthors
      && r.value.event == EventLabel(ReadPost(m, id).event)
      && (ReadPost(m, id).event.Some? <==> r.value.event != "")
  {
    var p := ReadPost(m, id);
    if !IsEligible(p) then Err(NotEligible)
    else Ok(Certificate(p.title, p.authorId, p.coauthors, EventLabel(p.event)))
  }

  /** Without a confirmed payment there is no certificate, whatever the status. */
  lemma UnpaidNeverEligible(m: map<PostId, Post>, id: PostId)
    requires ReadPost(m, id).paymentStatus != Confirmed
    ensures Generate(m, id) == Err(NotEligible)
  {
  }

  /**
   * With the fee paid, a certificate is issued exactly for `confirmado`,
   * `aprovado` and `poster_enviado`; in particular a work still awaiting its
   * presentation confirmation gets none.
   */
  lemma PaidEligibility(p: Post)
    requires p.paymentStatus == Confirmed
    ensures IsEligible(p) <==> p.status == Some(Confirmado) || p.status == Some(Aprovado) || p.status == Some(PosterEnviado)
    ensures !IsEligible(p.(status := Some(AguardandoConfirmacao)))
  {
  }

  /** Eligibility does not depend on `presentation_confirmed`. */
  lemma EligibilityIgnoresPresentationFlag(p: Post, confirmed: bool)
    ensures IsEligible(p) <==> IsEligible(p.(presentationConfirmed := confirmed))
  {
  }

  /**
   * An eligible work with a positive score is in the ranking of its event;
   * the converse fails for `aguardando_confirmacao`, which is ranked but not
   * certified.
   */
  lemma EligibleScoredWorksAreRanked(m: map<PostId, Post>, id: PostId, e: Event)
    requires IsEligible(ReadPost(m, id)) && ReadPost(m, id).event == Some(e) && ReadPost(m, id).rankingScore > 0.0
    ensures id in Ranking.QueryRanked(m, e)
  {
    Ranking.QueryRankedIsPool(m, e);
  }

  /**
   * Selection for presentation suspends eligibility: notifying a paid approved
   * work moves it to `aguardando_confirmacao`, which is not certified, and
   * confirming the presentation restores it.
   */
  lemma NotificationSuspendsEligibility(s: Confirmation.Store, id: PostId, deadline: int)
    requires Confirmation.Confirmable(ReadPost(s.posts, id)) && ReadPost(s.posts, id).paymentStatus == Confirmed
    ensures IsEligible(ReadPost(s.posts, id))
    ensures !IsEligible(ReadPost(Confirmation.NotifyAll(s, [id], deadline).posts, id))
    ensures IsEligible(ReadPost(Confirmation.NotifyAll(s, [id], deadline).posts, id).(presentationConfirmed := true, status := Some(Confirmado)))
  {
    Confirmation.NotifyAllEffect(s, [id], deadline, id);
  }

  /** Uploading a poster never costs a paid work its certificate. */
  lemma UploadKeepsEligibility(p: Post, attachment: nat)
    requires IsEligible(p)
    ensures IsEligible(PosterUpload.Uploaded(p, attachment))
  {
  }
}
