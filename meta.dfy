/**
 * The per-post meta store that every SciFlow workflow reads and writes.
 *
 * WordPress keeps each submission's workflow state in post meta fields
 * (`_sciflow_status`, `_sciflow_reviewer_id`, ...). Here the whole store is one
 * object holding a map from post id to a record with one field per meta key,
 * together with the log of notifications (emails and action hooks) that the
 * workflows fire.
 */
module Meta {

  datatype Option<T> = None | Some(value: T)

  type PostId = nat
  /** A WordPress user id; 0 stands for "nobody" (not logged in, or an unset meta). */
  type UserId = nat

  /**
   * Workflow statuses. The first eleven are the ones the status manager labels;
   * the last three are written by the editorial and submission code but have no
   * label and no outgoing edge in the transition table.
   */
  datatype Status =
    | Rascunho
    | AguardandoPagamento
    | Submetido
    | EmAvaliacao
    | AguardandoDecisao
    | EmCorrecao
    | Aprovado
    | Reprovado
    | PosterEnviado
    | AguardandoConfirmacao
    | Confirmado
    | AptoRevisao
    | AptoPublicacao
    | AprovadoComConsideracoes

  /** The two events; each has its own post type. */
  datatype Event = Enfrute | Senco

  /** The five review criteria, in the order in which they are validated. */
  datatype Criterion = Originalidade | Objetividade | Organizacao | Metodologia | Aderencia

  const Criteria: seq<Criterion> := [Originalidade, Objetividade, Organizacao, Metodologia, Aderencia]

  datatype Payment = Pending | Confirmed

  datatype Coauthor = Coauthor(name: string, email: string, institution: string)

  /** One entry of `_sciflow_message_history`. */
  datatype Message = Message(role: string, content: string, timestamp: int, userId: UserId)

  /**
   * The meta fields of one post. `status == None` is an empty stored status;
   * `event == None` is an id that holds meta but is no submission post;
   * `messageHistory == None` is a stored history that is not an array.
   */
  datatype Post = Post(
    status: Option<Status>,
    event: Option<Event>,
    title: string,
    content: string,
    authorId: UserId,
    coauthors: seq<Coauthor>,
    keywords: seq<string>,
    language: string,
    reviewerId: UserId,
    scores: map<Criterion, real>,
    rankingScore: real,
    reviewerDecision: string,
    reviewerNotes: string,
    editorialNotes: string,
    decision: string,
    messageHistory: Option<seq<Message>>,
    paymentStatus: Payment,
    posterId: nat,
    selectedForPresentation: bool,
    presentationConfirmed: bool,
    confirmationDeadline: Option<int>)

  /** What every meta read yields before anything is written: the registered defaults. */
  const DefaultPost: Post := Post(
    status := Some(Rascunho),
    event := None,
    title := "",
    content := "",
    authorId := 0,
    coauthors := [],
    keywords := [],
    language := "pt",
    reviewerId := 0,
    scores := map[],
    rankingScore := 0.0,
    reviewerDecision := "",
    reviewerNotes := "",
    editorialNotes := "",
    decision := "",
    messageHistory := None,
    paymentStatus := Pending,
    posterId := 0,
    selectedForPresentation := false,
    presentationConfirmed := false,
    confirmationDeadline := None)

  /** The WP_Error codes the core returns. */
  datatype Error =
    | Unauthorized
    | InvalidStatus
    | InvalidTransition(from: Status, to: Status)
    | MissingScore(criterion: Criterion)
    | InvalidScore(criterion: Criterion)
    | InvalidDecision
    | InvalidUser
    | NotReviewer
    | NotLoggedIn
    | PaymentRequired
    | InvalidEvent
    | MaxSubmissions
    | CharLimit(count: nat)
    | Keywords
    | MaxAuthors
    | InvalidPost
    | AlreadySubmitted
    | PostWriteFailed
    | InvalidFile
    | FileTooLarge
    | UploadError
    | NotEligible

  /** `true|WP_Error` */
  datatype Outcome = Done | Fail(error: Error)

  /** `T|WP_Error` */
  datatype Result<T> = Ok(value: T) | Err(error: Error)

  /** Notifications: the emails the workflows send and the action hooks they fire. */
  datatype Notice =
    | StatusChanged(post: PostId, to: Status, from: Status)
    | SubmissionCreated(post: PostId, createdIn: Event)
    | NewSubmission(post: PostId, eventMeta: Option<Event>)
    | AssignedReviewer(post: PostId, reviewer: UserId)
    | ReviewComplete(post: PostId)
    | EditorialDecision(post: PostId, decision: string, notes: string)
    | ReturnedToReviewer(post: PostId)
    | PosterRequest(post: PostId)
    | ConfirmationNeeded(post: PostId)
    | AttachmentDeleted(attachment: nat)

  /** PHP's `empty()` on a string: true for "" and for "0". */
  predicate PhpEmpty(s: string) {
    s == "" || s == "0"
  }

  /** The meta of `id` as `get_post_meta` sees it. */
  function ReadPost(m: map<PostId, Post>, id: PostId): (p: Post)
    ensures id !in m ==> p == DefaultPost
  {
    if id in m then m[id] else DefaultPost
  }

  /** `get_post($id)` finds a submission post. */
  predicate Exists(m: map<PostId, Post>, id: PostId) {
    id in m && m[id].event.Some?
  }

  class MetaStore {
    var posts: map<PostId, Post>
    var outbox: seq<Notice>

    constructor (posts: map<PostId, Post>)
      ensures this.posts == posts && outbox == []
    {
      this.posts := posts;
      outbox := [];
    }

    function Read(id: PostId): Post
      reads this
    {
      ReadPost(posts, id)
    }
  }
}
