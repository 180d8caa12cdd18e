/**
 * The author-facing workflow: creating or editing a submission, confirming
 * its payment and resubmitting it after corrections.
 */
module Submission {
  import opened Meta
  import opened StatusManager
  import opened Editorial

  /** `array_filter` on the keyword list: entries PHP reads as empty are dropped. */
  function FilterKeywords(ks: seq<string>): (kept: seq<string>)
    ensures |kept| <= |ks|
  {
    if ks == [] then []
    else if PhpEmpty(ks[0]) then FilterKeywords(ks[1..])
    else [ks[0]] + FilterKeywords(ks[1..])
  }

  lemma {:induction false} FilterKeywordsMembers(ks: seq<string>, k: string)
    ensures k in FilterKeywords(ks) <==> k in ks && !PhpEmpty(k)
  {
    if ks != [] {
      FilterKeywordsMembers(ks[1..], k);
      assert ks == [ks[0]] + ks[1..];
    }
  }

  /** The co-author filter: only entries with a name PHP reads as non-empty are kept, in order. */
  function KeepNamed(cs: seq<Coauthor>): (kept: seq<Coauthor>)
    ensures |kept| <= |cs|
  {
    if cs == [] then []
    else if PhpEmpty(cs[0].name) then KeepNamed(cs[1..])
    else [cs[0]] + KeepNamed(cs[1..])
  }

  lemma {:induction false} KeepNamedMembers(cs: seq<Coauthor>, a: Coauthor)
    ensures a in KeepNamed(cs) <==> a in cs && !PhpEmpty(a.name)
  {
    if cs != [] {
      KeepNamedMembers(cs[1..], a);
      assert cs == [cs[0]] + cs[1..];
    }
  }

  /** The form accepts at most eight co-author rows. */
  const MaxCoauthorRows := 8

  /** What `sanitize_coauthors` yields: the named entries among the first eight rows. */
  function SanitizedCoauthors(raw: seq<Coauthor>): seq<Coauthor> {
    KeepNamed(if |raw| <= MaxCoauthorRows then raw else raw[..MaxCoauthorRows])
  }

  /**
   * The sanitised co-author list has at most eight entries, each of them named
   * and taken from one of the first eight rows.
   */
  lemma SanitizedCoauthorsBounds(raw: seq<Coauthor>, a: Coauthor)
    ensures |SanitizedCoauthors(raw)| <= MaxCoauthorRows
    ensures a in SanitizedCoauthors(raw) <==> !PhpEmpty(a.name) && exists i :: 0 <= i < |raw| && i < MaxCoauthorRows && raw[i] == a
  {
    var firstRows := if |raw| <= MaxCoauthorRows then raw else raw[..MaxCoauthorRows];
    KeepNamedMembers(firstRows, a);
    if a in firstRows {
      var i :| 0 <= i < |firstRows| && firstRows[i] == a;
      assert raw[i] == a;
    }
    if exists i :: 0 <= i < |raw| && i < MaxCoauthorRows && raw[i] == a {
      var i :| 0 <= i < |raw| && i < MaxCoauthorRows && raw[i] == a;
      assert firstRows[i] == a;
    }
  }

  /**
   * `sanitize_coauthors`: copy rows until key 8 is reached, then drop the
   * unnamed ones. The rows arrive as a list, so a row's key is its position;
   * a value that is not an array reaches here as `[]`.
   */
  method SanitizeCoauthors(raw: seq<Coauthor>) returns (clean: seq<Coauthor>)
    ensures clean == SanitizedCoauthors(raw)
  {
    var rows: seq<Coauthor> := [];
    var i := 0;
    while i < |raw|
      invariant 0 <= i <= |raw| && i <= MaxCoauthorRows
      invariant rows == raw[..i]
    {
      if i >= MaxCoauthorRows {
        break;
      }
      rows := rows + [raw[i]];
      i := i + 1;
    }
    assert rows == if |raw| <= MaxCoauthorRows then raw else raw[..MaxCoauthorRows];
    clean := KeepNamed(rows);
  }

  /** The ids the quota query finds: posts of `e` whose author is `user`. */
  function AuthoredIn(posts: map<PostId, Post>, user: UserId, e: Event): set<PostId> {
    set id | id in posts && posts[id].event == Some(e) && posts[id].authorId == user
  }

  /** `count_submissions_by_author` for one event: count the matching posts one by one. */
  method CountSubmissionsByAuthor(posts: map<PostId, Post>, user: UserId, e: Event) returns (count: nat)
    ensures count == |AuthoredIn(posts, user, e)|
  {
    count := 0;
    var remaining := posts.Keys;
    ghost var counted: set<PostId> := {};
    while remaining != {}
      invariant remaining <= posts.Keys
      invariant counted == set id | id in posts && id !in remaining && posts[id].event == Some(e) && posts[id].authorId == user
      invariant count == |counted|
      decreases |remaining|
    {
      var id :| id in remaining;
      if posts[id].event == Some(e) && posts[id].authorId == user {
        assert id !in counted;
        counted := counted + {id};
        count := count + 1;
      }
      remaining := remaining - {id};
    }
    assert counted == AuthoredIn(posts, user, e);
  }

  /** `language` falls back to `pt` unless it is one of the three offered. */
  function NormalizeLanguage(language: string): (l: string)
    ensures l in {"pt", "en", "es"}
    ensures language in {"pt", "en", "es"} ==> l == language
    ensures language !in {"pt", "en", "es"} ==> l == "pt"
  {
    if language in {"pt", "en", "es"} then language else "pt"
  }

  /**
   * The submission form. `postId == 0` is an absent `post_id`; `plainContent`
   * is the content with its tags stripped; absent keyword and co-author lists
   * are empty.
   */
  datatype Form = Form(
    isDraft: bool,
    event: string,
    postId: PostId,
    title: string,
    content: string,
    plainContent: string,
    authorsText: string,
    keywords: seq<string>,
    coauthors: seq<Coauthor>,
    language: string)

  /** The length that must lie in [3000, 4000]: title, text and author line joined by spaces. */
  function CharCount(f: Form): nat {
    |f.title + " " + f.plainContent + " " + f.authorsText|
  }

  const MinChars := 3000
  const MaxChars := 4000
  const MaxSubmissionsPerEvent := 2
  const AuthorLimit := 6

  /** The raw statuses in which an existing post may be edited. */
  const EditableStatuses: set<Status> := {Rascunho, EmCorrecao, AprovadoComConsideracoes, Reprovado}

  /** The raw statuses from which an edit counts as sending corrections. */
  const CorrectionStatuses: set<Status> := {EmCorrecao, AprovadoComConsideracoes, Reprovado}

  /**
   * The first guard of `create` that rejects the form, in the order they are
   * checked. `registration` is `None` when no payment integration is active,
   * otherwise whether the user has a paid registration.
   */
  function CreateError(posts: map<PostId, Post>, actor: UserId, f: Form, registration: Option<bool>): Option<Error> {
    if actor == 0 then Some(NotLoggedIn)
    else if !f.isDraft && registration == Some(false) then Some(PaymentRequired)
    else if ParseEvent(f.event).None? then Some(InvalidEvent)
    else if f.postId == 0 && |AuthoredIn(posts, actor, ParseEvent(f.event).value)| >= MaxSubmissionsPerEvent then Some(MaxSubmissions)
    else if !f.isDraft && !(MinChars <= CharCount(f) <= MaxChars) then Some(CharLimit(CharCount(f)))
    else if !f.isDraft && !(3 <= |FilterKeywords(f.keywords)| <= 5) then Some(Keywords)
    else if 1 + |SanitizedCoauthors(f.coauthors)| > AuthorLimit then Some(MaxAuthors)
    else if f.postId != 0 && !(Exists(posts, f.postId) && posts[f.postId].authorId == actor) then Some(InvalidPost)
    else if f.postId != 0 && ReadPost(posts, f.postId).status !in {Some(Rascunho), Some(EmCorrecao), Some(AprovadoComConsideracoes), Some(Reprovado)} then Some(AlreadySubmitted)
    else None
  }

  /**
   * A form passes every guard exactly when: the user is logged in; the event is
   * known; a new submission is below the per-event quota; an edit targets the
   * caller's own post in an editable status; at most five co-authors remain;
   * and, unless it is a draft, the user has paid (when payment is checked),
   * the text is 3000 to 4000 characters long and there are 3 to 5 keywords.
   */
  lemma CreateAccepts(posts: map<PostId, Post>, actor: UserId, f: Form, registration: Option<bool>)
    ensures CreateError(posts, actor, f, registration).None? <==>
      && actor != 0
      && ParseEvent(f.event).Some?
      && (f.postId == 0 ==> |AuthoredIn(posts, actor, ParseEvent(f.event).value)| < 2)
      && (f.postId != 0 ==> f.postId in posts && posts[f.postId].event.Some? && posts[f.postId].authorId == actor
                             && posts[f.postId].status.Some? && posts[f.postId].status.value in EditableStatuses)
      && |SanitizedCoauthors(f.coauthors)| <= 5
      && (!f.isDraft ==> registration != Some(false)
                          && 3000 <= |f.title| + |f.plainContent| + |f.authorsText| + 2 <= 4000
                          && 3 <= |FilterKeywords(f.keywords)| <= 5)
  {
  }

  /** The record `create` leaves behind once the post has been written. */
  function Submitted(p: Post, actor: UserId, f: Form, e: Event): (q: Post)
    ensures q.status == Some(if f.isDraft then Rascunho else Submetido)
    ensures q.event == Some(e) && q.authorId == actor && q.paymentStatus == Confirmed
    ensures q.title == f.title && q.content == f.content
    ensures q.keywords == FilterKeywords(f.keywords) && q.coauthors == SanitizedCoauthors(f.coauthors)
    ensures q.language == NormalizeLanguage(f.language) && q.language in {"pt", "en", "es"}
    ensures q.reviewerId == p.reviewerId && q.messageHistory == p.messageHistory && q.posterId == p.posterId
    ensures q.(status := p.status, event := p.event, title := p.title, content := p.content, authorId := p.authorId,
               coauthors := p.coauthors, keywords := p.keywords, language := p.language,
               paymentStatus := p.paymentStatus) == p
  {
    p.(status := Some(if f.isDraft then Rascunho else Submetido), event := Some(e), title := f.title, content := f.content,
       authorId := actor, coauthors := SanitizedCoauthors(f.coauthors), keywords := FilterKeywords(f.keywords),
       language := NormalizeLanguage(f.language), paymentStatus := Confirmed)
  }

  /** The history entry of a resubmission through the form. */
  const CorrectionsSent := "O autor enviou as correções solicitadas."

  /**
   * `create`. `newId` is the id `wp_insert_post` hands out; `writeFails` is
   * whether inserting or updating the post reports an error. The status is
   * written directly, without `transition`.
   */
  method Create(db: MetaStore, actor: UserId, f: Form, registration: Option<bool>, newId: PostId, writeFails: bool, now: int)
    returns (r: Result<PostId>)
    requires newId !in db.posts
    modifies db
    ensures CreateError(old(db.posts), actor, f, registration).Some? ==>
      r == Err(CreateError(old(db.posts), actor, f, registration).value) && unchanged(db)
    ensures CreateError(old(db.posts), actor, f, registration).None? && writeFails ==>
      r == Err(PostWriteFailed) && unchanged(db)
    ensures CreateError(old(db.posts), actor, f, registration).None? && !writeFails ==>
      var e := ParseEvent(f.event).value;
      var id := if f.postId == 0 then newId else f.postId;
      var corrected := f.postId != 0 && old(db.Read(f.postId)).status.value in CorrectionStatuses && !f.isDraft;
      var written := Submitted(old(db.Read(id)), actor, f, e);
      && r == Ok(id)
      && db.posts == old(db.posts)[id := if corrected then WithMessage(written, Message("autor", CorrectionsSent, now, actor)) else written]
      && db.outbox == old(db.outbox) + (if corrected then [NewSubmission(id, Some(e))] else []) + [SubmissionCreated(id, e)]
  {
    if actor == 0 {
      return Err(NotLoggedIn);
    }
    if !f.isDraft && registration == Some(false) {
      return Err(PaymentRequired);
    }
    var event := ParseEvent(f.event);
    if event.None? {
      return Err(InvalidEvent);
    }
    var e := event.value;
    if f.postId == 0 {
      var count := CountSubmissionsByAuthor(db.posts, actor, e);
      if count >= MaxSubmissionsPerEvent {
        return Err(MaxSubmissions);
      }
    }
    if !f.isDraft {
      var charCount := |f.title + " " + f.plainContent + " " + f.authorsText|;
      if charCount < MinChars || charCount > MaxChars {
        return Err(CharLimit(charCount));
      }
      if |FilterKeywords(f.keywords)| < 3 || |FilterKeywords(f.keywords)| > 5 {
        return Err(Keywords);
      }
    }
    var keywords := FilterKeywords(f.keywords);
    var coauthors := SanitizeCoauthors(f.coauthors);
    if 1 + |coauthors| > AuthorLimit {
      return Err(MaxAuthors);
    }
    var language := NormalizeLanguage(f.language);
    var id := newId;
    var wasInCorrection := false;
    if f.postId != 0 {
      if !Exists(db.posts, f.postId) || db.posts[f.postId].authorId != actor {
        return Err(InvalidPost);
      }
      var currentStatus := db.Read(f.postId).status;
      if currentStatus !in {Some(Rascunho), Some(EmCorrecao), Some(AprovadoComConsideracoes), Some(Reprovado)} {
        return Err(AlreadySubmitted);
      }
      wasInCorrection := currentStatus.value in CorrectionStatuses;
      id := f.postId;
    }
    if writeFails {
      return Err(PostWriteFailed);
    }
    assert keywords == FilterKeywords(f.keywords) && coauthors == SanitizedCoauthors(f.coauthors);
    db.posts := db.posts[id := db.Read(id).(title := f.title, content := f.content, status := Some(if f.isDraft then Rascunho else Submetido),
      event := Some(e), authorId := actor, coauthors := coauthors, keywords := keywords, language := language, paymentStatus := Confirmed)];
    if wasInCorrection && !f.isDraft {
      AddMessage(db, id, "autor", CorrectionsSent, now, actor);
      db.outbox := db.outbox + [NewSubmission(id, Some(e))];
    }
    db.outbox := db.outbox + [SubmissionCreated(id, e)];
    r := Ok(id);
  }

  /**
   * The per-event quota holds after a new submission: the author ends with at
   * most two posts in the event, the new one among them.
   */
  lemma NewSubmissionWithinQuota(posts: map<PostId, Post>, actor: UserId, f: Form, registration: Option<bool>, newId: PostId)
    requires newId !in posts
    requires f.postId == 0 && CreateError(posts, actor, f, registration).None?
    ensures var e := ParseEvent(f.event).value;
      var after := posts[newId := Submitted(ReadPost(posts, newId), actor, f, e)];
      newId in AuthoredIn(after, actor, e) && |AuthoredIn(after, actor, e)| <= MaxSubmissionsPerEvent
  {
    var e := ParseEvent(f.event).value;
    var after := posts[newId := Submitted(ReadPost(posts, newId), actor, f, e)];
    assert AuthoredIn(after, actor, e) == AuthoredIn(posts, actor, e) + {newId};
  }

  /**
   * `confirm_payment`: the payment is marked confirmed first, whatever the
   * status; the move to `submetido` and the new-submission email follow only
   * when the table allows it.
   */
  method ConfirmPayment(db: MetaStore, id: PostId) returns (r: Outcome)
    modifies db
    ensures var from := GetStatus(old(db.Read(id)));
      var paid := old(db.Read(id)).(paymentStatus := Confirmed);
      if CanTransition(from, Submetido) then
        && r == Done
        && db.posts == old(db.posts)[id := paid.(status := Some(Submetido))]
        && db.outbox == old(db.outbox) + [StatusChanged(id, Submetido, from), NewSubmission(id, old(db.Read(id)).event)]
      else
        && r == Fail(InvalidTransition(from, Submetido))
        && db.posts == old(db.posts)[id := paid]
        && db.outbox == old(db.outbox)
  {
    db.posts := db.posts[id := db.Read(id).(paymentStatus := Confirmed)];
    r := Transition(db, id, Submetido);
    if r.Done? {
      var event := db.Read(id).event;
      db.outbox := db.outbox + [NewSubmission(id, event)];
    }
  }

  /** Only posts awaiting payment or in correction can move to `submetido`. */
  lemma SubmittedIsReachedFrom(from: Status)
    ensures CanTransition(from, Submetido) <==> from in {AguardandoPagamento, EmCorrecao}
  {
  }

  /** The record after `resubmit` has replaced the content and whichever lists were supplied. */
  function Corrected(p: Post, title: string, content: string, keywords: seq<string>, coauthors: Option<seq<Coauthor>>): (q: Post)
    ensures q.title == title && q.content == content
    ensures q.keywords == if keywords == [] then p.keywords else FilterKeywords(keywords)
    ensures q.coauthors == if coauthors.None? then p.coauthors else SanitizedCoauthors(coauthors.value)
    ensures q.(title := p.title, content := p.content, keywords := p.keywords, coauthors := p.coauthors) == p
  {
    p.(title := title, content := content,
       keywords := if keywords == [] then p.keywords else FilterKeywords(keywords),
       coauthors := if coauthors.None? then p.coauthors else SanitizedCoauthors(coauthors.value))
  }

  /** The writes `resubmit` makes before it moves the post back to `submetido`. */
  method WriteCorrections(db: MetaStore, id: PostId, title: string, content: string, keywords: seq<string>, coauthors: Option<seq<Coauthor>>)
    modifies db
    ensures db.posts == old(db.posts)[id := Corrected(old(db.Read(id)), title, content, keywords, coauthors)]
    ensures db.outbox == old(db.outbox)
  {
    db.posts := db.posts[id := db.Read(id).(title := title, content := content)];
    if keywords != [] {
      db.posts := db.posts[id := db.Read(id).(keywords := FilterKeywords(keywords))];
    }
    if coauthors.Some? {
      var clean := SanitizeCoauthors(coauthors.value);
      db.posts := db.posts[id := db.Read(id).(coauthors := clean)];
    }
  }

  /**
   * `resubmit`. An empty `keywords` list stands for none supplied;
   * `coauthors == None` for none supplied. Once both guards pass the
   * transition cannot fail, because `em_correcao` leads to `submetido`.
   */
  method Resubmit(db: MetaStore, actor: UserId, id: PostId, title: string, content: string, keywords: seq<string>, coauthors: Option<seq<Coauthor>>)
    returns (r: Outcome)
    modifies db
    ensures actor != old(db.Read(id)).authorId ==> r == Fail(Unauthorized) && unchanged(db)
    ensures actor == old(db.Read(id)).authorId && GetStatus(old(db.Read(id))) != EmCorrecao ==> r == Fail(InvalidStatus) && unchanged(db)
    ensures actor == old(db.Read(id)).authorId && GetStatus(old(db.Read(id))) == EmCorrecao ==>
      && r == Done
      && db.posts == old(db.posts)[id := Corrected(old(db.Read(id)), title, content, keywords, coauthors).(status := Some(Submetido))]
      && db.outbox == old(db.outbox) + [StatusChanged(id, Submetido, EmCorrecao), NewSubmission(id, old(db.Read(id)).event)]
  {
    var author := db.Read(id).authorId;
    if actor != author {
      return Fail(Unauthorized);
    }
    var current := GetStatus(db.Read(id));
    if current != EmCorrecao {
      return Fail(InvalidStatus);
    }
    WriteCorrections(db, id, title, content, keywords, coauthors);
    r := Transition(db, id, Submetido);
    if r.Done? {
      var event := db.Read(id).event;
      db.outbox := db.outbox + [NewSubmission(id, event)];
    }
  }
}
