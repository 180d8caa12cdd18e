/**
 * The editor-facing workflow: assigning a reviewer, recording an editorial
 * decision, and the append-only message history both of them use.
 */
module Editorial {
  import opened Meta
  import opened StatusManager

  /** `get_message_history`: a stored history that is not an array reads as empty. */
  function GetMessageHistory(p: Post): (h: seq<Message>)
    ensures p.messageHistory.None? ==> h == []
    ensures p.messageHistory.Some? ==> h == p.messageHistory.value
  {
    match p.messageHistory
    case None => []
    case Some(entries) => entries
  }

  /** The post after `add_message` has appended `msg` to its history. */
  function WithMessage(p: Post, msg: Message): (q: Post)
    ensures |GetMessageHistory(q)| == |GetMessageHistory(p)| + 1
    ensures forall i :: 0 <= i < |GetMessageHistory(p)| ==> GetMessageHistory(q)[i] == GetMessageHistory(p)[i]
    ensures GetMessageHistory(q)[|GetMessageHistory(p)|] == msg
    ensures q.(messageHistory := p.messageHistory) == p
  {
    p.(messageHistory := Some(GetMessageHistory(p) + [msg]))
  }

  /** `add_message`: append one entry stamped with the time and the acting user. */
  method AddMessage(db: MetaStore, id: PostId, role: string, content: string, now: int, actor: UserId)
    modifies db
    ensures db.posts == old(db.posts)[id := WithMessage(old(db.Read(id)), Message(role, content, now, actor))]
    ensures db.outbox == old(db.outbox)
  {
    var history := GetMessageHistory(db.Read(id));
    history := history + [Message(role, content, now, actor)];
    db.posts := db.posts[id := db.Read(id).(messageHistory := Some(history))];
  }

  /** The roles any one of which makes a user assignable as reviewer. */
  const ReviewerRoles: set<string> :=
    {"sciflow_revisor", "sciflow_editor", "administrator", "sciflow_senco_revisor", "sciflow_enfrute_revisor"}

  /**
   * `assign_reviewer`. `canAssign` is the caller's `assign_sciflow_reviewers`
   * capability; `reviewerRoles` is the chosen user's role list, `None` when no
   * such user exists. The reviewer id is written before the transition is
   * tried, so it stays written when the transition is rejected.
   */
  method AssignReviewer(db: MetaStore, canAssign: bool, id: PostId, reviewerId: UserId, reviewerRoles: Option<set<string>>)
    returns (r: Outcome)
    modifies db
    ensures !canAssign ==> r == Fail(Unauthorized) && unchanged(db)
    ensures canAssign && GetStatus(old(db.Read(id))) !in {Submetido, AptoRevisao} ==>
      r == Fail(InvalidStatus) && unchanged(db)
    ensures canAssign && GetStatus(old(db.Read(id))) in {Submetido, AptoRevisao} ==>
      var from := GetStatus(old(db.Read(id)));
      var withReviewer := old(db.Read(id)).(reviewerId := reviewerId);
      && (reviewerRoles.None? ==> r == Fail(InvalidUser) && unchanged(db))
      && (reviewerRoles.Some? && reviewerRoles.value * ReviewerRoles == {} ==> r == Fail(NotReviewer) && unchanged(db))
      && (reviewerRoles.Some? && reviewerRoles.value * ReviewerRoles != {} ==>
            if from == Submetido then
              && r == Done
              && db.posts == old(db.posts)[id := withReviewer.(status := Some(EmAvaliacao))]
              && db.outbox == old(db.outbox) + [StatusChanged(id, EmAvaliacao, from), AssignedReviewer(id, reviewerId)]
            else
              && r == Fail(InvalidTransition(from, EmAvaliacao))
              && db.posts == old(db.posts)[id := withReviewer]
              && db.outbox == old(db.outbox))
  {
    if !canAssign {
      return Fail(Unauthorized);
    }
    var current := GetStatus(db.Read(id));
    if current !in {Submetido, AptoRevisao} {
      return Fail(InvalidStatus);
    }
    if reviewerRoles.None? {
      return Fail(InvalidUser);
    }
    if reviewerRoles.value * ReviewerRoles == {} {
      return Fail(NotReviewer);
    }
    db.posts := db.posts[id := db.Read(id).(reviewerId := reviewerId)];
    r := Transition(db, id, EmAvaliacao);
    if r.Done? {
      db.outbox := db.outbox + [AssignedReviewer(id, reviewerId)];
    }
  }

  /** The fixed decision table of `make_decision`. */
  const DecisionTable: map<string, Status> := map[
    "approve" := Aprovado,
    "reject" := Reprovado,
    "return_to_author" := EmCorrecao,
    "approved_with_considerations" := AprovadoComConsideracoes,
    "return_to_reviewer" := EmAvaliacao,
    "apto_revisao" := AptoRevisao,
    "apto_publicacao" := AptoPublicacao
  ]

  /** The post after the history entry and the editorial notes of `make_decision` are written. */
  function WithEditorNotes(p: Post, notes: string, now: int, actor: UserId): (q: Post)
    ensures q.editorialNotes == notes
    ensures PhpEmpty(notes) ==> GetMessageHistory(q) == GetMessageHistory(p)
    ensures !PhpEmpty(notes) ==> GetMessageHistory(q) == GetMessageHistory(p) + [Message("editor", notes, now, actor)]
    ensures q.(messageHistory := p.messageHistory, editorialNotes := p.editorialNotes) == p
  {
    var withEntry := if PhpEmpty(notes) then p else WithMessage(p, Message("editor", notes, now, actor));
    withEntry.(editorialNotes := notes)
  }

  /**
   * `make_decision`. `canManage` is the caller's `manage_sciflow` capability.
   * The history entry and the editorial notes are written before the decision
   * is looked up, and the decision before the transition is tried.
   */
  method MakeDecision(db: MetaStore, canManage: bool, actor: UserId, id: PostId, decision: string, notes: string, now: int)
    returns (r: Outcome)
    modifies db
    ensures !canManage ==> r == Fail(Unauthorized) && unchanged(db)
    ensures canManage && GetStatus(old(db.Read(id))) != AguardandoDecisao ==> r == Fail(InvalidStatus) && unchanged(db)
    ensures canManage && GetStatus(old(db.Read(id))) == AguardandoDecisao ==>
      var noted := WithEditorNotes(old(db.Read(id)), notes, now, actor);
      && (decision !in DecisionTable ==>
            r == Fail(InvalidDecision) && db.posts == old(db.posts)[id := noted] && db.outbox == old(db.outbox))
      && (decision in DecisionTable ==>
            var target := DecisionTable[decision];
            var decided := noted.(decision := decision);
            if CanTransition(AguardandoDecisao, target) then
              && r == Done
              && db.posts == old(db.posts)[id := decided.(status := Some(target))]
              && db.outbox == old(db.outbox) + [StatusChanged(id, target, AguardandoDecisao), EditorialDecision(id, decision, notes)]
                   + (if decision == "return_to_reviewer" then [ReturnedToReviewer(id)] else [])
                   + (if decision == "approve" then [PosterRequest(id)] else [])
            else
              && r == Fail(InvalidTransition(AguardandoDecisao, target))
              && db.posts == old(db.posts)[id := decided]
              && db.outbox == old(db.outbox))
  {
    if !canManage {
      return Fail(Unauthorized);
    }
    var current := GetStatus(db.Read(id));
    if current != AguardandoDecisao {
      return Fail(InvalidStatus);
    }
    if !PhpEmpty(notes) {
      AddMessage(db, id, "editor", notes, now, actor);
    }
    db.posts := db.posts[id := db.Read(id).(editorialNotes := notes)];
    if decision !in DecisionTable {
      return Fail(InvalidDecision);
    }
    var target := DecisionTable[decision];
    db.posts := db.posts[id := db.Read(id).(decision := decision)];
    r := Transition(db, id, target);
    if r.Done? {
      db.outbox := db.outbox + [EditorialDecision(id, decision, notes)];
      if decision == "return_to_reviewer" {
        // The source sends the returned-to-reviewer email here; the branch is
        // dead, because `em_avaliacao` is not a target of `aguardando_decisao`.
        assert false;
      }
      if decision == "approve" {
        db.outbox := db.outbox + [PosterRequest(id)];
      }
    }
  }

  /**
   * From `aguardando_decisao` only three of the seven table decisions can
   * succeed; the other four always end in `invalid_transition`.
   */
  lemma DecisionSucceedsExactly(decision: string)
    requires decision in DecisionTable
    ensures CanTransition(AguardandoDecisao, DecisionTable[decision]) <==> decision in {"approve", "reject", "return_to_author"}
  {
  }

  /**
   * The `return_to_reviewer` notification can never be sent: that decision
   * targets `em_avaliacao`, which is not reachable from `aguardando_decisao`.
   */
  lemma ReturnToReviewerNeverNotifies()
    ensures !CanTransition(AguardandoDecisao, DecisionTable["return_to_reviewer"])
  {
  }
}
