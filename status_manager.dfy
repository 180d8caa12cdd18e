/**
 * The status lifecycle: a fixed transition table over the workflow statuses
 * and the guarded `transition` that is meant to be the way a status changes.
 */
module StatusManager {
  import opened Meta

  /** The meta value under which a status is stored. */
  function StatusName(s: Status): string {
    match s
    case Rascunho => "rascunho"
    case AguardandoPagamento => "aguardando_pagamento"
    case Submetido => "submetido"
    case EmAvaliacao => "em_avaliacao"
    case AguardandoDecisao => "aguardando_decisao"
    case EmCorrecao => "em_correcao"
    case Aprovado => "aprovado"
    case Reprovado => "reprovado"
    case PosterEnviado => "poster_enviado"
    case AguardandoConfirmacao => "aguardando_confirmacao"
    case Confirmado => "confirmado"
    case AptoRevisao => "apto_revisao"
    case AptoPublicacao => "apto_publicacao"
    case AprovadoComConsideracoes => "aprovado_com_consideracoes"
  }

  /** `get_transitions`: the allowed next statuses; `None` when the table has no entry. */
  function Transitions(from: Status): Option<seq<Status>> {
    match from
    case Rascunho => Some([AguardandoPagamento])
    case AguardandoPagamento => Some([Submetido])
    case Submetido => Some([EmAvaliacao])
    case EmAvaliacao => Some([AguardandoDecisao])
    case AguardandoDecisao => Some([EmCorrecao, Aprovado, Reprovado])
    case EmCorrecao => Some([Submetido])
    case Aprovado => Some([PosterEnviado, AguardandoConfirmacao])
    case AguardandoConfirmacao => Some([Confirmado])
    case _ => None
  }

  /** The check `transition` makes before writing. */
  predicate CanTransition(from: Status, to: Status) {
    Transitions(from).Some? && to in Transitions(from).value
  }

  /** `get_status`: an empty stored status reads as `rascunho`. */
  function GetStatus(p: Post): (s: Status)
    ensures p.status.None? ==> s == Rascunho
    ensures p.status.Some? ==> s == p.status.value
  {
    if p.status.Some? then p.status.value else Rascunho
  }

  /** `get_statuses`: the label map (the three newer statuses have no label). */
  function Labels(): map<string, string> {
    map[
      "rascunho" := "Rascunho",
      "aguardando_pagamento" := "Aguardando Pagamento",
      "submetido" := "Submetido",
      "em_avaliacao" := "Em Avaliação",
      "aguardando_decisao" := "Aguardando Decisão Editorial",
      "em_correcao" := "Em Correção",
      "aprovado" := "Aprovado",
      "reprovado" := "Reprovado",
      "poster_enviado" := "Pôster Enviado",
      "aguardando_confirmacao" := "Aguardando Confirmação",
      "confirmado" := "Confirmado"
    ]
  }

  /** `get_status_label`: the label, or the input itself when it has none. */
  function GetStatusLabel(status: string): (shown: string)
    ensures status !in Labels() ==> shown == status
    ensures status in Labels() ==> shown == Labels()[status]
  {
    if status in Labels() then Labels()[status] else status
  }

  /** `get_post_type_for_event`: `None` stands for PHP's `false`. */
  function GetPostTypeForEvent(event: string): (pt: Option<string>)
    ensures pt.Some? <==> event in {"enfrute", "senco"}
    ensures pt.Some? ==> pt.value == event + "_trabalhos"
  {
    if event == "enfrute" then Some("enfrute_trabalhos")
    else if event == "senco" then Some("senco_trabalhos")
    else None
  }

  /** `get_event_from_post_type`: `None` stands for PHP's `false`. */
  function GetEventFromPostType(postType: string): (event: Option<string>)
    ensures event.Some? <==> postType in {"enfrute_trabalhos", "senco_trabalhos"}
    ensures event.Some? ==> postType == event.value + "_trabalhos"
  {
    if postType == "enfrute_trabalhos" then Some("enfrute")
    else if postType == "senco_trabalhos" then Some("senco")
    else None
  }

  function EventName(e: Event): string {
    match e
    case Enfrute => "enfrute"
    case Senco => "senco"
  }

  /** The event an event name denotes, if any. */
  function ParseEvent(name: string): (e: Option<Event>)
    ensures e.Some? <==> GetPostTypeForEvent(name).Some?
    ensures e.Some? ==> EventName(e.value) == name
  {
    if name == "enfrute" then Some(Enfrute)
    else if name == "senco" then Some(Senco)
    else None
  }

  /**
   * `transition`: read the current status, check the table, and only then
   * overwrite the status and fire `sciflow_status_changed`.
   */
  method Transition(db: MetaStore, id: PostId, target: Status) returns (r: Outcome)
    modifies db
    ensures r.Done? <==> CanTransition(GetStatus(old(db.Read(id))), target)
    ensures r.Done? ==>
      && db.posts == old(db.posts)[id := old(db.Read(id)).(status := Some(target))]
      && db.outbox == old(db.outbox) + [StatusChanged(id, target, GetStatus(old(db.Read(id))))]
    ensures r.Fail? ==>
      && r.error == InvalidTransition(GetStatus(old(db.Read(id))), target)
      && db.posts == old(db.posts) && db.outbox == old(db.outbox)
  {
    var current := GetStatus(db.Read(id));
    var allowed := Transitions(current);
    if allowed.None? || target !in allowed.value {
      return Fail(InvalidTransition(current, target));
    }
    db.posts := db.posts[id := db.Read(id).(status := Some(target))];
    db.outbox := db.outbox + [StatusChanged(id, target, current)];
    r := Done;
  }

  /** Statuses with no entry in the table: every transition out of them is rejected. */
  predicate IsDeadEnd(s: Status) {
    s in {Reprovado, PosterEnviado, Confirmado, AptoRevisao, AptoPublicacao, AprovadoComConsideracoes}
  }

  lemma DeadEndsHaveNoEdges(from: Status, to: Status)
    requires IsDeadEnd(from)
    ensures !CanTransition(from, to)
  {
  }

  /** Exactly the statuses without a table entry are the dead ends. */
  lemma DeadEndsAreUnlisted(s: Status)
    ensures IsDeadEnd(s) <==> Transitions(s).None?
  {
  }

  lemma AwaitingDecisionTargets(to: Status)
    ensures CanTransition(AguardandoDecisao, to) <==> to in {EmCorrecao, Aprovado, Reprovado}
  {
  }

  /** The two event maps are mutual inverses on the two events. */
  lemma EventPostTypeRoundTrip(event: string, postType: string)
    ensures GetPostTypeForEvent(event) == Some(postType) <==> GetEventFromPostType(postType) == Some(event)
  {
  }

  /** Every status name is unlabeled exactly when it is one of the three newer statuses. */
  lemma UnlabeledStatuses(s: Status)
    ensures StatusName(s) !in Labels() <==> s in {AptoRevisao, AptoPublicacao, AprovadoComConsideracoes}
    ensures StatusName(s) !in Labels() ==> GetStatusLabel(StatusName(s)) == StatusName(s)
  {
  }
}
