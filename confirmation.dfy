/**
 * The confirmation round that follows selection: authors of selected works
 * get three days to confirm; a periodic sweep releases lapsed slots and hands
 * each one to the next ranked work.
 */
module Confirmation {
  import opened Meta
  import opened StatusManager
  import opened Ranking
  import opened Selection

  /** The contents of the store: what the confirmation operations are specified over. */
  datatype Store = Store(posts: map<PostId, Post>, outbox: seq<Notice>)

  /** A raw status from which a work can be asked to confirm. */
  predicate Confirmable(p: Post) {
    p.status == Some(Aprovado) || p.status == Some(PosterEnviado)
  }

  /** One step of `notify_selected_authors`. */
  function NotifyOne(s: Store, id: PostId, deadline: int): Store {
    var p := ReadPost(s.posts, id);
    if !Confirmable(p) then s
    else Store(s.posts[id := p.(confirmationDeadline := Some(deadline), status := Some(AguardandoConfirmacao))],
               s.outbox + [ConfirmationNeeded(id)])
  }

  function NotifyAll(s: Store, ids: seq<PostId>, deadline: int): Store
    decreases |ids|
  {
    if ids == [] then s else NotifyOne(NotifyAll(s, ids[..|ids| - 1], deadline), ids[|ids| - 1], deadline)
  }

  /**
   * `notify_selected_authors`: one deadline, three days from `now`, for every
   * listed work that is still approved; the status is written directly.
   */
  method NotifySelectedAuthors(db: MetaStore, ids: seq<PostId>, now: int)
    modifies db
    ensures Store(db.posts, db.outbox) == NotifyAll(Store(old(db.posts), old(db.outbox)), ids, now + ThreeDays)
  {
    var deadline := now + ThreeDays;
    for i := 0 to |ids|
      invariant Store(db.posts, db.outbox) == NotifyAll(Store(old(db.posts), old(db.outbox)), ids[..i], deadline)
    {
      assert ids[..i + 1][..i] == ids[..i];
      var id := ids[i];
      var status := db.Read(id).status;
      if status != Some(Aprovado) && status != Some(PosterEnviado) {
        continue;
      }
      db.posts := db.posts[id := db.Read(id).(confirmationDeadline := Some(deadline))];
      db.posts := db.posts[id := db.Read(id).(status := Some(AguardandoConfirmacao))];
      db.outbox := db.outbox + [ConfirmationNeeded(id)];
    }
    assert ids[..|ids|] == ids;
  }

  /**
   * Exactly the listed works that were approved or had sent their poster are
   * now awaiting confirmation with the deadline; every other work is as it
   * was.
   */
  lemma {:induction false} NotifyAllEffect(s: Store, ids: seq<PostId>, deadline: int, id: PostId)
    ensures ReadPost(NotifyAll(s, ids, deadline).posts, id) ==
      if id in ids && Confirmable(ReadPost(s.posts, id))
      then ReadPost(s.posts, id).(confirmationDeadline := Some(deadline), status := Some(AguardandoConfirmacao))
      else ReadPost(s.posts, id)
    decreases |ids|
  {
    if ids != [] {
      var prefix := ids[..|ids| - 1];
      NotifyAllEffect(s, prefix, deadline, id);
      assert id in ids <==> id in prefix || id == ids[|ids| - 1] by {
        assert ids == prefix + [ids[|ids| - 1]];
      }
    }
  }

  /**
   * The emails a notification round owes, read off the store as it was before
   * the round: one confirmation request per listed work that was approved or
   * had sent its poster, at the first place it is listed.
   */
  function OwedNotices(m: map<PostId, Post>, ids: seq<PostId>): seq<Notice>
    decreases |ids|
  {
    if ids == [] then []
    else
      var prefix := ids[..|ids| - 1];
      var id := ids[|ids| - 1];
      OwedNotices(m, prefix) + if id !in prefix && Confirmable(ReadPost(m, id)) then [ConfirmationNeeded(id)] else []
  }

  /**
   * Each owed notice asks a listed, confirmable work to confirm; every such
   * work is owed one, and no work is owed two.
   */
  lemma {:induction false} OwedNoticesShape(m: map<PostId, Post>, ids: seq<PostId>)
    ensures forall k :: 0 <= k < |OwedNotices(m, ids)| ==>
      OwedNotices(m, ids)[k].ConfirmationNeeded? && OwedNotices(m, ids)[k].post in ids
    ensures forall id :: ConfirmationNeeded(id) in OwedNotices(m, ids) <==> id in ids && Confirmable(ReadPost(m, id))
    ensures forall i, j :: 0 <= i < j < |OwedNotices(m, ids)| ==> OwedNotices(m, ids)[i] != OwedNotices(m, ids)[j]
    decreases |ids|
  {
    if ids != [] {
      var prefix := ids[..|ids| - 1];
      var last := ids[|ids| - 1];
      assert ids == prefix + [last];
      OwedNoticesShape(m, prefix);
      var before := OwedNotices(m, prefix);
      var after := OwedNotices(m, ids);
      assert after == before + if last !in prefix && Confirmable(ReadPost(m, last)) then [ConfirmationNeeded(last)] else [];
      forall k | 0 <= k < |after| ensures after[k].ConfirmationNeeded? && after[k].post in ids {
        if k < |before| {
          assert after[k] == before[k];
        }
      }
      forall id ensures ConfirmationNeeded(id) in after <==> id in ids && Confirmable(ReadPost(m, id)) {
        assert ConfirmationNeeded(id) in after <==>
          ConfirmationNeeded(id) in before || (id == last && last !in prefix && Confirmable(ReadPost(m, last)));
      }
      forall i, j | 0 <= i < j < |after| ensures after[i] != after[j] {
        if j >= |before| {
          assert after[i] == before[i];
          assert before[i].post in prefix;
        }
      }
    }
  }

  /**
   * The emails `notify_selected_authors` sends are exactly the owed ones, in
   * list order, after the earlier outbox: a repeated id is no longer
   * approved when its turn comes again, so it is asked once.
   */
  lemma {:induction false} NotifyAllOutbox(s: Store, ids: seq<PostId>, deadline: int)
    ensures NotifyAll(s, ids, deadline).outbox == s.outbox + OwedNotices(s.posts, ids)
    decreases |ids|
  {
    if ids != [] {
      var prefix := ids[..|ids| - 1];
      var last := ids[|ids| - 1];
      NotifyAllOutbox(s, prefix, deadline);
      NotifyAllEffect(s, prefix, deadline, last);
    }
  }

  /**
   * Every listed work that is approved or has sent its poster gets exactly one
   * confirmation request, and no other email is sent.
   */
  lemma NotifyAllNotices(s: Store, ids: seq<PostId>, deadline: int)
    ensures |s.outbox| <= |NotifyAll(s, ids, deadline).outbox| <= |s.outbox| + |ids|
    ensures NotifyAll(s, ids, deadline).outbox[..|s.outbox|] == s.outbox
    ensures forall id :: ConfirmationNeeded(id) in NotifyAll(s, ids, deadline).outbox[|s.outbox|..] <==>
      id in ids && Confirmable(ReadPost(s.posts, id))
    ensures forall k :: |s.outbox| <= k < |NotifyAll(s, ids, deadline).outbox| ==>
      NotifyAll(s, ids, deadline).outbox[k].ConfirmationNeeded? && NotifyAll(s, ids, deadline).outbox[k].post in ids
    ensures forall i, j :: |s.outbox| <= i < j < |NotifyAll(s, ids, deadline).outbox| ==>
      NotifyAll(s, ids, deadline).outbox[i] != NotifyAll(s, ids, deadline).outbox[j]
  {
    var owed := OwedNotices(s.posts, ids);
    var out := NotifyAll(s, ids, deadline).outbox;
    NotifyAllOutbox(s, ids, deadline);
    OwedNoticesShape(s.posts, ids);
    OwedNoticesBound(s.posts, ids);
    assert out[|s.outbox|..] == owed;
    forall k | |s.outbox| <= k < |out| ensures out[k].ConfirmationNeeded? && out[k].post in ids {
      assert out[k] == owed[k - |s.outbox|];
    }
    forall i, j | |s.outbox| <= i < j < |out| ensures out[i] != out[j] {
      assert out[i] == owed[i - |s.outbox|] && out[j] == owed[j - |s.outbox|];
    }
  }

  lemma {:induction false} OwedNoticesBound(m: map<PostId, Post>, ids: seq<PostId>)
    ensures |OwedNotices(m, ids)| <= |ids|
    decreases |ids|
  {
    if ids != [] {
      OwedNoticesBound(m, ids[..|ids| - 1]);
    }
  }

  /**
   * `confirm_presentation`. The author is compared with the stored author id;
   * the status is written directly.
   */
  method ConfirmPresentation(db: MetaStore, actor: UserId, id: PostId) returns (r: Outcome)
    modifies db
    ensures actor != old(db.Read(id)).authorId ==> r == Fail(Unauthorized) && unchanged(db)
    ensures actor == old(db.Read(id)).authorId && old(db.Read(id)).status != Some(AguardandoConfirmacao) ==>
      r == Fail(InvalidStatus) && unchanged(db)
    ensures actor == old(db.Read(id)).authorId && old(db.Read(id)).status == Some(AguardandoConfirmacao) ==>
      && r == Done
      && db.posts == old(db.posts)[id := old(db.Read(id)).(presentationConfirmed := true, status := Some(Confirmado))]
      && db.outbox == old(db.outbox)
  {
    var author := db.Read(id).authorId;
    if actor != author {
      return Fail(Unauthorized);
    }
    var status := db.Read(id).status;
    if status != Some(AguardandoConfirmacao) {
      return Fail(InvalidStatus);
    }
    db.posts := db.posts[id := db.Read(id).(presentationConfirmed := true)];
    db.posts := db.posts[id := db.Read(id).(status := Some(Confirmado))];
    r := Done;
  }

  /** A work `escalate_to_next` may pick: not the lapsed one, not selected or confirmed, and approved. */
  predicate Candidate(m: map<PostId, Post>, id: PostId, excluded: PostId) {
    var p := ReadPost(m, id);
    id != excluded && !p.selectedForPresentation && !p.presentationConfirmed && Confirmable(p)
  }

  /** The first candidate in ranking order. */
  function FirstCandidate(m: map<PostId, Post>, ranking: seq<PostId>, excluded: PostId): Option<PostId>
    decreases |ranking|
  {
    if ranking == [] then None
    else if Candidate(m, ranking[0], excluded) then Some(ranking[0])
    else FirstCandidate(m, ranking[1..], excluded)
  }

  /**
   * `FirstCandidate` finds nothing exactly when the ranking holds no
   * candidate, and otherwise the candidate with no candidate before it.
   */
  lemma {:induction false} FirstCandidateIsFirst(m: map<PostId, Post>, ranking: seq<PostId>, excluded: PostId)
    ensures FirstCandidate(m, ranking, excluded).None? <==> forall i :: 0 <= i < |ranking| ==> !Candidate(m, ranking[i], excluded)
    ensures FirstCandidate(m, ranking, excluded).Some? ==>
      exists k :: 0 <= k < |ranking| && ranking[k] == FirstCandidate(m, ranking, excluded).value
        && Candidate(m, ranking[k], excluded)
        && forall i :: 0 <= i < k ==> !Candidate(m, ranking[i], excluded)
    decreases |ranking|
  {
    if ranking != [] && !Candidate(m, ranking[0], excluded) {
      var rest := ranking[1..];
      FirstCandidateIsFirst(m, rest, excluded);
      forall i | 0 < i < |ranking| ensures ranking[i] == rest[i - 1] {
      }
      if FirstCandidate(m, rest, excluded).Some? {
        var k :| 0 <= k < |rest| && rest[k] == FirstCandidate(m, rest, excluded).value
          && Candidate(m, rest[k], excluded)
          && forall i :: 0 <= i < k ==> !Candidate(m, rest[i], excluded);
        assert ranking[k + 1] == rest[k];
        assert forall i :: 0 <= i < k + 1 ==> !Candidate(m, ranking[i], excluded);
      }
    }
  }

  /** The store once `id` holds a fresh slot: selected, awaiting confirmation until `deadline`. */
  function Promote(s: Store, id: PostId, deadline: int): Store {
    Store(s.posts[id := ReadPost(s.posts, id).(selectedForPresentation := true, confirmationDeadline := Some(deadline),
                                               status := Some(AguardandoConfirmacao))],
          s.outbox + [ConfirmationNeeded(id)])
  }

  /** What `escalate_to_next` does to the store. */
  function Escalated(s: Store, event: string, excluded: PostId, now: int): Store {
    match FirstCandidate(s.posts, GetEventRanking(s.posts, event), excluded)
    case None => s
    case Some(x) => Promote(s, x, now + ThreeDays)
  }

  /**
   * `escalate_to_next`: walk the event's ranking and give the slot to the first
   * candidate, if there is one. The status is written directly.
   */
  method EscalateToNext(db: MetaStore, event: string, excluded: PostId, now: int)
    modifies db
    ensures Store(db.posts, db.outbox) == Escalated(Store(old(db.posts), old(db.outbox)), event, excluded, now)
  {
    var ranking := GetEventRanking(db.posts, event);
    var i := 0;
    while i < |ranking|
      invariant 0 <= i <= |ranking|
      invariant FirstCandidate(db.posts, ranking, excluded) == FirstCandidate(db.posts, ranking[i..], excluded)
      invariant unchanged(db)
    {
      var id := ranking[i];
      assert ranking[i..][1..] == ranking[i + 1..];
      if id == excluded {
        i := i + 1;
        continue;
      }
      var p := db.Read(id);
      if p.selectedForPresentation || p.presentationConfirmed {
        i := i + 1;
        continue;
      }
      if p.status != Some(Aprovado) && p.status != Some(PosterEnviado) {
        i := i + 1;
        continue;
      }
      var deadline := now + ThreeDays;
      db.posts := db.posts[id := db.Read(id).(selectedForPresentation := true)];
      db.posts := db.posts[id := db.Read(id).(confirmationDeadline := Some(deadline))];
      db.posts := db.posts[id := db.Read(id).(status := Some(AguardandoConfirmacao))];
      db.outbox := db.outbox + [ConfirmationNeeded(id)];
      return;
    }
  }

  /** The deadline has passed: it is set, not zero, and strictly before `now`. */
  predicate Lapsed(p: Post, now: int) {
    p.confirmationDeadline.Some? && p.confirmationDeadline.value != 0 && now > p.confirmationDeadline.value
  }

  /** One step of the sweep: release a lapsed slot and escalate within the event. */
  function ReleaseOne(s: Store, e: Event, id: PostId, now: int): Store {
    var p := ReadPost(s.posts, id);
    if !Lapsed(p, now) then s
    else Escalated(Store(s.posts[id := p.(selectedForPresentation := false, status := Some(Aprovado))], s.outbox), EventName(e), id, now)
  }

  function ReleaseAll(s: Store, e: Event, ids: seq<PostId>, now: int): Store
    decreases |ids|
  {
    if ids == [] then s else ReleaseOne(ReleaseAll(s, e, ids[..|ids| - 1], now), e, ids[|ids| - 1], now)
  }

  lemma {:induction false} LargestExists(s: set<PostId>)
    requires s != {}
    ensures exists x :: x in s && forall y :: y in s ==> y <= x
    decreases |s|
  {
    var z :| z in s;
    if s != {z} {
      LargestExists(s - {z});
      var x :| x in s - {z} && forall y :: y in s - {z} ==> y <= x;
      var top := if x < z then z else x;
      forall y | y in s ensures y <= top {
        if y != z {
          assert y in s - {z};
        }
      }
    }
  }

  /** The ids of `s`, newest (largest) first: the default order of a post query. */
  function NewestFirst(s: set<PostId>): (r: seq<PostId>)
    ensures forall x :: x in r <==> x in s
    ensures Distinct(r)
    decreases |s|
  {
    if s == {} then []
    else
      LargestExists(s);
      var x :| x in s && forall y :: y in s ==> y <= x;
      [x] + NewestFirst(s - {x})
  }

  /** The posts of an event awaiting confirmation, as the sweep's query finds them. */
  function AwaitingIds(m: map<PostId, Post>, e: Event): seq<PostId> {
    NewestFirst(set id | id in m && m[id].event == Some(e) && m[id].status == Some(AguardandoConfirmacao))
  }

  /** The sweep over the events of `events`, in order, each over its own query. */
  function SweepEvents(s: Store, events: seq<Event>, now: int): Store
    decreases |events|
  {
    if events == [] then s
    else
      var before := SweepEvents(s, events[..|events| - 1], now);
      var e := events[|events| - 1];
      ReleaseAll(before, e, AwaitingIds(before.posts, e), now)
  }

  /** The body of the inner loop of `check_deadlines`, for one awaiting post. */
  method ReleaseIfLapsed(db: MetaStore, e: Event, id: PostId, now: int)
    modifies db
    ensures Store(db.posts, db.outbox) == ReleaseOne(Store(old(db.posts), old(db.outbox)), e, id, now)
  {
    var deadline := db.Read(id).confirmationDeadline;
    if deadline.None? {
      return;
    }
    var ts := deadline.value;
    if ts != 0 && now > ts {
      db.posts := db.posts[id := db.Read(id).(selectedForPresentation := false)];
      db.posts := db.posts[id := db.Read(id).(status := Some(Aprovado))];
      assert db.posts == old(db.posts)[id := old(db.Read(id)).(selectedForPresentation := false, status := Some(Aprovado))];
      EscalateToNext(db, EventName(e), id, now);
    }
  }

  /** The inner loop of `check_deadlines`: one pass over the awaiting posts of `e`. */
  method ReleaseLapsed(db: MetaStore, e: Event, ids: seq<PostId>, now: int)
    modifies db
    ensures Store(db.posts, db.outbox) == ReleaseAll(Store(old(db.posts), old(db.outbox)), e, ids, now)
  {
    for i := 0 to |ids|
      invariant Store(db.posts, db.outbox) == ReleaseAll(Store(old(db.posts), old(db.outbox)), e, ids[..i], now)
    {
      assert ids[..i + 1][..i] == ids[..i];
      ReleaseIfLapsed(db, e, ids[i], now);
    }
    assert ids[..|ids|] == ids;
  }

  const SweepOrder: seq<Event> := [Enfrute, Senco]

  /**
   * `check_deadlines`: for each event, take the posts awaiting confirmation;
   * each whose deadline has lapsed is deselected, set back to `aprovado` and
   * its slot escalated.
   */
  method CheckDeadlines(db: MetaStore, now: int)
    modifies db
    ensures Store(db.posts, db.outbox) == SweepEvents(Store(old(db.posts), old(db.outbox)), SweepOrder, now)
  {
    ghost var s0 := Store(db.posts, db.outbox);
    var events := SweepOrder;
    for k := 0 to |events|
      invariant Store(db.posts, db.outbox) == SweepEvents(s0, events[..k], now)
    {
      var e := events[k];
      var ids := AwaitingIds(db.posts, e);
      ReleaseLapsed(db, e, ids, now);
      assert events[..k + 1][..k] == events[..k];
    }
    assert events[..|events|] == events;
  }

  /**
   * `escalate_to_next` hands out at most one slot: only the first candidate in
   * the event's ranking changes, and it is a candidate.
   */
  lemma EscalatedTouchesOnlyCandidate(s: Store, event: string, excluded: PostId, now: int, id: PostId)
    ensures var next := FirstCandidate(s.posts, GetEventRanking(s.posts, event), excluded);
      && (next.Some? ==> Candidate(s.posts, next.value, excluded) && next.value in GetEventRanking(s.posts, event))
      && (next != Some(id) ==> ReadPost(Escalated(s, event, excluded, now).posts, id) == ReadPost(s.posts, id))
  {
    FirstCandidateIsFirst(s.posts, GetEventRanking(s.posts, event), excluded);
  }

  /** A lapsed slot is released: the post ends deselected and back at `aprovado`, whatever the escalation picks. */
  lemma ReleaseOneLapsed(s: Store, e: Event, x: PostId, now: int)
    requires Lapsed(ReadPost(s.posts, x), now)
    ensures ReadPost(ReleaseOne(s, e, x, now).posts, x) ==
      ReadPost(s.posts, x).(selectedForPresentation := false, status := Some(Aprovado))
  {
    var p := ReadPost(s.posts, x);
    var released := Store(s.posts[x := p.(selectedForPresentation := false, status := Some(Aprovado))], s.outbox);
    EscalatedTouchesOnlyCandidate(released, EventName(e), x, now, x);
  }

  /**
   * A post the sweep has no reason to touch: not approved, so no escalation
   * can pick it, and not awaiting confirmation past its deadline.
   */
  predicate Settled(p: Post, now: int) {
    !Confirmable(p) && !(p.status == Some(AguardandoConfirmacao) && Lapsed(p, now))
  }

  lemma ReleaseOneFrame(s: Store, e: Event, x: PostId, now: int, id: PostId)
    requires !Confirmable(ReadPost(s.posts, id))
    requires id == x ==> !Lapsed(ReadPost(s.posts, id), now)
    ensures ReadPost(ReleaseOne(s, e, x, now).posts, id) == ReadPost(s.posts, id)
  {
    var p := ReadPost(s.posts, x);
    if Lapsed(p, now) {
      var released := Store(s.posts[x := p.(selectedForPresentation := false, status := Some(Aprovado))], s.outbox);
      EscalatedTouchesOnlyCandidate(released, EventName(e), x, now, id);
    }
  }

  lemma {:induction false} ReleaseAllFrame(s: Store, e: Event, ids: seq<PostId>, now: int, id: PostId)
    requires Settled(ReadPost(s.posts, id), now)
    requires id in ids ==> ReadPost(s.posts, id).status == Some(AguardandoConfirmacao)
    ensures ReadPost(ReleaseAll(s, e, ids, now).posts, id) == ReadPost(s.posts, id)
    decreases |ids|
  {
    if ids != [] {
      var prefix := ids[..|ids| - 1];
      assert id in prefix ==> id in ids;
      ReleaseAllFrame(s, e, prefix, now, id);
      ReleaseOneFrame(ReleaseAll(s, e, prefix, now), e, ids[|ids| - 1], now, id);
    }
  }

  lemma {:induction false} SweepEventsFrame(s: Store, events: seq<Event>, now: int, id: PostId)
    requires Settled(ReadPost(s.posts, id), now)
    ensures ReadPost(SweepEvents(s, events, now).posts, id) == ReadPost(s.posts, id)
    decreases |events|
  {
    if events != [] {
      var before := SweepEvents(s, events[..|events| - 1], now);
      SweepEventsFrame(s, events[..|events| - 1], now, id);
      ReleaseAllFrame(before, events[|events| - 1], AwaitingIds(before.posts, events[|events| - 1]), now, id);
    }
  }

  /**
   * `check_deadlines` leaves alone every post that is neither approved nor
   * awaiting confirmation past its deadline: confirmed, rejected and
   * still-in-time works keep every field.
   */
  lemma CheckDeadlinesSparesSettled(s: Store, now: int, id: PostId)
    requires Settled(ReadPost(s.posts, id), now)
    ensures ReadPost(SweepEvents(s, SweepOrder, now).posts, id) == ReadPost(s.posts, id)
  {
    SweepEventsFrame(s, SweepOrder, now, id);
  }
}
