/**
 * Presentation selection: choosing the top works per event and overall,
 * asking their authors to confirm, and handing a lapsed slot to the next
 * ranked work.
 */
module Selection {
  import opened Meta
  import opened StatusManager
  import opened Ranking

  /** The confirmation window: three days, in seconds. */
  const ThreeDays := 259200

  /** The store with `id` flagged as selected; a post already flagged is left as it is. */
  function MarkOne(m: map<PostId, Post>, id: PostId): map<PostId, Post> {
    if ReadPost(m, id).selectedForPresentation then m
    else m[id := ReadPost(m, id).(selectedForPresentation := true)]
  }

  /** The store with every id of `ids` flagged as selected. */
  function MarkAll(m: map<PostId, Post>, ids: seq<PostId>): map<PostId, Post>
    decreases |ids|
  {
    if ids == [] then m else MarkOne(MarkAll(m, ids[..|ids| - 1]), ids[|ids| - 1])
  }

  /** Marking touches the flag of the marked ids and nothing else. */
  lemma {:induction false} MarkAllRead(m: map<PostId, Post>, ids: seq<PostId>, id: PostId)
    ensures ReadPost(MarkAll(m, ids), id) ==
      if id in ids then ReadPost(m, id).(selectedForPresentation := true) else ReadPost(m, id)
    decreases |ids|
  {
    if ids != [] {
      var prefix := ids[..|ids| - 1];
      MarkAllRead(m, prefix, id);
      assert id in ids <==> id in prefix || id == ids[|ids| - 1] by {
        assert ids == prefix + [ids[|ids| - 1]];
      }
    }
  }

  lemma {:induction false} MarkAllAppend(m: map<PostId, Post>, a: seq<PostId>, b: seq<PostId>)
    ensures MarkAll(MarkAll(m, a), b) == MarkAll(m, a + b)
    decreases |b|
  {
    if b == [] {
      assert a + b == a;
    } else {
      MarkAllAppend(m, a, b[..|b| - 1]);
      assert (a + b)[..|a + b| - 1] == a + b[..|b| - 1];
      assert (a + b)[|a + b| - 1] == b[|b| - 1];
    }
  }

  lemma MarkAllKeepsRankData(m: map<PostId, Post>, ids: seq<PostId>)
    ensures SameRankData(m, MarkAll(m, ids))
  {
    forall id ensures ReadPost(MarkAll(m, ids), id).event == ReadPost(m, id).event {
      MarkAllRead(m, ids, id);
    }
    forall id ensures ReadPost(MarkAll(m, ids), id).rankingScore == ReadPost(m, id).rankingScore {
      MarkAllRead(m, ids, id);
    }
    forall id ensures ReadPost(MarkAll(m, ids), id).status == ReadPost(m, id).status {
      MarkAllRead(m, ids, id);
    }
  }

  /**
   * The ids one event's pass of `select_top_works` returns: walk the ranking
   * until `quota` ids are taken; an already selected post is taken as it is,
   * a `reprovado` post is skipped, any other is taken.
   */
  function EventPicks(m: map<PostId, Post>, ranking: seq<PostId>, quota: int): seq<PostId>
    decreases |ranking|
  {
    if ranking == [] || quota <= 0 then []
    else if ReadPost(m, ranking[0]).selectedForPresentation then [ranking[0]] + EventPicks(m, ranking[1..], quota - 1)
    else if ReadPost(m, ranking[0]).status == Some(Reprovado) then EventPicks(m, ranking[1..], quota)
    else [ranking[0]] + EventPicks(m, ranking[1..], quota - 1)
  }

  /** The general pass: take ranked ids not yet taken until `quota` more are taken. */
  function TopUp(general: seq<PostId>, taken: seq<PostId>, quota: int): seq<PostId>
    decreases |general|
  {
    if general == [] || quota <= 0 then []
    else if general[0] in taken then TopUp(general[1..], taken, quota)
    else [general[0]] + TopUp(general[1..], taken + [general[0]], quota - 1)
  }

  /** The list `select_top_works` returns. */
  function Selected(m: map<PostId, Post>, perEvent: int, general: int): seq<PostId> {
    var picks := EventPicks(m, QueryRanked(m, Enfrute), perEvent) + EventPicks(m, QueryRanked(m, Senco), perEvent);
    picks + TopUp(GeneralRanking(m), picks, general)
  }

  /**
   * One event's pass of `select_top_works`, over the ranking read when the pass
   * starts; the ids found are appended to `selected`.
   */
  method SelectForEvent(db: MetaStore, ranking: seq<PostId>, perEvent: int, selected: seq<PostId>) returns (out: seq<PostId>)
    requires Distinct(ranking)
    modifies db
    ensures out == selected + EventPicks(old(db.posts), ranking, perEvent)
    ensures db.posts == MarkAll(old(db.posts), EventPicks(old(db.posts), ranking, perEvent))
    ensures db.outbox == old(db.outbox)
  {
    ghost var m0 := db.posts;
    ghost var picked: seq<PostId> := [];
    out := selected;
    var count := 0;
    var i := 0;
    while i < |ranking|
      invariant 0 <= i <= |ranking|
      invariant out == selected + picked
      invariant EventPicks(m0, ranking, perEvent) == picked + EventPicks(m0, ranking[i..], perEvent - count)
      invariant db.posts == MarkAll(m0, picked)
      invariant forall x :: x in picked ==> x in ranking[..i]
      invariant db.outbox == old(db.outbox)
    {
      if count >= perEvent {
        assert EventPicks(m0, ranking[i..], perEvent - count) == [];
        break;
      }
      var id := ranking[i];
      assert ranking[i..][1..] == ranking[i + 1..];
      assert id !in picked;
      MarkAllRead(m0, picked, id);
      assert MarkAll(m0, picked + [id]) == MarkOne(MarkAll(m0, picked), id) by {
        assert (picked + [id])[..|picked|] == picked;
      }
      assert ranking[..i + 1] == ranking[..i] + [id];
      if db.Read(id).selectedForPresentation {
        out := out + [id];
        picked := picked + [id];
        count := count + 1;
      } else if db.Read(id).status == Some(Reprovado) {
      } else {
        db.posts := db.posts[id := db.Read(id).(selectedForPresentation := true)];
        out := out + [id];
        picked := picked + [id];
        count := count + 1;
      }
      i := i + 1;
    }
    assert EventPicks(m0, ranking[i..], perEvent - count) == [];
    assert picked + [] == picked;
  }

  /** The general pass of `select_top_works`, over the general ranking read when it starts. */
  method TopUpGeneral(db: MetaStore, ranking: seq<PostId>, general: int, selected: seq<PostId>) returns (out: seq<PostId>)
    modifies db
    ensures out == selected + TopUp(ranking, selected, general)
    ensures db.posts == MarkAll(old(db.posts), TopUp(ranking, selected, general))
    ensures db.outbox == old(db.outbox)
  {
    ghost var m0 := db.posts;
    ghost var added: seq<PostId> := [];
    out := selected;
    var count := 0;
    var i := 0;
    while i < |ranking|
      invariant 0 <= i <= |ranking|
      invariant out == selected + added
      invariant TopUp(ranking, selected, general) == added + TopUp(ranking[i..], out, general - count)
      invariant db.posts == MarkAll(m0, added)
      invariant db.outbox == old(db.outbox)
    {
      if count >= general {
        assert TopUp(ranking[i..], out, general - count) == [];
        break;
      }
      var id := ranking[i];
      assert ranking[i..][1..] == ranking[i + 1..];
      if id !in out {
        assert MarkAll(m0, added + [id]) == MarkOne(MarkAll(m0, added), id) by {
          assert (added + [id])[..|added|] == added;
        }
        ghost var before := db.posts;
        db.posts := db.posts[id := db.Read(id).(selectedForPresentation := true)];
        assert db.posts == MarkOne(before, id) by {
          if ReadPost(before, id).selectedForPresentation {
            assert id in before && before[id].(selectedForPresentation := true) == before[id];
          }
        }
        out := out + [id];
        added := added + [id];
        count := count + 1;
      }
      i := i + 1;
    }
    assert TopUp(ranking[i..], out, general - count) == [];
    assert added + [] == added;
  }

  /** The quotas `select_top_works` uses unless the caller passes others: six per event, three more overall. */
  const DefaultPerEvent := 6
  const DefaultGeneral := 3

  /**
   * `select_top_works`: up to `perEvent` works per event, then up to `general`
   * more from the general ranking; every returned work ends up flagged.
   */
  method SelectTopWorks(db: MetaStore, perEvent: int, general: int) returns (selected: seq<PostId>)
    modifies db
    ensures selected == Selected(old(db.posts), perEvent, general)
    ensures db.posts == MarkAll(old(db.posts), selected)
    ensures db.outbox == old(db.outbox)
  {
    ghost var m0 := db.posts;
    ghost var e1 := EventPicks(m0, QueryRanked(m0, Enfrute), perEvent);
    ghost var e2 := EventPicks(m0, QueryRanked(m0, Senco), perEvent);
    ghost var top := TopUp(GeneralRanking(m0), e1 + e2, general);
    SelectionSteps(m0, perEvent, general);
    assert Selected(m0, perEvent, general) == e1 + e2 + top;
    var enfrute := GetEventRanking(db.posts, "enfrute");
    selected := SelectForEvent(db, enfrute, perEvent, []);
    assert selected == e1;
    var senco := GetEventRanking(db.posts, "senco");
    selected := SelectForEvent(db, senco, perEvent, selected);
    assert selected == e1 + e2;
    var generalRanking := GeneralRanking(db.posts);
    selected := TopUpGeneral(db, generalRanking, general, selected);
    assert selected == e1 + e2 + top;
  }

  lemma {:induction false} EventPicksWithin(m: map<PostId, Post>, ranking: seq<PostId>, quota: int)
    ensures forall x :: x in EventPicks(m, ranking, quota) ==> x in ranking
    decreases |ranking|
  {
    if ranking != [] && quota > 0 {
      EventPicksWithin(m, ranking[1..], quota);
      EventPicksWithin(m, ranking[1..], quota - 1);
    }
  }

  /**
   * The stores `select_top_works` passes through: after the first event pass
   * the second event's ranking and picks are as at the start, and after both
   * passes so is the general ranking.
   */
  lemma SelectionSteps(m: map<PostId, Post>, perEvent: int, general: int)
    ensures var e1 := EventPicks(m, QueryRanked(m, Enfrute), perEvent);
      var e2 := EventPicks(m, QueryRanked(m, Senco), perEvent);
      var m1 := MarkAll(m, e1);
      var m2 := MarkAll(m1, e2);
      && Distinct(QueryRanked(m, Enfrute)) && Distinct(QueryRanked(m1, Senco))
      && GetEventRanking(m, "enfrute") == QueryRanked(m, Enfrute)
      && GetEventRanking(m1, "senco") == QueryRanked(m, Senco)
      && EventPicks(m1, QueryRanked(m, Senco), perEvent) == e2
      && GeneralRanking(m2) == GeneralRanking(m)
      && MarkAll(m2, TopUp(GeneralRanking(m), e1 + e2, general)) == MarkAll(m, Selected(m, perEvent, general))
  {
    var e1 := EventPicks(m, QueryRanked(m, Enfrute), perEvent);
    var e2 := EventPicks(m, QueryRanked(m, Senco), perEvent);
    var m1 := MarkAll(m, e1);
    var m2 := MarkAll(m1, e2);
    QueryRankedIsPool(m, Enfrute);
    QueryRankedIsPool(m, Senco);
    MarkAllKeepsRankData(m, e1);
    RankingsUnchanged(m, m1);
    EventPicksWithin(m, QueryRanked(m, Enfrute), perEvent);
    PicksOutsideUnchanged(m, e1, QueryRanked(m, Senco), perEvent);
    MarkAllAppend(m, e1, e2);
    MarkAllKeepsRankData(m, e1 + e2);
    RankingsUnchanged(m, m2);
    var top := TopUp(GeneralRanking(m), e1 + e2, general);
    MarkAllAppend(m, e1 + e2, top);
  }

  /** An event pass over one event's ranking is not affected by marking works of the other event. */
  lemma PicksOutsideUnchanged(m: map<PostId, Post>, marked: seq<PostId>, ranking: seq<PostId>, quota: int)
    requires forall x :: x in ranking ==> x !in marked
    ensures EventPicks(MarkAll(m, marked), ranking, quota) == EventPicks(m, ranking, quota)
  {
    forall x | x in ranking ensures ReadPost(MarkAll(m, marked), x) == ReadPost(m, x) {
      MarkAllRead(m, marked, x);
    }
    EventPicksFrame(MarkAll(m, marked), m, ranking, quota);
  }

  lemma {:induction false} EventPicksFrame(m: map<PostId, Post>, m': map<PostId, Post>, ranking: seq<PostId>, quota: int)
    requires forall x :: x in ranking ==> ReadPost(m, x) == ReadPost(m', x)
    ensures EventPicks(m, ranking, quota) == EventPicks(m', ranking, quota)
    decreases |ranking|
  {
    if ranking != [] && quota > 0 {
      assert ranking[0] in ranking;
      EventPicksFrame(m, m', ranking[1..], quota);
      EventPicksFrame(m, m', ranking[1..], quota - 1);
    }
  }

  function Max0(q: int): nat {
    if q < 0 then 0 else q
  }

  lemma {:induction false} EventPicksShape(m: map<PostId, Post>, ranking: seq<PostId>, quota: int)
    requires Distinct(ranking)
    ensures |EventPicks(m, ranking, quota)| <= Max0(quota)
    ensures Distinct(EventPicks(m, ranking, quota))
    decreases |ranking|
  {
    if ranking != [] && quota > 0 {
      assert Distinct(ranking[1..]);
      EventPicksShape(m, ranking[1..], quota);
      EventPicksShape(m, ranking[1..], quota - 1);
      EventPicksWithin(m, ranking[1..], quota - 1);
      assert ranking[0] !in ranking[1..];
    }
  }

  lemma {:induction false} TopUpShape(general: seq<PostId>, taken: seq<PostId>, quota: int)
    ensures |TopUp(general, taken, quota)| <= Max0(quota)
    ensures Distinct(TopUp(general, taken, quota))
    ensures forall x :: x in TopUp(general, taken, quota) ==> x !in taken && x in general
    decreases |general|
  {
    if general != [] && quota > 0 {
      TopUpShape(general[1..], taken, quota);
      TopUpShape(general[1..], taken + [general[0]], quota - 1);
      if general[0] !in taken {
        DistinctConcat([general[0]], TopUp(general[1..], taken + [general[0]], quota - 1));
      }
    }
  }

  lemma DistinctConcat(a: seq<PostId>, b: seq<PostId>)
    requires Distinct(a) && Distinct(b)
    requires forall x :: x in a ==> x !in b
    ensures Distinct(a + b)
  {
    var r := a + b;
    forall i, j | 0 <= i < j < |r| ensures r[i] != r[j] {
      if i < |a| && j >= |a| {
        assert r[i] in a && r[j] == b[j - |a|];
      }
    }
  }

  /**
   * `select_top_works` returns each work once, at most `perEvent` per event
   * plus `general` more, and flags every one of them.
   */
  lemma SelectedShape(m: map<PostId, Post>, perEvent: int, general: int)
    ensures |Selected(m, perEvent, general)| <= 2 * Max0(perEvent) + Max0(general)
    ensures Distinct(Selected(m, perEvent, general))
    ensures forall id :: id in Selected(m, perEvent, general) ==>
      ReadPost(MarkAll(m, Selected(m, perEvent, general)), id).selectedForPresentation
  {
    var r1, r2 := QueryRanked(m, Enfrute), QueryRanked(m, Senco);
    var e1, e2 := EventPicks(m, r1, perEvent), EventPicks(m, r2, perEvent);
    var top := TopUp(GeneralRanking(m), e1 + e2, general);
    QueryRankedIsPool(m, Enfrute);
    QueryRankedIsPool(m, Senco);
    EventPicksShape(m, r1, perEvent);
    EventPicksShape(m, r2, perEvent);
    EventPicksWithin(m, r1, perEvent);
    EventPicksWithin(m, r2, perEvent);
    TopUpShape(GeneralRanking(m), e1 + e2, general);
    forall x | x in e1 ensures x !in e2 {
      assert InPool(m, Enfrute, x);
    }
    DistinctConcat(e1, e2);
    DistinctConcat(e1 + e2, top);
    var sel := Selected(m, perEvent, general);
    assert sel == e1 + e2 + top;
    forall id | id in sel ensures ReadPost(MarkAll(m, sel), id).selectedForPresentation {
      MarkAllRead(m, sel, id);
    }
  }

  /** With no `reprovado` work in the ranking, an event pass takes a prefix of it. */
  lemma {:induction false} EventPicksPrefix(m: map<PostId, Post>, ranking: seq<PostId>, quota: int)
    requires forall x :: x in ranking ==> ReadPost(m, x).status != Some(Reprovado)
    ensures EventPicks(m, ranking, quota) == ranking[..if Max0(quota) < |ranking| then Max0(quota) else |ranking|]
    decreases |ranking|
  {
    if ranking != [] && quota > 0 {
      assert ranking[0] in ranking;
      EventPicksPrefix(m, ranking[1..], quota - 1);
      var n := if Max0(quota - 1) < |ranking[1..]| then Max0(quota - 1) else |ranking[1..]|;
      assert ranking[..n + 1] == [ranking[0]] + ranking[1..][..n];
    }
  }

  /**
   * The `reprovado` skip of `select_top_works` never fires: the ranking holds
   * no `reprovado` work, so each event pass takes the first `perEvent` entries
   * of the ranking.
   */
  lemma RejectedSkipNeverFires(m: map<PostId, Post>, e: Event, perEvent: int)
    ensures forall x :: x in QueryRanked(m, e) ==> ReadPost(m, x).status != Some(Reprovado)
    ensures var r := QueryRanked(m, e);
      EventPicks(m, r, perEvent) == r[..if Max0(perEvent) < |r| then Max0(perEvent) else |r|]
  {
    QueryRankedIsPool(m, e);
    EventPicksPrefix(m, QueryRanked(m, e), perEvent);
  }

  /**
   * Running `select_top_works` again with the same quotas returns the same
   * works and changes no post.
   */
  lemma SelectionIsIdempotent(m: map<PostId, Post>, perEvent: int, general: int)
    ensures var m' := MarkAll(m, Selected(m, perEvent, general));
      && Selected(m', perEvent, general) == Selected(m, perEvent, general)
      && forall id :: ReadPost(MarkAll(m', Selected(m', perEvent, general)), id) == ReadPost(m', id)
  {
    var sel := Selected(m, perEvent, general);
    var m' := MarkAll(m, sel);
    MarkAllKeepsRankData(m, sel);
    RankingsUnchanged(m, m');
    RejectedSkipNeverFires(m, Enfrute, perEvent);
    RejectedSkipNeverFires(m, Senco, perEvent);
    RejectedSkipNeverFires(m', Enfrute, perEvent);
    RejectedSkipNeverFires(m', Senco, perEvent);
    assert Selected(m', perEvent, general) == sel;
    forall id ensures ReadPost(MarkAll(m', sel), id) == ReadPost(m', id) {
      MarkAllRead(m', sel, id);
      MarkAllRead(m, sel, id);
    }
  }
}
