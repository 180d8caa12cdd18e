/**
 * The ranking pools: the approved works of an event ordered by ranking score,
 * and the general ranking that merges both events.
 */
module Ranking {
  import opened Meta
  import opened StatusManager

  function Score(m: map<PostId, Post>, id: PostId): real {
    ReadPost(m, id).rankingScore
  }

  /** The raw statuses a ranked work may have. */
  const RankedStatuses: set<Option<Status>> := {Some(Aprovado), Some(PosterEnviado), Some(AguardandoConfirmacao), Some(Confirmado)}

  /** Membership in the pool of `e`: a post of that event with a positive score and a ranked status. */
  predicate InPool(m: map<PostId, Post>, e: Event, id: PostId) {
    var p := ReadPost(m, id);
    p.event == Some(e) && p.rankingScore > 0.0 && p.status in RankedStatuses
  }

  function Pool(m: map<PostId, Post>, e: Event): set<PostId> {
    set id | id in m && InPool(m, e, id)
  }

  /**
   * The order of a ranking: higher score first. The query leaves the order of
   * equal scores open; the model fixes it by ascending post id.
   */
  predicate Precedes(m: map<PostId, Post>, a: PostId, b: PostId) {
    Score(m, a) > Score(m, b) || (Score(m, a) == Score(m, b) && a <= b)
  }

  lemma {:induction false} BestExists(m: map<PostId, Post>, s: set<PostId>)
    requires s != {}
    ensures exists x :: x in s && forall y :: y in s ==> Precedes(m, x, y)
    decreases |s|
  {
    var z :| z in s;
    if s != {z} {
      BestExists(m, s - {z});
      var x :| x in s - {z} && forall y :: y in s - {z} ==> Precedes(m, x, y);
      if !Precedes(m, x, z) {
        forall y | y in s ensures Precedes(m, z, y) {
          if y != z {
            assert Precedes(m, x, y);
          }
        }
      }
    }
  }

  /** The element of `s` that comes first in ranking order. */
  function Best(m: map<PostId, Post>, s: set<PostId>): (x: PostId)
    requires s != {}
    ensures x in s && forall y :: y in s ==> Precedes(m, x, y)
  {
    BestExists(m, s);
    var x :| x in s && forall y :: y in s ==> Precedes(m, x, y);
    x
  }

  /** Score order: no later entry has a higher score than an earlier one. */
  predicate ScoreSorted(m: map<PostId, Post>, r: seq<PostId>) {
    forall i, j :: 0 <= i < j < |r| ==> Score(m, r[i]) >= Score(m, r[j])
  }

  predicate Distinct(r: seq<PostId>) {
    forall i, j :: 0 <= i < j < |r| ==> r[i] != r[j]
  }

  /** The ids of `s` in ranking order. */
  function RankSet(m: map<PostId, Post>, s: set<PostId>): (r: seq<PostId>)
    ensures forall x :: x in r <==> x in s
    ensures Distinct(r)
    ensures forall i, j :: 0 <= i < j < |r| ==> Precedes(m, r[i], r[j])
    decreases |s|
  {
    if s == {} then []
    else
      var b := Best(m, s);
      [b] + RankSet(m, s - {b})
  }

  /** `query_ranked`: the pool of one event, highest score first. */
  function QueryRanked(m: map<PostId, Post>, e: Event): (r: seq<PostId>)
  {
    RankSet(m, Pool(m, e))
  }

  /**
   * The ranking of an event holds exactly its pool, once each, highest score
   * first.
   */
  lemma QueryRankedIsPool(m: map<PostId, Post>, e: Event)
    ensures forall id :: id in QueryRanked(m, e) <==> InPool(m, e, id)
    ensures Distinct(QueryRanked(m, e))
    ensures ScoreSorted(m, QueryRanked(m, e))
  {
  }

  /** `get_event_ranking`: an unknown event name has an empty ranking. */
  function GetEventRanking(m: map<PostId, Post>, event: string): (r: seq<PostId>)
    ensures ParseEvent(event).None? ==> r == []
    ensures ParseEvent(event).Some? ==> r == QueryRanked(m, ParseEvent(event).value)
  {
    match ParseEvent(event)
    case None => []
    case Some(e) => QueryRanked(m, e)
  }

  /**
   * A stable merge by descending score, which is what a stable sort of the
   * concatenation of two score-sorted lists produces: on equal scores the
   * entries of `a` come first.
   */
  function Merge(m: map<PostId, Post>, a: seq<PostId>, b: seq<PostId>): (r: seq<PostId>)
    ensures multiset(r) == multiset(a) + multiset(b)
    ensures |r| == |a| + |b|
    decreases |a| + |b|
  {
    if a == [] then b
    else if b == [] then a
    else if Score(m, a[0]) >= Score(m, b[0]) then
      assert a == [a[0]] + a[1..];
      [a[0]] + Merge(m, a[1..], b)
    else
      assert b == [b[0]] + b[1..];
      [b[0]] + Merge(m, a, b[1..])
  }

  lemma SortedHeadIsHighest(m: map<PostId, Post>, a: seq<PostId>)
    requires ScoreSorted(m, a) && a != []
    ensures forall x :: x in a ==> Score(m, x) <= Score(m, a[0])
  {
    forall x | x in a ensures Score(m, x) <= Score(m, a[0]) {
      var i :| 0 <= i < |a| && a[i] == x;
    }
  }

  lemma MergeMembers(m: map<PostId, Post>, a: seq<PostId>, b: seq<PostId>)
    ensures forall x :: x in Merge(m, a, b) <==> x in a || x in b
  {
    var r := Merge(m, a, b);
    forall x ensures x in r <==> x in a || x in b {
      assert x in r <==> x in multiset(r);
      assert x in a <==> x in multiset(a);
      assert x in b <==> x in multiset(b);
    }
  }

  lemma {:induction false} MergeSorted(m: map<PostId, Post>, a: seq<PostId>, b: seq<PostId>)
    requires ScoreSorted(m, a) && ScoreSorted(m, b)
    ensures ScoreSorted(m, Merge(m, a, b))
    decreases |a| + |b|
  {
    if a != [] && b != [] {
      SortedHeadIsHighest(m, a);
      SortedHeadIsHighest(m, b);
      var head, rest;
      if Score(m, a[0]) >= Score(m, b[0]) {
        assert ScoreSorted(m, a[1..]);
        MergeSorted(m, a[1..], b);
        head, rest := a[0], Merge(m, a[1..], b);
        MergeMembers(m, a[1..], b);
      } else {
        assert ScoreSorted(m, b[1..]);
        MergeSorted(m, a, b[1..]);
        head, rest := b[0], Merge(m, a, b[1..]);
        MergeMembers(m, a, b[1..]);
      }
      assert Merge(m, a, b) == [head] + rest;
      forall k | 0 <= k < |rest| ensures Score(m, head) >= Score(m, rest[k]) {
        assert rest[k] in rest;
      }
    }
  }

  lemma {:induction false} MergeDistinct(m: map<PostId, Post>, a: seq<PostId>, b: seq<PostId>)
    requires Distinct(a) && Distinct(b)
    requires forall x :: x in a ==> x !in b
    ensures Distinct(Merge(m, a, b))
    decreases |a| + |b|
  {
    if a != [] && b != [] {
      var head, rest;
      if Score(m, a[0]) >= Score(m, b[0]) {
        assert Distinct(a[1..]);
        MergeDistinct(m, a[1..], b);
        MergeMembers(m, a[1..], b);
        head, rest := a[0], Merge(m, a[1..], b);
        assert a[0] !in a[1..];
      } else {
        assert Distinct(b[1..]);
        MergeDistinct(m, a, b[1..]);
        MergeMembers(m, a, b[1..]);
        head, rest := b[0], Merge(m, a, b[1..]);
        assert b[0] !in b[1..];
      }
      assert Merge(m, a, b) == [head] + rest;
      assert head !in rest;
    }
  }

  /** `get_general_ranking`: both event rankings combined and sorted by score. */
  function GeneralRanking(m: map<PostId, Post>): seq<PostId> {
    Merge(m, QueryRanked(m, Enfrute), QueryRanked(m, Senco))
  }

  /**
   * The general ranking is a permutation of the two event rankings put
   * together, sorted by descending score, and lists every work once.
   */
  lemma GeneralRankingIsSortedUnion(m: map<PostId, Post>)
    ensures multiset(GeneralRanking(m)) == multiset(QueryRanked(m, Enfrute) + QueryRanked(m, Senco))
    ensures ScoreSorted(m, GeneralRanking(m))
    ensures forall id :: id in GeneralRanking(m) <==> InPool(m, Enfrute, id) || InPool(m, Senco, id)
    ensures Distinct(GeneralRanking(m))
  {
    var a := QueryRanked(m, Enfrute);
    var b := QueryRanked(m, Senco);
    QueryRankedIsPool(m, Enfrute);
    QueryRankedIsPool(m, Senco);
    MergeSorted(m, a, b);
    MergeMembers(m, a, b);
    MergeDistinct(m, a, b);
  }

  /** Two stores that agree on every field a ranking reads: event, score and raw status. */
  ghost predicate SameRankData(m: map<PostId, Post>, m': map<PostId, Post>) {
    forall id ::
      && ReadPost(m, id).event == ReadPost(m', id).event
      && ReadPost(m, id).rankingScore == ReadPost(m', id).rankingScore
      && ReadPost(m, id).status == ReadPost(m', id).status
  }

  lemma BestSame(m: map<PostId, Post>, m': map<PostId, Post>, s: set<PostId>)
    requires SameRankData(m, m') && s != {}
    ensures Best(m, s) == Best(m', s)
  {
    var x, x' := Best(m, s), Best(m', s);
    assert Precedes(m, x, x');
    assert Precedes(m', x', x);
  }

  lemma {:induction false} RankSetSame(m: map<PostId, Post>, m': map<PostId, Post>, s: set<PostId>)
    requires SameRankData(m, m')
    ensures RankSet(m, s) == RankSet(m', s)
    decreases |s|
  {
    if s != {} {
      BestSame(m, m', s);
      RankSetSame(m, m', s - {Best(m, s)});
    }
  }

  lemma {:induction false} MergeSame(m: map<PostId, Post>, m': map<PostId, Post>, a: seq<PostId>, b: seq<PostId>)
    requires SameRankData(m, m')
    ensures Merge(m, a, b) == Merge(m', a, b)
    decreases |a| + |b|
  {
    if a != [] && b != [] {
      if Score(m, a[0]) >= Score(m, b[0]) {
        MergeSame(m, m', a[1..], b);
      } else {
        MergeSame(m, m', a, b[1..]);
      }
    }
  }

  /** Rankings read nothing but event, score and raw status: stores that agree on those rank alike. */
  lemma RankingsUnchanged(m: map<PostId, Post>, m': map<PostId, Post>)
    requires SameRankData(m, m')
    ensures forall e :: QueryRanked(m, e) == QueryRanked(m', e)
    ensures GeneralRanking(m) == GeneralRanking(m')
  {
    forall e ensures QueryRanked(m, e) == QueryRanked(m', e) {
      assert Pool(m, e) == Pool(m', e);
      RankSetSame(m, m', Pool(m, e));
    }
    MergeSame(m, m', QueryRanked(m, Enfrute), QueryRanked(m, Senco));
  }
}
