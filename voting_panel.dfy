/**
 * The voting panel: the total, the rounded percentages, the ranking order
 * (a stable sort by descending vote count), the rank labels, and the
 * `handleVote` handler with its "already voted" list.
 */
module VotingPanel {
  import opened Wrappers
  import opened Strings
  import Room

  /** A poll as the page hands it to the panel, with its number of votes. */
  datatype PollView = PollView(id: Room.Id, optionText: string, explanation: Option<string>, voteCount: int)

  // ---------------------------------------------------------------------------
  // the tally
  // ---------------------------------------------------------------------------

  /** A left-to-right sum of `f` over the polls, as `reduce` computes it. */
  function SumBy(polls: seq<PollView>, f: PollView -> int): int {
    if polls == [] then 0 else SumBy(polls[..|polls| - 1], f) + f(polls[|polls| - 1])
  }

  function VoteCount(p: PollView): int {
    p.voteCount
  }

  /** `polls.reduce((sum, poll) => sum + poll.vote_count, 0)`. */
  function TotalVotes(polls: seq<PollView>): (total: int)
    ensures (forall i :: 0 <= i < |polls| ==> polls[i].voteCount >= 0) ==> total >= 0
  {
    NonNegativeSum(polls);
    SumBy(polls, VoteCount)
  }

  lemma {:induction false} NonNegativeSum(polls: seq<PollView>)
    ensures (forall i :: 0 <= i < |polls| ==> polls[i].voteCount >= 0) ==> SumBy(polls, VoteCount) >= 0
  {
    if polls != [] {
      NonNegativeSum(polls[..|polls| - 1]);
    }
  }

  lemma {:induction false} SumByAppend(a: seq<PollView>, b: seq<PollView>, f: PollView -> int)
    ensures SumBy(a + b, f) == SumBy(a, f) + SumBy(b, f)
    decreases |b|
  {
    if b == [] {
      assert a + b == a;
    } else {
      var b' := b[..|b| - 1];
      assert (a + b)[..|a + b| - 1] == a + b';
      SumByAppend(a, b', f);
    }
  }

  /**
   * `Math.round(count / total * 100)` when `total > 0`, else 0, in exact
   * arithmetic: `Math.round` rounds halves up, which is floor((200c + t) / 2t).
   */
  function Percentage(count: int, total: int): (p: int)
    ensures total <= 0 ==> p == 0
    ensures total > 0 ==> 2 * total * p <= 200 * count + total < 2 * total * (p + 1)
    ensures total > 0 && 0 <= count <= total ==> 0 <= p <= 100
  {
    if total > 0 then
      var p := (200 * count + total) / (2 * total);
      PercentageBounds(count, total, p);
      p
    else 0
  }

  lemma PercentageBounds(count: int, total: int, p: int)
    requires total > 0 && p == (200 * count + total) / (2 * total)
    ensures 2 * total * p <= 200 * count + total < 2 * total * (p + 1)
    ensures 0 <= count <= total ==> 0 <= p <= 100
  {
    var d := 2 * total;
    var n := 200 * count + total;
    assert d * p <= n < d * p + d;
    if 0 <= count <= total {
      assert 0 <= n;
      assert n < d * 101 by {
        assert n <= 200 * total + total;
      }
      assert d * p <= n < d * 101;
      LessMultiple(d, p, 101);
      assert 0 <= d * (p + 1);
      NonNegativeMultiple(d, p + 1);
    }
  }

  lemma LessMultiple(d: int, a: int, b: int)
    requires d > 0 && d * a < d * b
    ensures a < b
  {
  }

  lemma NonNegativeMultiple(d: int, a: int)
    requires d > 0 && d * a > 0
    ensures a > 0
  {
  }

  function Percent(total: int): PollView -> int {
    (p: PollView) => Percentage(p.voteCount, total)
  }

  /**
   * The rounded percentages of the polls add up to 100 up to half a point per
   * poll: 100 - n/2 < sum <= 100 + n/2 for n polls.
   */
  lemma PercentagesNearHundred(polls: seq<PollView>)
    requires TotalVotes(polls) > 0
    ensures 200 - |polls| < 2 * SumBy(polls, Percent(TotalVotes(polls))) <= 200 + |polls|
  {
    var t := TotalVotes(polls);
    PercentSumBounds(polls, t);
    HundredFromScaled(t, |polls|, SumBy(polls, Percent(t)));
  }

  lemma HundredFromScaled(t: int, n: int, s: int)
    requires t > 0
    requires 200 * t - n * t < 2 * t * s <= 200 * t + n * t
    ensures 200 - n < 2 * s <= 200 + n
  {
    assert t * (200 - n) == 200 * t - n * t;
    assert t * (200 + n) == 200 * t + n * t;
    assert t * (2 * s) == 2 * t * s;
    ScaledBounds(t, 200 - n, 2 * s, 200 + n);
  }

  lemma ScaledBounds(t: int, lo: int, x: int, hi: int)
    requires t > 0 && t * lo < t * x <= t * hi
    ensures lo < x <= hi
  {
  }

  /** Adding one poll's rounding error of at most half a point to the running bounds. */
  lemma PercentStep(sv: int, sp: int, c: int, p: int, n: int, t: int)
    requires t > 0 && n >= 1
    requires 200 * sv - (n - 1) * t <= 2 * t * sp <= 200 * sv + (n - 1) * t
    requires 2 * t * p <= 200 * c + t < 2 * t * (p + 1)
    ensures 200 * (sv + c) - n * t < 2 * t * (sp + p) <= 200 * (sv + c) + n * t
  {
    assert 2 * t * (sp + p) == 2 * t * sp + 2 * t * p;
    assert 2 * t * (p + 1) == 2 * t * p + 2 * t;
    assert n * t == (n - 1) * t + t;
  }

  lemma {:induction false} PercentSumBounds(polls: seq<PollView>, t: int)
    requires t > 0
    ensures 200 * SumBy(polls, VoteCount) - |polls| * t <= 2 * t * SumBy(polls, Percent(t))
    ensures polls != [] ==> 200 * SumBy(polls, VoteCount) - |polls| * t < 2 * t * SumBy(polls, Percent(t))
    ensures 2 * t * SumBy(polls, Percent(t)) <= 200 * SumBy(polls, VoteCount) + |polls| * t
  {
    if polls != [] {
      var n := |polls|;
      var init := polls[..n - 1];
      var last := polls[n - 1];
      PercentSumBounds(init, t);
      var p := Percentage(last.voteCount, t);
      assert Percent(t)(last) == p;
      PercentStep(SumBy(init, VoteCount), SumBy(init, Percent(t)), last.voteCount, p, n, t);
    }
  }

  // ---------------------------------------------------------------------------
  // the ranking order
  // ---------------------------------------------------------------------------

  /** Sorted by vote count, highest first. */
  predicate NonIncreasing(s: seq<PollView>) {
    forall i, j :: 0 <= i < j < |s| ==> s[i].voteCount >= s[j].voteCount
  }

  /** The polls with exactly `k` votes, in their order in `s`. */
  function WithCount(s: seq<PollView>, k: int): seq<PollView> {
    if s == [] then [] else (if s[0].voteCount == k then [s[0]] else []) + WithCount(s[1..], k)
  }

  /**
   * What a stable sort with comparator `(a, b) => b.vote_count - a.vote_count`
   * must produce (ECMA-262 2019, section 22.1.3.27): sorted by descending count,
   * with the polls of each count in their input order.
   */
  ghost predicate IsStableRanking(r: seq<PollView>, polls: seq<PollView>) {
    NonIncreasing(r) && forall k :: WithCount(r, k) == WithCount(polls, k)
  }

  /** Places `x` after every poll with at least as many votes. */
  function Insert(sorted: seq<PollView>, x: PollView): (r: seq<PollView>)
    ensures multiset(r) == multiset(sorted) + multiset{x}
  {
    if sorted == [] then [x]
    else if sorted[0].voteCount >= x.voteCount then
      assert sorted == [sorted[0]] + sorted[1..];
      [sorted[0]] + Insert(sorted[1..], x)
    else
      [x] + sorted
  }

  /** No poll in `s` has more than `m` votes. */
  predicate AtMost(s: seq<PollView>, m: int) {
    forall i :: 0 <= i < |s| ==> s[i].voteCount <= m
  }

  lemma {:induction false} InsertAtMost(sorted: seq<PollView>, x: PollView, m: int)
    requires AtMost(sorted, m) && x.voteCount <= m
    ensures AtMost(Insert(sorted, x), m)
  {
    if sorted != [] && sorted[0].voteCount >= x.voteCount {
      InsertAtMost(sorted[1..], x, m);
    }
  }

  lemma NonIncreasingCons(y: PollView, s: seq<PollView>)
    requires NonIncreasing(s) && AtMost(s, y.voteCount)
    ensures NonIncreasing([y] + s)
  {
  }

  lemma {:induction false} InsertSorted(sorted: seq<PollView>, x: PollView)
    requires NonIncreasing(sorted)
    ensures NonIncreasing(Insert(sorted, x))
  {
    if sorted == [] {
    } else if sorted[0].voteCount >= x.voteCount {
      var tail := sorted[1..];
      assert NonIncreasing(tail);
      assert AtMost(tail, sorted[0].voteCount);
      InsertSorted(tail, x);
      InsertAtMost(tail, x, sorted[0].voteCount);
      NonIncreasingCons(sorted[0], Insert(tail, x));
    } else {
      NonIncreasingCons(x, sorted);
    }
  }

  /** `[...polls].sort((a, b) => b.vote_count - a.vote_count)`, as an insertion sort. */
  function RankingOrder(polls: seq<PollView>): seq<PollView> {
    if polls == [] then [] else Insert(RankingOrder(polls[..|polls| - 1]), polls[|polls| - 1])
  }

  /** The ranking is sorted by descending votes and holds exactly the input polls. */
  lemma {:induction false} RankingOrderSortedPermutation(polls: seq<PollView>)
    ensures NonIncreasing(RankingOrder(polls))
    ensures multiset(RankingOrder(polls)) == multiset(polls)
  {
    if polls != [] {
      var init, last := polls[..|polls| - 1], polls[|polls| - 1];
      InitLast(polls);
      RankingOrderSortedPermutation(init);
      InsertSorted(RankingOrder(init), last);
    }
  }

  lemma {:induction false} WithCountAppend(a: seq<PollView>, b: seq<PollView>, k: int)
    ensures WithCount(a + b, k) == WithCount(a, k) + WithCount(b, k)
  {
    if a != [] {
      assert (a + b)[1..] == a[1..] + b;
      WithCountAppend(a[1..], b, k);
    } else {
      assert a + b == b;
    }
  }

  lemma {:induction false} WithCountAbsent(s: seq<PollView>, k: int)
    requires forall i :: 0 <= i < |s| ==> s[i].voteCount < k
    ensures WithCount(s, k) == []
  {
    if s != [] {
      WithCountAbsent(s[1..], k);
    }
  }

  lemma WithCountCons(y: PollView, rest: seq<PollView>, k: int)
    ensures WithCount([y] + rest, k) == (if y.voteCount == k then [y] else []) + WithCount(rest, k)
  {
    assert ([y] + rest)[1..] == rest;
  }

  lemma NonIncreasingTail(s: seq<PollView>)
    requires s != [] && NonIncreasing(s)
    ensures NonIncreasing(s[1..]) && AtMost(s[1..], s[0].voteCount) && AtMost(s, s[0].voteCount)
  {
  }

  lemma {:induction false} InsertWithCount(sorted: seq<PollView>, x: PollView, k: int)
    requires NonIncreasing(sorted)
    ensures WithCount(Insert(sorted, x), k) == WithCount(sorted, k) + if x.voteCount == k then [x] else []
  {
    if sorted == [] {
      assert Insert(sorted, x) == [x] == [x] + [];
      WithCountCons(x, [], k);
    } else if sorted[0].voteCount >= x.voteCount {
      NonIncreasingTail(sorted);
      InsertWithCount(sorted[1..], x, k);
      InsertAfterHead(sorted, x, k);
    } else {
      NonIncreasingTail(sorted);
      InsertBeforeHead(sorted, x, k);
    }
  }

  lemma InsertAfterHead(sorted: seq<PollView>, x: PollView, k: int)
    requires sorted != [] && sorted[0].voteCount >= x.voteCount
    requires WithCount(Insert(sorted[1..], x), k) == WithCount(sorted[1..], k) + if x.voteCount == k then [x] else []
    ensures WithCount(Insert(sorted, x), k) == WithCount(sorted, k) + if x.voteCount == k then [x] else []
  {
    var y, tail := sorted[0], sorted[1..];
    var rest := Insert(tail, x);
    var xs := if x.voteCount == k then [x] else [];
    var ys := if y.voteCount == k then [y] else [];
    var a := WithCount(tail, k);
    assert Insert(sorted, x) == [y] + rest;
    WithCountCons(y, rest, k);
    assert WithCount(Insert(sorted, x), k) == ys + (a + xs);
    HeadTail(sorted);
    WithCountCons(y, tail, k);
    assert WithCount(sorted, k) == ys + a;
    ConcatAssociative(ys, a, xs);
  }

  lemma HeadTail(s: seq<PollView>)
    requires s != []
    ensures s == [s[0]] + s[1..]
  {
  }

  lemma ConcatAssociative(a: seq<PollView>, b: seq<PollView>, c: seq<PollView>)
    ensures a + (b + c) == (a + b) + c
  {
  }

  lemma InsertBeforeHead(sorted: seq<PollView>, x: PollView, k: int)
    requires sorted != [] && sorted[0].voteCount < x.voteCount && AtMost(sorted, sorted[0].voteCount)
    ensures WithCount(Insert(sorted, x), k) == WithCount(sorted, k) + if x.voteCount == k then [x] else []
  {
    assert Insert(sorted, x) == [x] + sorted;
    WithCountCons(x, sorted, k);
    if x.voteCount == k {
      WithCountAbsent(sorted, k);
    }
  }

  /** Ties keep their input order: the polls of each count appear as in the input. */
  lemma {:induction false} RankingOrderStable(polls: seq<PollView>, k: int)
    ensures WithCount(RankingOrder(polls), k) == WithCount(polls, k)
  {
    if polls != [] {
      var init := polls[..|polls| - 1];
      var last := polls[|polls| - 1];
      var sortedInit := RankingOrder(init);
      RankingOrderSortedPermutation(init);
      var tail := if last.voteCount == k then [last] else [];
      assert RankingOrder(polls) == Insert(sortedInit, last);
      RankingOrderStable(init, k);
      InsertWithCount(sortedInit, last, k);
      assert WithCount(RankingOrder(polls), k) == WithCount(init, k) + tail;
      InitLast(polls);
      WithCountAppend(init, [last], k);
      assert WithCount([last], k) == tail + WithCount([last][1..], k);
      assert [last][1..] == [];
    }
  }

  lemma InitLast(s: seq<PollView>)
    requires s != []
    ensures s == s[..|s| - 1] + [s[|s| - 1]]
  {
  }

  lemma RankingOrderIsStableRanking(polls: seq<PollView>)
    ensures IsStableRanking(RankingOrder(polls), polls)
  {
    RankingOrderSortedPermutation(polls);
    forall k ensures WithCount(RankingOrder(polls), k) == WithCount(polls, k) {
      RankingOrderStable(polls, k);
    }
  }

  lemma {:induction false} WithCountHasMember(s: seq<PollView>, k: int)
    requires WithCount(s, k) != []
    ensures exists i :: 0 <= i < |s| && s[i].voteCount == k
  {
    if s[0].voteCount != k {
      WithCountHasMember(s[1..], k);
      var i :| 0 <= i < |s[1..]| && s[1..][i].voteCount == k;
      assert s[i + 1].voteCount == k;
    }
  }

  /**
   * A stable descending ranking is unique: any two orderings that are sorted
   * and keep every tie group in input order are the same sequence.
   */
  lemma {:induction false} StableRankingUnique(s: seq<PollView>, t: seq<PollView>)
    requires NonIncreasing(s) && NonIncreasing(t)
    requires forall k :: WithCount(s, k) == WithCount(t, k)
    ensures s == t
    decreases |s|
  {
    EmptyTogether(s, t);
    if s != [] {
      HeadsAgree(s, t);
      assert NonIncreasing(s[1..]) && NonIncreasing(t[1..]);
      StableRankingUnique(s[1..], t[1..]);
      assert s == [s[0]] + s[1..] && t == [t[0]] + t[1..];
    }
  }

  lemma EmptyTogether(s: seq<PollView>, t: seq<PollView>)
    requires forall k :: WithCount(s, k) == WithCount(t, k)
    ensures s == [] <==> t == []
  {
    if s != [] {
      assert WithCount(s, s[0].voteCount) != [];
      assert WithCount(t, s[0].voteCount) != [];
    }
    if t != [] {
      assert WithCount(t, t[0].voteCount) != [];
      assert WithCount(s, t[0].voteCount) != [];
    }
  }

  lemma HeadCountsAgree(s: seq<PollView>, t: seq<PollView>)
    requires s != [] && t != []
    requires NonIncreasing(s) && NonIncreasing(t)
    requires forall k :: WithCount(s, k) == WithCount(t, k)
    ensures s[0].voteCount == t[0].voteCount
  {
    var a, b := s[0].voteCount, t[0].voteCount;
    assert WithCount(s, a) != [];
    assert WithCount(t, a) != [];
    WithCountHasMember(t, a);
    assert WithCount(t, b) != [];
    assert WithCount(s, b) != [];
    WithCountHasMember(s, b);
  }

  lemma HeadsAgree(s: seq<PollView>, t: seq<PollView>)
    requires s != [] && t != []
    requires NonIncreasing(s) && NonIncreasing(t)
    requires forall k :: WithCount(s, k) == WithCount(t, k)
    ensures s[0] == t[0]
    ensures forall k :: WithCount(s[1..], k) == WithCount(t[1..], k)
  {
    HeadCountsAgree(s, t);
    var a := s[0].voteCount;
    var ws, wt := WithCount(s, a), WithCount(t, a);
    assert ws == [s[0]] + WithCount(s[1..], a);
    assert wt == [t[0]] + WithCount(t[1..], a);
    assert ws == wt;
    assert s[0] == ws[0];
    assert WithCount(s[1..], a) == ws[1..];
    forall k ensures WithCount(s[1..], k) == WithCount(t[1..], k) {
      if k != a {
        assert WithCount(s, k) == WithCount(s[1..], k);
        assert WithCount(t, k) == WithCount(t[1..], k);
      }
    }
  }

  /**
   * The ranking is exactly what any stable sort of the polls by descending
   * vote count returns.
   */
  lemma StableRankingIsRankingOrder(r: seq<PollView>, polls: seq<PollView>)
    ensures IsStableRanking(r, polls) <==> r == RankingOrder(polls)
  {
    RankingOrderIsStableRanking(polls);
    if IsStableRanking(r, polls) {
      StableRankingUnique(r, RankingOrder(polls));
    }
  }

  /** Any function of the polls sums the same over the ranking as over the input. */
  lemma {:induction false} SumByRankingOrder(polls: seq<PollView>, f: PollView -> int)
    ensures SumBy(RankingOrder(polls), f) == SumBy(polls, f)
  {
    if polls != [] {
      var init := polls[..|polls| - 1];
      var last := polls[|polls| - 1];
      SumByRankingOrder(init, f);
      SumByInsert(RankingOrder(init), last, f);
    }
  }

  lemma {:induction false} SumByInsert(sorted: seq<PollView>, x: PollView, f: PollView -> int)
    ensures SumBy(Insert(sorted, x), f) == SumBy(sorted, f) + f(x)
  {
    if sorted == [] {
      assert [x][..0] == [];
    } else if sorted[0].voteCount >= x.voteCount {
      SumByInsert(sorted[1..], x, f);
      SumByAppend([sorted[0]], Insert(sorted[1..], x), f);
      SumByAppend([sorted[0]], sorted[1..], f);
      assert [sorted[0]] + sorted[1..] == sorted;
      assert [sorted[0]][..0] == [];
    } else {
      SumByAppend([x], sorted, f);
      assert [x][..0] == [];
    }
  }

  /** The example of a three-option ranking: A(2), B(3), C(3) ranks as B, C, A. */
  lemma RankingExample(a: PollView, b: PollView, c: PollView)
    requires a.voteCount == 2 && b.voteCount == 3 && c.voteCount == 3
    ensures RankingOrder([a, b, c]) == [b, c, a]
  {
    RankingOfOne(a);
    RankingOrderSnoc([a], b);
    assert [a] + [b] == [a, b];
    InsertOnTop([a], b);
    RankingOrderSnoc([a, b], c);
    assert [a, b] + [c] == [a, b, c];
    InsertBelowHead([b, a], c);
    assert [b, a][1..] == [a];
    InsertOnTop([a], c);
  }

  lemma RankingOfOne(a: PollView)
    ensures RankingOrder([a]) == [a]
  {
    assert [a][..0] == [];
  }

  lemma InsertOnTop(sorted: seq<PollView>, x: PollView)
    requires sorted != [] && sorted[0].voteCount < x.voteCount
    ensures Insert(sorted, x) == [x] + sorted
  {
  }

  lemma InsertBelowHead(sorted: seq<PollView>, x: PollView)
    requires sorted != [] && sorted[0].voteCount >= x.voteCount
    ensures Insert(sorted, x) == [sorted[0]] + Insert(sorted[1..], x)
  {
  }

  lemma RankingOrderSnoc(init: seq<PollView>, last: PollView)
    ensures RankingOrder(init + [last]) == Insert(RankingOrder(init), last)
  {
    assert (init + [last])[..|init|] == init;
  }

  /** `displayPolls`: a sorted copy in ranking mode, the polls as given otherwise. */
  function DisplayPolls(polls: seq<PollView>, showRanking: bool): (r: seq<PollView>)
    ensures showRanking ==> IsStableRanking(r, polls)
    ensures !showRanking ==> r == polls
    ensures multiset(r) == multiset(polls)
  {
    if showRanking then
      RankingOrderIsStableRanking(polls);
      RankingOrderSortedPermutation(polls);
      RankingOrder(polls)
    else polls
  }

  // ---------------------------------------------------------------------------
  // rank labels and the rendered panel
  // ---------------------------------------------------------------------------

  /** `getMedal(rank)`: medals for the first three, "N位" after, nothing outside ranking mode. */
  function Medal(rank: nat, showRanking: bool): (m: Option<string>)
    ensures m.Some? <==> showRanking
  {
    if !showRanking then None
    else if rank == 1 then Some("🥇")
    else if rank == 2 then Some("🥈")
    else if rank == 3 then Some("🥉")
    else Some(NatToString(rank) + "位")
  }

  /** Different ranks get different labels. */
  lemma MedalsDistinct(r1: nat, r2: nat)
    requires r1 != r2
    ensures Medal(r1, true) != Medal(r2, true)
  {
    var medal1, medal2 := 1 <= r1 <= 3, 1 <= r2 <= 3;
    if !medal1 && !medal2 {
      var s1, s2 := NatToString(r1), NatToString(r2);
      if s1 + "位" == s2 + "位" {
        assert s1 == (s1 + "位")[..|s1|];
        assert s2 == (s2 + "位")[..|s2|];
        NatToStringInjective(r1, r2);
      }
    } else if medal1 != medal2 {
      assert |Medal(r1, true).value| == 1 <==> medal1;
      assert |Medal(r2, true).value| == 1 <==> medal2;
    }
  }

  /** One card of the panel. */
  datatype Row = Row(poll: PollView, rank: nat, medal: Option<string>, percentage: int, isVoted: bool, isVoting: bool)

  datatype PanelView = Placeholder | Panel(totalVotes: int, rows: seq<Row>)

  function Rows(shown: seq<PollView>, total: int, votedPollIds: seq<Room.Id>, votingFor: Option<Room.Id>,
                showRanking: bool): (rows: seq<Row>)
    ensures |rows| == |shown|
  {
    seq(|shown|, i requires 0 <= i < |shown| =>
      Row(shown[i], i + 1, Medal(i + 1, showRanking), Percentage(shown[i].voteCount, total),
          shown[i].id in votedPollIds, votingFor == Some(shown[i].id)))
  }

  /** What the panel renders: a placeholder for no polls, else the total and one row per poll. */
  function Render(polls: seq<PollView>, votedPollIds: seq<Room.Id>, votingFor: Option<Room.Id>,
                  showRanking: bool): (v: PanelView)
    ensures v.Placeholder? <==> polls == []
  {
    if polls == [] then Placeholder
    else
      var total := TotalVotes(polls);
      Panel(total, Rows(DisplayPolls(polls, showRanking), total, votedPollIds, votingFor, showRanking))
  }

  /** The polls of the rows, top to bottom. */
  function RowPolls(rows: seq<Row>): (polls: seq<PollView>)
    ensures |polls| == |rows| && forall i :: 0 <= i < |rows| ==> polls[i] == rows[i].poll
  {
    seq(|rows|, i requires 0 <= i < |rows| => rows[i].poll)
  }

  /** The sum of the percentages shown on the rows. */
  function PercentTotal(rows: seq<Row>): int {
    if rows == [] then 0 else PercentTotal(rows[..|rows| - 1]) + rows[|rows| - 1].percentage
  }

  lemma RowFields(shown: seq<PollView>, total: int, votedPollIds: seq<Room.Id>, votingFor: Option<Room.Id>,
                  showRanking: bool, i: nat)
    requires i < |shown|
    ensures var row := Rows(shown, total, votedPollIds, votingFor, showRanking)[i];
      && row.poll == shown[i] && row.rank == i + 1 && row.medal == Medal(i + 1, showRanking)
      && row.percentage == Percentage(shown[i].voteCount, total)
  {
  }

  /**
   * In ranking mode the rows show the polls in the stable ranking order,
   * ranked 1, 2, 3, ... with a different label on every row.
   */
  lemma RankingPanelOrder(polls: seq<PollView>, votedPollIds: seq<Room.Id>, votingFor: Option<Room.Id>)
    requires polls != []
    ensures var v := Render(polls, votedPollIds, votingFor, true);
      && v.Panel? && v.totalVotes == TotalVotes(polls)
      && IsStableRanking(RowPolls(v.rows), polls)
      && (forall i :: 0 <= i < |v.rows| ==> v.rows[i].rank == i + 1)
      && (forall i, j :: 0 <= i < j < |v.rows| ==> v.rows[i].medal != v.rows[j].medal)
  {
    var v := Render(polls, votedPollIds, votingFor, true);
    var shown := DisplayPolls(polls, true);
    assert v.rows == Rows(shown, TotalVotes(polls), votedPollIds, votingFor, true);
    forall i | 0 <= i < |v.rows| ensures RowPolls(v.rows)[i] == shown[i] && v.rows[i].rank == i + 1 {
      RowFields(shown, TotalVotes(polls), votedPollIds, votingFor, true, i);
    }
    assert RowPolls(v.rows) == shown;
    forall i, j | 0 <= i < j < |v.rows| ensures v.rows[i].medal != v.rows[j].medal {
      RowFields(shown, TotalVotes(polls), votedPollIds, votingFor, true, i);
      RowFields(shown, TotalVotes(polls), votedPollIds, votingFor, true, j);
      MedalsDistinct(i + 1, j + 1);
    }
  }

  /**
   * In either mode, with non-negative counts, every percentage shown lies in
   * 0..100, all are 0 when nobody voted, and otherwise they add up to 100
   * within half a point per poll.
   */
  lemma PanelPercentages(polls: seq<PollView>, votedPollIds: seq<Room.Id>, votingFor: Option<Room.Id>,
                         showRanking: bool)
    requires polls != []
    requires forall i :: 0 <= i < |polls| ==> polls[i].voteCount >= 0
    ensures var v := Render(polls, votedPollIds, votingFor, showRanking);
      && v.Panel?
      && (forall i :: 0 <= i < |v.rows| ==> 0 <= v.rows[i].percentage <= 100)
      && (v.totalVotes == 0 ==> forall i :: 0 <= i < |v.rows| ==> v.rows[i].percentage == 0)
      && (v.totalVotes > 0 ==> 200 - |polls| < 2 * PercentTotal(v.rows) <= 200 + |polls|)
  {
    var v := Render(polls, votedPollIds, votingFor, showRanking);
    var shown := DisplayPolls(polls, showRanking);
    var total := TotalVotes(polls);
    assert v.rows == Rows(shown, total, votedPollIds, votingFor, showRanking);
    forall i | 0 <= i < |v.rows|
      ensures 0 <= v.rows[i].percentage <= 100 && (total == 0 ==> v.rows[i].percentage == 0)
    {
      RowFields(shown, total, votedPollIds, votingFor, showRanking, i);
      assert shown[i] in multiset(polls);
      var k :| 0 <= k < |polls| && polls[k] == shown[i];
      CountAtMostTotal(polls, k);
    }
    if total > 0 {
      ShownPercentagesNearHundred(polls, showRanking);
      PercentTotalRows(shown, total, votedPollIds, votingFor, showRanking);
    }
  }

  lemma {:induction false} PercentTotalRows(shown: seq<PollView>, total: int, votedPollIds: seq<Room.Id>,
                                            votingFor: Option<Room.Id>, showRanking: bool)
    ensures PercentTotal(Rows(shown, total, votedPollIds, votingFor, showRanking)) == SumBy(shown, Percent(total))
  {
    if shown != [] {
      var n := |shown|;
      var rows := Rows(shown, total, votedPollIds, votingFor, showRanking);
      var init := shown[..n - 1];
      assert rows[..n - 1] == Rows(init, total, votedPollIds, votingFor, showRanking);
      PercentTotalRows(init, total, votedPollIds, votingFor, showRanking);
      RowFields(shown, total, votedPollIds, votingFor, showRanking, n - 1);
      assert Percent(total)(shown[n - 1]) == rows[n - 1].percentage;
    }
  }

  lemma {:induction false} CountAtMostTotal(polls: seq<PollView>, k: nat)
    requires k < |polls|
    requires forall i :: 0 <= i < |polls| ==> polls[i].voteCount >= 0
    ensures polls[k].voteCount <= TotalVotes(polls)
  {
    var init := polls[..|polls| - 1];
    NonNegativeSum(init);
    if k < |polls| - 1 {
      CountAtMostTotal(init, k);
    }
  }

  /** The percentages shown in either mode add up to 100 within half a point per poll. */
  lemma ShownPercentagesNearHundred(polls: seq<PollView>, showRanking: bool)
    requires TotalVotes(polls) > 0
    ensures var shown := DisplayPolls(polls, showRanking);
      200 - |polls| < 2 * SumBy(shown, Percent(TotalVotes(polls))) <= 200 + |polls|
  {
    PercentagesNearHundred(polls);
    if showRanking {
      SumByRankingOrder(polls, Percent(TotalVotes(polls)));
    }
  }

  // ---------------------------------------------------------------------------
  // the vote handler
  // ---------------------------------------------------------------------------

  const HashPendingMessage: string := "ユーザーIDを生成中です..."
  const AlreadyVotedMessage: string := "既にこの選択肢に投票済みです"
  const VoteFailedMessage: string := "投票に失敗しました"

  /**
   * `err instanceof Error ? err.message : "投票に失敗しました"`, with the action
   * called directly: its own errors are `Error`s and a database error object is not.
   */
  function ClientMessage(e: Room.ActionError): (r: string)
    ensures r == VoteFailedMessage <==> e.DatabaseError?
    ensures e == Room.AlreadyVoted ==> r == AlreadyVotedMessage
  {
    match Room.Message(e)
    case Some(m) => m
    case None => VoteFailedMessage
  }

  predicate NoDuplicates(ids: seq<Room.Id>) {
    forall i, j :: 0 <= i < j < |ids| ==> ids[i] != ids[j]
  }

  /** `!userIdHash`: no hash yet, or an empty one. */
  predicate HashPending(hash: Option<string>) {
    hash.None? || hash.value == ""
  }

  /** The panel's React state. */
  class PanelState {
    var userIdHash: Option<string>
    var votingFor: Option<Room.Id>
    var votedPollIds: seq<Room.Id>
    var error: Option<string>

    constructor (initialVotedIds: seq<Room.Id>)
      ensures userIdHash == None && votingFor == None && votedPollIds == initialVotedIds && error == None
    {
      userIdHash, votingFor, votedPollIds, error := None, None, initialVotedIds, None;
    }

    /** The effect that stores the fingerprint hash once it is computed. */
    method HashReady(hash: string)
      modifies this`userIdHash
      ensures userIdHash == Some(hash)
    {
      userIdHash := Some(hash);
    }

    /**
     * `handleVote(pollId)`: the two client-side refusals, then the server action
     * on `store`, then the state updates of the `try`/`catch`/`finally`.
     */
    method HandleVote(pollId: Room.Id, store: Room.Store, precheckFails: bool)
      requires store.Valid()
      modifies this`votingFor, this`votedPollIds, this`error, store
      ensures store.Valid()
      ensures userIdHash == old(userIdHash)
      ensures store.entries == old(store.entries)
      ensures HashPending(old(userIdHash)) ==>
        && error == Some(HashPendingMessage)
        && votingFor == old(votingFor) && votedPollIds == old(votedPollIds)
        && unchanged(store)
      ensures !HashPending(old(userIdHash)) && pollId in old(votedPollIds) ==>
        && error == Some(AlreadyVotedMessage)
        && votingFor == old(votingFor) && votedPollIds == old(votedPollIds)
        && unchanged(store)
      ensures !HashPending(old(userIdHash)) && pollId !in old(votedPollIds) ==>
        var hash := old(userIdHash).value;
        var duplicate := Room.HasVote(old(store.votes), pollId, hash);
        var accepted := !duplicate && Room.PollExists(old(store.polls), pollId);
        && votingFor == None
        && store.rooms == old(store.rooms) && store.polls == old(store.polls)
        && (accepted ==>
              && votedPollIds == old(votedPollIds) + [pollId]
              && error == None
              && |store.votes| == |old(store.votes)| + 1
              && var vote := store.votes[|store.votes| - 1];
                 && store.votes == old(store.votes) + [vote]
                 && vote.pollId == pollId && vote.userIdHash == hash
                 && vote.nickname.None? && vote.comment.None?)
        && (!accepted ==>
              && votedPollIds == old(votedPollIds)
              && error == Some(if duplicate then AlreadyVotedMessage else VoteFailedMessage)
              && store.votes == old(store.votes))
      ensures NoDuplicates(old(votedPollIds)) ==> NoDuplicates(votedPollIds)
    {
      if HashPending(userIdHash) {
        error := Some(HashPendingMessage);
        return;
      }
      if pollId in votedPollIds {
        error := Some(AlreadyVotedMessage);
        return;
      }
      error := None;
      votingFor := Some(pollId);
      var outcome := store.SubmitVote(pollId, userIdHash.value, None, None, precheckFails);
      match outcome {
        case Ok(_) =>
          votedPollIds := votedPollIds + [pollId];
        case Err(e) =>
          error := Some(ClientMessage(e));
      }
      votingFor := None;
    }
  }
}
