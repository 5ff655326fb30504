/**
 * Rankings over the results of one olympiad.  Two rank definitions coexist:
 * the position in an ORDER BY (reward distribution, the staff ranking and the
 * leaderboard rows) and one plus the number of strictly better results (the
 * leaderboard's own rank and the result view's rank).
 */
module Ranking {
  import opened Text
  import opened Models

  /** The two ORDER BY clauses in use. */
  datatype Order =
    | ScoreTime           // ORDER BY -score, time_taken
    | ScoreTimeSubmitted  // ORDER BY -score, time_taken, submitted_at

  /** `a` may come before `b`: higher score first, then less time, then (if used) earlier submission. */
  predicate Le(order: Order, a: TestResult, b: TestResult)
  {
    a.score > b.score
    || (a.score == b.score && a.timeTaken < b.timeTaken)
    || (a.score == b.score && a.timeTaken == b.timeTaken
        && (order == ScoreTime || a.submittedAt <= b.submittedAt))
  }

  predicate Sorted(order: Order, s: seq<TestResult>)
  {
    forall i, j :: 0 <= i < j < |s| ==> Le(order, s[i], s[j])
  }

  /** `Le` is a total preorder. */
  lemma LeTotal(order: Order, a: TestResult, b: TestResult)
    ensures Le(order, a, b) || Le(order, b, a)
  {
  }

  lemma LeTrans(order: Order, a: TestResult, b: TestResult, c: TestResult)
    requires Le(order, a, b) && Le(order, b, c)
    ensures Le(order, a, c)
  {
  }

  /**
   * Inserts `x` into a sorted sequence after every element that may precede
   * it, so equal keys keep their table order.
   */
  function Insert(order: Order, x: TestResult, s: seq<TestResult>): (r: seq<TestResult>)
    ensures |r| == |s| + 1
  {
    if s == [] then [x]
    else if Le(order, s[0], x) then [s[0]] + Insert(order, x, s[1..])
    else [x] + s
  }

  lemma {:induction false} InsertPermutation(order: Order, x: TestResult, s: seq<TestResult>)
    ensures multiset(Insert(order, x, s)) == multiset(s) + multiset{x}
  {
    if s != [] {
      assert s == [s[0]] + s[1..];
      if Le(order, s[0], x) {
        InsertPermutation(order, x, s[1..]);
      }
    }
  }

  /** A lower bound of `x` and of every element of `s` bounds every element of the insertion. */
  lemma InsertLowerBound(order: Order, y: TestResult, x: TestResult, s: seq<TestResult>)
    requires Le(order, y, x) && forall k :: 0 <= k < |s| ==> Le(order, y, s[k])
    ensures forall j :: 0 <= j < |Insert(order, x, s)| ==> Le(order, y, Insert(order, x, s)[j])
  {
    var t := Insert(order, x, s);
    InsertPermutation(order, x, s);
    forall j | 0 <= j < |t| ensures Le(order, y, t[j]) {
      assert t[j] in multiset(t);
      if t[j] != x {
        assert t[j] in multiset(s);
        var k :| 0 <= k < |s| && s[k] == t[j];
      }
    }
  }

  lemma {:induction false} InsertSorted(order: Order, x: TestResult, s: seq<TestResult>)
    requires Sorted(order, s)
    ensures Sorted(order, Insert(order, x, s))
  {
    if s != [] {
      if Le(order, s[0], x) {
        var t := Insert(order, x, s[1..]);
        InsertSorted(order, x, s[1..]);
        InsertLowerBound(order, s[0], x, s[1..]);
        assert Insert(order, x, s) == [s[0]] + t;
      } else {
        LeTotal(order, s[0], x);
        forall j | 0 <= j < |s| ensures Le(order, x, s[j]) {
          if j > 0 {
            LeTrans(order, x, s[0], s[j]);
          }
        }
      }
    }
  }

  /** Table order in, ORDER BY out: the same results, sorted, equal keys in table order. */
  function SortBy(order: Order, s: seq<TestResult>): (r: seq<TestResult>)
    ensures Sorted(order, r)
    ensures multiset(r) == multiset(s)
    ensures |r| == |s|
  {
    if s == [] then []
    else
      var t := SortBy(order, s[..|s| - 1]);
      assert s == s[..|s| - 1] + [s[|s| - 1]];
      InsertSorted(order, s[|s| - 1], t);
      InsertPermutation(order, s[|s| - 1], t);
      Insert(order, s[|s| - 1], t)
  }

  /** The COMPLETED results of an olympiad, in table order. */
  function CompletedOf(results: seq<TestResult>, oid: OlympiadId): (r: seq<TestResult>)
    ensures forall i :: 0 <= i < |r| ==> r[i].status == AttemptCompleted && r[i].olympiadId == oid
    ensures forall x :: x in results && x.status == AttemptCompleted && x.olympiadId == oid ==> x in r
    ensures multiset(r) <= multiset(results)
  {
    if results == [] then []
    else
      var x := results[|results| - 1];
      var init := results[..|results| - 1];
      assert results == init + [x];
      CompletedOf(init, oid) + (if x.status == AttemptCompleted && x.olympiadId == oid then [x] else [])
  }

  /** Every result of an olympiad, whatever its status, in table order. */
  function AllOf(results: seq<TestResult>, oid: OlympiadId): (r: seq<TestResult>)
    ensures forall i :: 0 <= i < |r| ==> r[i].olympiadId == oid && r[i] in results
    ensures forall x :: x in results && x.olympiadId == oid ==> x in r
  {
    if results == [] then []
    else
      var x := results[|results| - 1];
      assert results == results[..|results| - 1] + [x];
      AllOf(results[..|results| - 1], oid) + (if x.olympiadId == oid then [x] else [])
  }

  lemma SortedCompleted(order: Order, results: seq<TestResult>, oid: OlympiadId)
    ensures forall i :: 0 <= i < |SortBy(order, CompletedOf(results, oid))| ==>
      SortBy(order, CompletedOf(results, oid))[i].status == AttemptCompleted
      && SortBy(order, CompletedOf(results, oid))[i].olympiadId == oid
  {
    var c := CompletedOf(results, oid);
    var sorted := SortBy(order, c);
    forall i | 0 <= i < |sorted| ensures sorted[i].status == AttemptCompleted && sorted[i].olympiadId == oid {
      assert sorted[i] in multiset(c);
      var k :| 0 <= k < |c| && c[k] == sorted[i];
    }
  }

  lemma SortedAllOf(results: seq<TestResult>, oid: OlympiadId)
    ensures forall i :: 0 <= i < |SortBy(ScoreTime, AllOf(results, oid))| ==>
      SortBy(ScoreTime, AllOf(results, oid))[i].olympiadId == oid
  {
    var c := AllOf(results, oid);
    var sorted := SortBy(ScoreTime, c);
    forall i | 0 <= i < |sorted| ensures sorted[i].olympiadId == oid {
      assert sorted[i] in multiset(c);
      var k :| 0 <= k < |c| && c[k] == sorted[i];
    }
  }

  /** One entry of `calculate_rankings`. */
  datatype Ranked = Ranked(result: TestResult, position: nat)

  function Number(s: seq<TestResult>, from: nat): (r: seq<Ranked>)
    ensures |r| == |s|
    ensures forall i :: 0 <= i < |s| ==> r[i] == Ranked(s[i], from + i)
  {
    if s == [] then [] else [Ranked(s[0], from)] + Number(s[1..], from + 1)
  }

  /**
   * `RewardService.calculate_rankings`: the COMPLETED results ordered by
   * score descending then time ascending, numbered from 1.
   */
  function CalculateRankings(results: seq<TestResult>, oid: OlympiadId): (r: seq<Ranked>)
    ensures forall i :: 0 <= i < |r| ==> r[i].position == i + 1
    ensures forall i, j :: 0 <= i < j < |r| ==> Le(ScoreTime, r[i].result, r[j].result)
    ensures forall i :: 0 <= i < |r| ==> r[i].result.status == AttemptCompleted && r[i].result.olympiadId == oid
  {
    var sorted := SortBy(ScoreTime, CompletedOf(results, oid));
    SortedCompleted(ScoreTime, results, oid);
    Number(sorted, 1)
  }

  lemma RankingsNumbered(results: seq<TestResult>, oid: OlympiadId)
    ensures CalculateRankings(results, oid) == Number(SortBy(ScoreTime, CompletedOf(results, oid)), 1)
  {
  }

  function Results(r: seq<Ranked>): seq<TestResult>
  {
    if r == [] then [] else [r[0].result] + Results(r[1..])
  }

  lemma {:induction false} ResultsOfNumber(s: seq<TestResult>, from: nat)
    ensures Results(Number(s, from)) == s
  {
    if s != [] {
      ResultsOfNumber(s[1..], from + 1);
      assert Number(s, from)[1..] == Number(s[1..], from + 1);
    }
  }

  /** The ranking holds exactly the olympiad's COMPLETED results, each once. */
  lemma RankingsArePermutation(results: seq<TestResult>, oid: OlympiadId)
    ensures multiset(Results(CalculateRankings(results, oid))) == multiset(CompletedOf(results, oid))
  {
    ResultsOfNumber(SortBy(ScoreTime, CompletedOf(results, oid)), 1);
  }

  /** Positions are distinct and consecutive: the i-th entry has position i + 1. */
  lemma RankingPositionsDistinct(results: seq<TestResult>, oid: OlympiadId, i: nat, j: nat)
    requires i < j < |CalculateRankings(results, oid)|
    ensures CalculateRankings(results, oid)[i].position < CalculateRankings(results, oid)[j].position
  {
  }

  /** The staff `ranking` action: COMPLETED results by score, time and submission, rank i + 1. */
  function StaffRanking(results: seq<TestResult>, oid: OlympiadId): (r: seq<Ranked>)
    ensures forall i :: 0 <= i < |r| ==> r[i].position == i + 1 && r[i].result.status == AttemptCompleted
    ensures forall i :: 0 <= i < |r| ==> r[i].result.olympiadId == oid
    ensures forall i, j :: 0 <= i < j < |r| ==> Le(ScoreTimeSubmitted, r[i].result, r[j].result)
  {
    var sorted := SortBy(ScoreTimeSubmitted, CompletedOf(results, oid));
    SortedCompleted(ScoreTimeSubmitted, results, oid);
    Number(sorted, 1)
  }

  /** The staff ranking holds exactly the olympiad's COMPLETED results, each once. */
  lemma StaffRankingIsPermutation(results: seq<TestResult>, oid: OlympiadId)
    ensures multiset(Results(StaffRanking(results, oid))) == multiset(CompletedOf(results, oid))
  {
    ResultsOfNumber(SortBy(ScoreTimeSubmitted, CompletedOf(results, oid)), 1);
  }

  // ------------------------------------------------------ counted ranks

  /** `x` is strictly ahead of `me` in the leaderboard's own rank count. */
  predicate Better(x: TestResult, me: TestResult)
  {
    x.score > me.score || (x.score == me.score && x.timeTaken < me.timeTaken)
  }

  function CountBetter(s: seq<TestResult>, me: TestResult): (n: nat)
    ensures n <= |s|
  {
    if s == [] then 0 else CountBetter(s[..|s| - 1], me) + (if Better(s[|s| - 1], me) then 1 else 0)
  }

  /** The leaderboard's `my_rank`: one plus the COMPLETED results strictly ahead. */
  function LeaderboardRank(results: seq<TestResult>, oid: OlympiadId, me: TestResult): (rank: nat)
    ensures rank >= 1
  {
    1 + CountBetter(CompletedOf(results, oid), me)
  }

  function CountHigherScore(s: seq<TestResult>, score: int): (n: nat)
    ensures n <= |s|
  {
    if s == [] then 0 else CountHigherScore(s[..|s| - 1], score) + (if s[|s| - 1].score > score then 1 else 0)
  }

  /**
   * The result view's rank: one plus the results of the olympiad with a
   * higher score, whatever their status.
   */
  function ResultRank(results: seq<TestResult>, oid: OlympiadId, me: TestResult): (rank: nat)
    ensures rank >= 1
  {
    1 + CountHigherScore(AllOf(results, oid), me.score)
  }

  lemma {:induction false} HigherScoreIsBetter(s: seq<TestResult>, me: TestResult)
    ensures CountHigherScore(s, me.score) <= CountBetter(s, me)
  {
    if s != [] {
      HigherScoreIsBetter(s[..|s| - 1], me);
    }
  }

  lemma {:induction false} AllCompleted(results: seq<TestResult>, oid: OlympiadId)
    requires forall x :: x in results && x.olympiadId == oid ==> x.status == AttemptCompleted
    ensures AllOf(results, oid) == CompletedOf(results, oid)
  {
    if results != [] {
      assert results == results[..|results| - 1] + [results[|results| - 1]];
      AllCompleted(results[..|results| - 1], oid);
    }
  }

  /**
   * The result view's rank ignores time, so once every attempt of the
   * olympiad is COMPLETED it is never worse than the leaderboard's rank.
   */
  lemma ResultRankAtMostLeaderboardRank(results: seq<TestResult>, oid: OlympiadId, me: TestResult)
    requires forall x :: x in results && x.olympiadId == oid ==> x.status == AttemptCompleted
    ensures ResultRank(results, oid, me) <= LeaderboardRank(results, oid, me)
  {
    AllCompleted(results, oid);
    HigherScoreIsBetter(CompletedOf(results, oid), me);
  }

  lemma {:induction false} CountBetterSplit(a: seq<TestResult>, b: seq<TestResult>, me: TestResult)
    ensures CountBetter(a + b, me) == CountBetter(a, me) + CountBetter(b, me)
    decreases |b|
  {
    if b == [] {
      assert a + b == a;
    } else {
      assert (a + b)[..|a + b| - 1] == a + b[..|b| - 1];
      CountBetterSplit(a, b[..|b| - 1], me);
    }
  }

  lemma {:induction false} CountBetterNone(s: seq<TestResult>, me: TestResult)
    requires forall k :: 0 <= k < |s| ==> !Better(s[k], me)
    ensures CountBetter(s, me) == 0
  {
    if s != [] {
      CountBetterNone(s[..|s| - 1], me);
    }
  }

  lemma {:induction false} CountBetterAll(s: seq<TestResult>, me: TestResult)
    requires forall k :: 0 <= k < |s| ==> Better(s[k], me)
    ensures CountBetter(s, me) == |s|
  {
    if s != [] {
      CountBetterAll(s[..|s| - 1], me);
    }
  }

  lemma CountBetterRemove(t: seq<TestResult>, k: nat, me: TestResult)
    requires k < |t|
    ensures CountBetter(t, me) == CountBetter(t[..k] + t[k + 1..], me) + (if Better(t[k], me) then 1 else 0)
  {
    assert t == t[..k] + ([t[k]] + t[k + 1..]);
    CountBetterSplit(t[..k], [t[k]] + t[k + 1..], me);
    CountBetterSplit([t[k]], t[k + 1..], me);
    CountBetterSplit(t[..k], t[k + 1..], me);
    assert [t[k]][..0] == [];
  }

  lemma MultisetRemove(t: seq<TestResult>, k: nat)
    requires k < |t|
    ensures multiset(t[..k] + t[k + 1..]) == multiset(t) - multiset{t[k]}
  {
    assert t == t[..k] + [t[k]] + t[k + 1..];
  }

  /** Where the last element of `s` sits in its permutation `t`, and what is left on both sides. */
  lemma PickMatch(s: seq<TestResult>, t: seq<TestResult>) returns (k: nat)
    requires s != [] && multiset(s) == multiset(t)
    ensures k < |t| && t[k] == s[|s| - 1]
    ensures multiset(s[..|s| - 1]) == multiset(t[..k] + t[k + 1..])
  {
    var n := |s| - 1;
    assert s[n] in multiset(t);
    k :| 0 <= k < |t| && t[k] == s[n];
    MultisetRemove(t, k);
    MultisetRemove(s, n);
    assert s[..n] + s[n + 1..] == s[..n];
  }

  lemma {:induction false} CountBetterPermutation(s: seq<TestResult>, t: seq<TestResult>, me: TestResult)
    requires multiset(s) == multiset(t)
    ensures CountBetter(s, me) == CountBetter(t, me)
    decreases |s|
  {
    if s != [] {
      var k := PickMatch(s, t);
      CountBetterPermutation(s[..|s| - 1], t[..k] + t[k + 1..], me);
      CountBetterRemove(t, k, me);
    }
  }

  /** No entry from position `i` on is strictly better than entry `i`. */
  lemma SortedTailNotBetter(sorted: seq<TestResult>, i: nat)
    requires Sorted(ScoreTime, sorted) && i < |sorted|
    ensures CountBetter(sorted[i..], sorted[i]) == 0
  {
    var me := sorted[i];
    forall k | 0 <= k < |sorted[i..]| ensures !Better(sorted[i..][k], me) {
      assert sorted[i..][k] == sorted[i + k];
      if k > 0 {
        assert Le(ScoreTime, me, sorted[i + k]);
      }
    }
    CountBetterNone(sorted[i..], me);
  }

  /** In a sorted sequence, only the entries before position `i` can be strictly better than it. */
  lemma SortedCountBetterAtMost(sorted: seq<TestResult>, i: nat)
    requires Sorted(ScoreTime, sorted) && i < |sorted|
    ensures CountBetter(sorted, sorted[i]) <= i
  {
    assert sorted == sorted[..i] + sorted[i..];
    CountBetterSplit(sorted[..i], sorted[i..], sorted[i]);
    SortedTailNotBetter(sorted, i);
  }

  /** No two entries share both score and time. */
  predicate DistinctKeys(s: seq<TestResult>)
  {
    forall a, b :: 0 <= a < b < |s| ==> s[a].score != s[b].score || s[a].timeTaken != s[b].timeTaken
  }

  lemma SortedBefore(sorted: seq<TestResult>, k: nat, i: nat)
    requires Sorted(ScoreTime, sorted) && DistinctKeys(sorted) && k < i < |sorted|
    ensures Better(sorted[k], sorted[i])
  {
    assert Le(ScoreTime, sorted[k], sorted[i]);
    assert sorted[k].score != sorted[i].score || sorted[k].timeTaken != sorted[i].timeTaken;
  }

  /** Without ties, every entry before position `i` is strictly better than entry `i`. */
  lemma SortedHeadBetter(sorted: seq<TestResult>, i: nat)
    requires Sorted(ScoreTime, sorted) && DistinctKeys(sorted) && i < |sorted|
    ensures CountBetter(sorted[..i], sorted[i]) == i
  {
    forall k | 0 <= k < i ensures Better(sorted[..i][k], sorted[i]) {
      assert sorted[..i][k] == sorted[k];
      SortedBefore(sorted, k, i);
    }
    CountBetterAll(sorted[..i], sorted[i]);
  }

  /** With no two entries sharing score and time, exactly the entries before `i` are strictly better. */
  lemma SortedCountBetterExact(sorted: seq<TestResult>, i: nat)
    requires Sorted(ScoreTime, sorted) && DistinctKeys(sorted) && i < |sorted|
    ensures CountBetter(sorted, sorted[i]) == i
  {
    assert sorted == sorted[..i] + sorted[i..];
    CountBetterSplit(sorted[..i], sorted[i..], sorted[i]);
    SortedTailNotBetter(sorted, i);
    SortedHeadBetter(sorted, i);
  }

  /**
   * Against the reward ranking, the counted leaderboard rank never exceeds
   * the entrant's position: every strictly better result is ranked earlier.
   */
  lemma LeaderboardRankAtMostPosition(results: seq<TestResult>, oid: OlympiadId, i: nat)
    requires i < |CalculateRankings(results, oid)|
    ensures LeaderboardRank(results, oid, CalculateRankings(results, oid)[i].result)
      <= CalculateRankings(results, oid)[i].position
  {
    var c := CompletedOf(results, oid);
    var sorted := SortBy(ScoreTime, c);
    RankingsNumbered(results, oid);
    assert CalculateRankings(results, oid)[i].result == sorted[i];
    CountBetterPermutation(c, sorted, sorted[i]);
    SortedCountBetterAtMost(sorted, i);
  }

  /** No two entries of a ranking share both score and time. */
  predicate NoTies(r: seq<Ranked>)
  {
    forall a, b :: 0 <= a < b < |r| ==>
      r[a].result.score != r[b].result.score || r[a].result.timeTaken != r[b].result.timeTaken
  }

  lemma NoTiesSorted(sorted: seq<TestResult>, r: seq<Ranked>)
    requires r == Number(sorted, 1) && NoTies(r)
    ensures DistinctKeys(sorted)
  {
    forall a, b | 0 <= a < b < |sorted|
      ensures sorted[a].score != sorted[b].score || sorted[a].timeTaken != sorted[b].timeTaken
    {
      assert r[a].result == sorted[a] && r[b].result == sorted[b];
    }
  }

  /**
   * When no two ranked results share both score and time, the counted rank
   * and the position agree.
   */
  lemma LeaderboardRankIsPosition(results: seq<TestResult>, oid: OlympiadId, i: nat)
    requires i < |CalculateRankings(results, oid)|
    requires NoTies(CalculateRankings(results, oid))
    ensures LeaderboardRank(results, oid, CalculateRankings(results, oid)[i].result)
      == CalculateRankings(results, oid)[i].position
  {
    var c := CompletedOf(results, oid);
    var sorted := SortBy(ScoreTime, c);
    var r := CalculateRankings(results, oid);
    RankingsNumbered(results, oid);
    assert r[i].result == sorted[i];
    NoTiesSorted(sorted, r);
    CountBetterPermutation(c, sorted, sorted[i]);
    SortedCountBetterExact(sorted, i);
  }

  // -------------------------------------------------------- visibility

  /** Results are open unless a result time is set and not yet reached. */
  predicate ResultsOpen(o: Olympiad, now: int)
  {
    o.resultTime.None? || now >= o.resultTime.value
  }

  function Take<T>(s: seq<T>, n: nat): (r: seq<T>)
    ensures |r| == if |s| < n then |s| else n
    ensures forall i :: 0 <= i < |r| ==> r[i] == s[i]
  {
    if |s| <= n then s else s[..n]
  }

  /**
   * The rows of the `leaderboard` action: staff see every result of the
   * olympiad by score and time; everybody else sees the first hundred
   * COMPLETED results once results are open, and nothing before.
   */
  function LeaderboardRows(isStaff: bool, o: Olympiad, now: int, results: seq<TestResult>, oid: OlympiadId)
    : (rows: seq<TestResult>)
    ensures !isStaff ==> |rows| <= 100
    ensures !isStaff && !ResultsOpen(o, now) ==> rows == []
    ensures !isStaff ==> forall i :: 0 <= i < |rows| ==> rows[i].status == AttemptCompleted
    ensures forall i, j :: 0 <= i < j < |rows| ==> Le(ScoreTime, rows[i], rows[j])
    ensures forall i :: 0 <= i < |rows| ==> rows[i].olympiadId == oid
  {
    if isStaff then
      SortedAllOf(results, oid);
      SortBy(ScoreTime, AllOf(results, oid))
    else if ResultsOpen(o, now) then
      SortedCompleted(ScoreTime, results, oid);
      Take(SortBy(ScoreTime, CompletedOf(results, oid)), 100)
    else []
  }

  /**
   * Visibility does not depend on the olympiad status: an anonymous visitor
   * sees the COMPLETED results of an ONGOING olympiad that has no result time.
   */
  lemma OngoingLeaderboardIsPublic(o: Olympiad, now: int, r: TestResult)
    requires o.status == Ongoing && o.resultTime.None?
    requires r.status == AttemptCompleted
    ensures LeaderboardRows(false, o, now, [r], r.olympiadId) == [r]
  {
    assert [r][..0] == [];
  }

  /** Staff see every result of the olympiad, whatever its status, each once. */
  lemma StaffLeaderboardIsEveryResult(o: Olympiad, now: int, results: seq<TestResult>, oid: OlympiadId)
    ensures multiset(LeaderboardRows(true, o, now, results, oid)) == multiset(AllOf(results, oid))
    ensures forall x :: x in results && x.olympiadId == oid ==> x in LeaderboardRows(true, o, now, results, oid)
  {
    var rows := LeaderboardRows(true, o, now, results, oid);
    forall x | x in results && x.olympiadId == oid
      ensures x in rows
    {
      assert x in multiset(AllOf(results, oid));
    }
  }

  /**
   * Once results are open, anybody else sees the first hundred entries of
   * the reward ranking, or all of them when there are fewer.
   */
  lemma PublicLeaderboardIsTopHundred(o: Olympiad, now: int, results: seq<TestResult>, oid: OlympiadId)
    requires ResultsOpen(o, now)
    ensures var rows := LeaderboardRows(false, o, now, results, oid);
      var ranked := Results(CalculateRankings(results, oid));
      |rows| == (if |ranked| < 100 then |ranked| else 100) && rows == ranked[..|rows|]
  {
    var sorted := SortBy(ScoreTime, CompletedOf(results, oid));
    ResultsOfNumber(sorted, 1);
    RankingsNumbered(results, oid);
  }

  /** With at most a hundred COMPLETED results, the open leaderboard shows each of them once. */
  lemma PublicLeaderboardShowsAllOfFew(o: Olympiad, now: int, results: seq<TestResult>, oid: OlympiadId)
    requires ResultsOpen(o, now) && |CompletedOf(results, oid)| <= 100
    ensures multiset(LeaderboardRows(false, o, now, results, oid)) == multiset(CompletedOf(results, oid))
  {
  }
}
