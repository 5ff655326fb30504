/**
 * Reward distribution for a finished olympiad: which prizes the ranking
 * earns under each strategy, and what a single grant does to the balances,
 * experience and winner records.
 */
module Rewards {
  import opened Text
  import opened Models
  import opened Ranking

  datatype WinnerStatus = WinnerPending | Shipped | Delivered

  /** A WinnerPrize row, unique per (olympiad, student), with its empty PrizeAddress. */
  datatype WinnerPrize = WinnerPrize(position: nat, prizeId: int, status: WinnerStatus, addressFilled: bool)

  /** The tables a grant writes: users, the transaction log and winner records keyed by (olympiad, student). */
  datatype Ledger = Ledger(
    users: map<UserId, UserRow>,
    transactions: seq<Transaction>,
    winners: map<(OlympiadId, UserId), WinnerPrize>)

  /** The `prizes.filter(...)` condition for one ranked entrant. */
  predicate Matches(strategy: RewardStrategy, p: Prize, e: Ranked)
  {
    match strategy
    case TopN => p.targetValue == e.position
    case Threshold => p.targetValue as real <= e.result.percentage
    case OtherStrategy => false
  }

  /** The prizes one entrant earns, in prize id order. */
  function MatchingPrizes(strategy: RewardStrategy, prizes: seq<Prize>, e: Ranked): (r: seq<Prize>)
    ensures forall p :: p in r <==> p in prizes && Matches(strategy, p, e)
    ensures |r| <= |prizes|
  {
    if prizes == [] then []
    else
      var last := prizes[|prizes| - 1];
      assert prizes == prizes[..|prizes| - 1] + [last];
      MatchingPrizes(strategy, prizes[..|prizes| - 1], e) + (if Matches(strategy, last, e) then [last] else [])
  }

  function Pairs(e: Ranked, ps: seq<Prize>): (r: seq<(Ranked, Prize)>)
    ensures |r| == |ps|
    ensures forall i :: 0 <= i < |r| ==> r[i] == (e, ps[i])
  {
    if ps == [] then [] else Pairs(e, ps[..|ps| - 1]) + [(e, ps[|ps| - 1])]
  }

  /** Every (entrant, prize) grant of a run, in the order the nested loops make them. */
  function Awards(strategy: RewardStrategy, prizes: seq<Prize>, ranked: seq<Ranked>): (r: seq<(Ranked, Prize)>)
  {
    if ranked == [] then []
    else
      var e := ranked[|ranked| - 1];
      Awards(strategy, prizes, ranked[..|ranked| - 1]) + Pairs(e, MatchingPrizes(strategy, prizes, e))
  }

  lemma {:induction false} AwardsMembers(strategy: RewardStrategy, prizes: seq<Prize>, ranked: seq<Ranked>, e: Ranked, p: Prize)
    ensures (e, p) in Awards(strategy, prizes, ranked) <==> e in ranked && p in prizes && Matches(strategy, p, e)
  {
    if ranked != [] {
      var last := ranked[|ranked| - 1];
      assert ranked == ranked[..|ranked| - 1] + [last];
      AwardsMembers(strategy, prizes, ranked[..|ranked| - 1], e, p);
      var ps := MatchingPrizes(strategy, prizes, last);
      if (e, p) in Pairs(last, ps) {
        var i :| 0 <= i < |ps| && Pairs(last, ps)[i] == (e, p);
      }
      if e == last && p in prizes && Matches(strategy, p, e) {
        var i :| 0 <= i < |ps| && ps[i] == p;
        assert Pairs(last, ps)[i] == (e, p);
      }
    }
  }

  /**
   * Under TOP_N a prize goes exactly to the entrant whose position equals its
   * target value; positions are distinct, so to at most one entrant.
   */
  lemma TopNAwards(results: seq<TestResult>, oid: OlympiadId, prizes: seq<Prize>, e: Ranked, p: Prize)
    ensures (e, p) in Awards(TopN, prizes, CalculateRankings(results, oid))
      <==> e in CalculateRankings(results, oid) && p in prizes && e.position == p.targetValue
  {
    AwardsMembers(TopN, prizes, CalculateRankings(results, oid), e, p);
  }

  lemma TopNAtMostOneWinner(results: seq<TestResult>, oid: OlympiadId, prizes: seq<Prize>, e1: Ranked, e2: Ranked, p: Prize)
    requires (e1, p) in Awards(TopN, prizes, CalculateRankings(results, oid))
    requires (e2, p) in Awards(TopN, prizes, CalculateRankings(results, oid))
    ensures e1 == e2
  {
    var r := CalculateRankings(results, oid);
    AwardsMembers(TopN, prizes, r, e1, p);
    AwardsMembers(TopN, prizes, r, e2, p);
    var i :| 0 <= i < |r| && r[i] == e1;
    var j :| 0 <= j < |r| && r[j] == e2;
    assert r[i].position == i + 1 && r[j].position == j + 1;
  }

  /**
   * Under THRESHOLD an entrant earns every prize whose target value is at most
   * its percentage, so one entrant may collect several tiers.
   */
  lemma ThresholdAwards(results: seq<TestResult>, oid: OlympiadId, prizes: seq<Prize>, e: Ranked, p: Prize)
    ensures (e, p) in Awards(Threshold, prizes, CalculateRankings(results, oid))
      <==> e in CalculateRankings(results, oid) && p in prizes && p.targetValue as real <= e.result.percentage
  {
    AwardsMembers(Threshold, prizes, CalculateRankings(results, oid), e, p);
  }

  lemma {:induction false} NothingMatchesOther(prizes: seq<Prize>, e: Ranked)
    ensures MatchingPrizes(OtherStrategy, prizes, e) == []
  {
    if prizes != [] {
      NothingMatchesOther(prizes[..|prizes| - 1], e);
    }
  }

  /** Any other strategy value grants nothing. */
  lemma {:induction false} OtherStrategyAwardsNothing(prizes: seq<Prize>, ranked: seq<Ranked>)
    ensures Awards(OtherStrategy, prizes, ranked) == []
  {
    if ranked != [] {
      OtherStrategyAwardsNothing(prizes, ranked[..|ranked| - 1]);
      NothingMatchesOther(prizes, ranked[|ranked| - 1]);
    }
  }

  // --------------------------------------------------------------- grants

  /**
   * `RewardService.award_prize`: a COIN prize credits the amount and logs an
   * OLYMPIAD_REWARD transaction; an XP prize adds the truncated amount to xp
   * and leaves the level alone; a PHYSICAL prize creates the winner record
   * unless the student already has one for this olympiad; any other type
   * does nothing.
   */
  function AwardPrize(l: Ledger, uid: UserId, p: Prize, oid: OlympiadId, position: nat, now: int): (r: Ledger)
    requires uid in l.users
    ensures r.users.Keys == l.users.Keys
    ensures forall v :: v in l.users ==> r.users[v].id == l.users[v].id
    ensures p.prizeType == Coin ==>
      r == l.(users := l.users[uid := l.users[uid].(balance := l.users[uid].balance + p.amount)],
               transactions := l.transactions + [Transaction(uid, OlympiadReward, p.amount, TxSuccess, now)])
    ensures p.prizeType == Xp ==>
      r == l.(users := l.users[uid := l.users[uid].(xp := l.users[uid].xp + Trunc(p.amount))])
    ensures p.prizeType == Physical && (oid, uid) in l.winners ==> r == l
    ensures p.prizeType == Physical && (oid, uid) !in l.winners ==>
      r == l.(winners := l.winners[(oid, uid) := WinnerPrize(position, p.id, WinnerPending, false)])
    ensures p.prizeType == OtherPrize ==> r == l
  {
    var u := l.users[uid];
    match p.prizeType
    case Coin =>
      l.(users := l.users[uid := u.(balance := u.balance + p.amount)],
         transactions := l.transactions + [Transaction(uid, OlympiadReward, p.amount, TxSuccess, now)])
    case Xp => l.(users := l.users[uid := u.(xp := u.xp + Trunc(p.amount))])
    case Physical =>
      if (oid, uid) in l.winners then l
      else l.(winners := l.winners[(oid, uid) := WinnerPrize(position, p.id, WinnerPending, false)])
    case OtherPrize => l
  }

  predicate UsersPresent(l: Ledger, awards: seq<(Ranked, Prize)>)
  {
    forall i :: 0 <= i < |awards| ==> awards[i].0.result.userId in l.users
  }

  /** The grants of a run applied in order. */
  function GrantAll(l: Ledger, oid: OlympiadId, awards: seq<(Ranked, Prize)>, now: int): (r: Ledger)
    requires UsersPresent(l, awards)
    ensures r.users.Keys == l.users.Keys
    ensures forall v :: v in l.users ==> r.users[v].id == l.users[v].id
    decreases |awards|
  {
    if awards == [] then l
    else
      var init := awards[..|awards| - 1];
      var a := awards[|awards| - 1];
      var m := GrantAll(l, oid, init, now);
      AwardPrize(m, a.0.result.userId, a.1, oid, a.0.position, now)
  }

  /** Coin credits one user collects from a list of grants. */
  function CoinsFor(awards: seq<(Ranked, Prize)>, uid: UserId): real
  {
    if awards == [] then 0.0
    else
      var a := awards[|awards| - 1];
      CoinsFor(awards[..|awards| - 1], uid) + (if a.0.result.userId == uid && a.1.prizeType == Coin then a.1.amount else 0.0)
  }

  /** Experience one user collects from a list of grants. */
  function XpFor(awards: seq<(Ranked, Prize)>, uid: UserId): int
  {
    if awards == [] then 0
    else
      var a := awards[|awards| - 1];
      XpFor(awards[..|awards| - 1], uid) + (if a.0.result.userId == uid && a.1.prizeType == Xp then Trunc(a.1.amount) else 0)
  }

  /**
   * After a run every user's balance grew by exactly its coin prizes and its
   * xp by exactly its XP prizes, while its level and every other column stay put.
   */
  lemma {:induction false} GrantAllTotals(l: Ledger, oid: OlympiadId, awards: seq<(Ranked, Prize)>, now: int, uid: UserId)
    requires UsersPresent(l, awards) && uid in l.users
    ensures GrantAll(l, oid, awards, now).users[uid].balance == l.users[uid].balance + CoinsFor(awards, uid)
    ensures GrantAll(l, oid, awards, now).users[uid].xp == l.users[uid].xp + XpFor(awards, uid)
    ensures GrantAll(l, oid, awards, now).users[uid].(balance := l.users[uid].balance, xp := l.users[uid].xp) == l.users[uid]
    decreases |awards|
  {
    if awards != [] {
      var init := awards[..|awards| - 1];
      assert UsersPresent(l, init);
      GrantAllTotals(l, oid, init, now, uid);
    }
  }

  /** One transaction per coin grant, appended in order; nothing else is logged. */
  function CoinTransactions(awards: seq<(Ranked, Prize)>, now: int): seq<Transaction>
  {
    if awards == [] then []
    else
      var a := awards[|awards| - 1];
      CoinTransactions(awards[..|awards| - 1], now)
        + (if a.1.prizeType == Coin then [Transaction(a.0.result.userId, OlympiadReward, a.1.amount, TxSuccess, now)] else [])
  }

  lemma {:induction false} GrantAllTransactions(l: Ledger, oid: OlympiadId, awards: seq<(Ranked, Prize)>, now: int)
    requires UsersPresent(l, awards)
    ensures GrantAll(l, oid, awards, now).transactions == l.transactions + CoinTransactions(awards, now)
    decreases |awards|
  {
    if awards != [] {
      var init := awards[..|awards| - 1];
      assert UsersPresent(l, init);
      GrantAllTransactions(l, oid, init, now);
    }
  }

  /**
   * Winner records are never overwritten: an existing (olympiad, student)
   * record survives a run unchanged, so each pair holds at most one physical
   * award and the first one wins.
   */
  lemma {:induction false} GrantAllKeepsWinners(l: Ledger, oid: OlympiadId, awards: seq<(Ranked, Prize)>, now: int, k: (OlympiadId, UserId))
    requires UsersPresent(l, awards) && k in l.winners
    ensures k in GrantAll(l, oid, awards, now).winners
    ensures GrantAll(l, oid, awards, now).winners[k] == l.winners[k]
    decreases |awards|
  {
    if awards != [] {
      var init := awards[..|awards| - 1];
      assert UsersPresent(l, init);
      GrantAllKeepsWinners(l, oid, init, now, k);
    }
  }

  /** A run creates winner records only for this olympiad, and only for students with a physical grant. */
  lemma {:induction false} GrantAllNewWinners(l: Ledger, oid: OlympiadId, awards: seq<(Ranked, Prize)>, now: int, k: (OlympiadId, UserId))
    requires UsersPresent(l, awards) && k !in l.winners && k in GrantAll(l, oid, awards, now).winners
    ensures k.0 == oid
    ensures exists i :: 0 <= i < |awards| && awards[i].0.result.userId == k.1 && awards[i].1.prizeType == Physical
    decreases |awards|
  {
    var init := awards[..|awards| - 1];
    assert UsersPresent(l, init);
    var a := awards[|awards| - 1];
    if k in GrantAll(l, oid, init, now).winners {
      GrantAllNewWinners(l, oid, init, now, k);
      var i :| 0 <= i < |init| && init[i].0.result.userId == k.1 && init[i].1.prizeType == Physical;
      assert awards[i] == init[i];
    } else {
      assert awards[|awards| - 1] == a;
    }
  }

  // ------------------------------------------------- loop bookkeeping

  lemma MatchingStep(strategy: RewardStrategy, prizes: seq<Prize>, j: nat, e: Ranked)
    requires j < |prizes|
    ensures MatchingPrizes(strategy, prizes[..j + 1], e)
      == MatchingPrizes(strategy, prizes[..j], e) + (if Matches(strategy, prizes[j], e) then [prizes[j]] else [])
  {
    assert prizes[..j + 1][..j] == prizes[..j];
  }

  lemma MatchingCountStep(strategy: RewardStrategy, prizes: seq<Prize>, j: nat, e: Ranked)
    requires j < |prizes|
    ensures |MatchingPrizes(strategy, prizes[..j + 1], e)|
      == |MatchingPrizes(strategy, prizes[..j], e)| + (if Matches(strategy, prizes[j], e) then 1 else 0)
  {
    MatchingStep(strategy, prizes, j, e);
  }

  lemma PairsSnoc(e: Ranked, ps: seq<Prize>, p: Prize)
    ensures Pairs(e, ps + [p]) == Pairs(e, ps) + [(e, p)]
  {
    assert (ps + [p])[..|ps|] == ps;
  }

  lemma AwardsStep(strategy: RewardStrategy, prizes: seq<Prize>, ranked: seq<Ranked>, i: nat)
    requires i < |ranked|
    ensures Awards(strategy, prizes, ranked[..i + 1])
      == Awards(strategy, prizes, ranked[..i]) + Pairs(ranked[i], MatchingPrizes(strategy, prizes, ranked[i]))
  {
    assert ranked[..i + 1][..i] == ranked[..i];
  }

  lemma GrantAllSnoc(l: Ledger, oid: OlympiadId, awards: seq<(Ranked, Prize)>, a: (Ranked, Prize), now: int)
    requires UsersPresent(l, awards + [a])
    ensures UsersPresent(l, awards)
    ensures GrantAll(l, oid, awards + [a], now).users.Keys == l.users.Keys
    ensures GrantAll(l, oid, awards + [a], now)
      == AwardPrize(GrantAll(l, oid, awards, now), a.0.result.userId, a.1, oid, a.0.position, now)
  {
    assert (awards + [a])[..|awards|] == awards;
    assert forall i :: 0 <= i < |awards| ==> awards[i] == (awards + [a])[i];
  }

  lemma PrefixAppend<T>(x: seq<T>, a: seq<T>, b: seq<T>)
    requires x <= a
    ensures x <= a + b
  {
    assert (a + b)[..|x|] == a[..|x|];
  }

  /** The matching prizes of a non-empty list: those of all but its last prize, then the last one if it matches. */
  lemma MatchingLast(strategy: RewardStrategy, prizes: seq<Prize>, e: Ranked) returns (b: seq<Prize>)
    requires prizes != []
    ensures b == if Matches(strategy, prizes[|prizes| - 1], e) then [prizes[|prizes| - 1]] else []
    ensures MatchingPrizes(strategy, prizes, e) == MatchingPrizes(strategy, prizes[..|prizes| - 1], e) + b
  {
    b := if Matches(strategy, prizes[|prizes| - 1], e) then [prizes[|prizes| - 1]] else [];
  }

  lemma {:induction false} MatchingPrefix(strategy: RewardStrategy, prizes: seq<Prize>, j: nat, e: Ranked)
    requires j <= |prizes|
    ensures MatchingPrizes(strategy, prizes[..j], e) <= MatchingPrizes(strategy, prizes, e)
    decreases |prizes| - j
  {
    if j < |prizes| {
      var n := |prizes|;
      var init := prizes[..n - 1];
      MatchingPrefix(strategy, init, j, e);
      assert init[..j] == prizes[..j];
      var b := MatchingLast(strategy, prizes, e);
      PrefixAppend(MatchingPrizes(strategy, prizes[..j], e), MatchingPrizes(strategy, init, e), b);
    } else {
      assert prizes[..j] == prizes;
    }
  }

  lemma AwardsDropLast(strategy: RewardStrategy, prizes: seq<Prize>, ranked: seq<Ranked>)
    requires ranked != []
    ensures Awards(strategy, prizes, ranked[..|ranked| - 1]) <= Awards(strategy, prizes, ranked)
  {
    var a := Awards(strategy, prizes, ranked[..|ranked| - 1]);
    var e := ranked[|ranked| - 1];
    PrefixAppend(a, a, Pairs(e, MatchingPrizes(strategy, prizes, e)));
  }

  lemma PrefixTrans<T>(a: seq<T>, b: seq<T>, c: seq<T>)
    requires a <= b && b <= c
    ensures a <= c
  {
    assert c[..|a|] == c[..|b|][..|a|];
  }

  lemma {:induction false} AwardsPrefix(strategy: RewardStrategy, prizes: seq<Prize>, ranked: seq<Ranked>, i: nat)
    requires i <= |ranked|
    ensures Awards(strategy, prizes, ranked[..i]) <= Awards(strategy, prizes, ranked)
    decreases |ranked| - i
  {
    if i < |ranked| {
      var init := ranked[..|ranked| - 1];
      AwardsPrefix(strategy, prizes, init, i);
      assert init[..i] == ranked[..i];
      AwardsDropLast(strategy, prizes, ranked);
      PrefixTrans(Awards(strategy, prizes, ranked[..i]), Awards(strategy, prizes, init), Awards(strategy, prizes, ranked));
    } else {
      assert ranked[..i] == ranked;
    }
  }

  /**
   * The grants made while the inner loop is at prize `j` of entrant `i` are
   * the first grants of the whole run.
   */
  lemma ProgressIsPrefix(strategy: RewardStrategy, prizes: seq<Prize>, ranked: seq<Ranked>, i: nat, j: nat)
    requires i < |ranked| && j <= |prizes|
    ensures Awards(strategy, prizes, ranked[..i]) + Pairs(ranked[i], MatchingPrizes(strategy, prizes[..j], ranked[i]))
      <= Awards(strategy, prizes, ranked)
  {
    var e := ranked[i];
    var m := MatchingPrizes(strategy, prizes[..j], e);
    var full := MatchingPrizes(strategy, prizes, e);
    MatchingPrefix(strategy, prizes, j, e);
    assert Pairs(e, m) <= Pairs(e, full);
    AwardsStep(strategy, prizes, ranked, i);
    AwardsPrefix(strategy, prizes, ranked, i + 1);
  }

  lemma {:induction false} NoPrizesNoAwards(strategy: RewardStrategy, ranked: seq<Ranked>)
    ensures Awards(strategy, [], ranked) == []
  {
    if ranked != [] {
      NoPrizesNoAwards(strategy, ranked[..|ranked| - 1]);
    }
  }

  lemma UsersPresentTake(l: Ledger, awards: seq<(Ranked, Prize)>, n: nat)
    requires n <= |awards| && UsersPresent(l, awards)
    ensures UsersPresent(l, awards[..n])
  {
    assert forall i :: 0 <= i < n ==> awards[..n][i] == awards[i];
  }

  /** The first `n` grants of a run, applied in order. */
  ghost function GrantFirst(l: Ledger, oid: OlympiadId, awards: seq<(Ranked, Prize)>, n: nat, now: int): (r: Ledger)
    requires n <= |awards| && UsersPresent(l, awards)
    ensures r.users.Keys == l.users.Keys
  {
    UsersPresentTake(l, awards, n);
    GrantAll(l, oid, awards[..n], now)
  }

  lemma GrantFirstNone(l: Ledger, oid: OlympiadId, awards: seq<(Ranked, Prize)>, now: int)
    requires UsersPresent(l, awards)
    ensures GrantFirst(l, oid, awards, 0, now) == l
  {
    assert awards[..0] == [];
  }

  /** One more grant is the next award applied to the grants so far. */
  lemma GrantFirstStep(l: Ledger, oid: OlympiadId, awards: seq<(Ranked, Prize)>, n: nat, now: int)
    requires n < |awards| && UsersPresent(l, awards)
    ensures awards[n].0.result.userId in GrantFirst(l, oid, awards, n, now).users
    ensures GrantFirst(l, oid, awards, n + 1, now)
      == AwardPrize(GrantFirst(l, oid, awards, n, now), awards[n].0.result.userId, awards[n].1, oid, awards[n].0.position, now)
  {
    assert awards[..n + 1] == awards[..n] + [awards[n]];
    UsersPresentTake(l, awards, n + 1);
    GrantAllSnoc(l, oid, awards[..n], awards[n], now);
  }

  lemma GrantFirstAll(l: Ledger, oid: OlympiadId, awards: seq<(Ranked, Prize)>, now: int)
    requires UsersPresent(l, awards)
    ensures GrantFirst(l, oid, awards, |awards|, now) == GrantAll(l, oid, awards, now)
  {
    assert awards[..|awards|] == awards;
  }

  /** How many of the first `j` prizes entrant `e` matches. */
  ghost function MatchCount(strategy: RewardStrategy, prizes: seq<Prize>, e: Ranked, j: nat): nat
    requires j <= |prizes|
  {
    if j == 0 then 0
    else MatchCount(strategy, prizes, e, j - 1) + (if Matches(strategy, prizes[j - 1], e) then 1 else 0)
  }

  lemma {:induction false} MatchCountIsLength(strategy: RewardStrategy, prizes: seq<Prize>, e: Ranked, j: nat)
    requires j <= |prizes|
    ensures MatchCount(strategy, prizes, e, j) == |MatchingPrizes(strategy, prizes[..j], e)|
  {
    if j == 0 {
      assert prizes[..0] == [];
      assert MatchingPrizes(strategy, prizes[..0], e) == [];
    } else {
      MatchCountIsLength(strategy, prizes, e, j - 1);
      MatchingCountStep(strategy, prizes, j - 1, e);
      assert MatchCount(strategy, prizes, e, j)
        == MatchCount(strategy, prizes, e, j - 1) + (if Matches(strategy, prizes[j - 1], e) then 1 else 0);
    }
  }

  lemma GrantPrefix(strategy: RewardStrategy, prizes: seq<Prize>, ranked: seq<Ranked>, i: nat, j: nat)
    requires i < |ranked| && j < |prizes| && Matches(strategy, prizes[j], ranked[i])
    ensures Awards(strategy, prizes, ranked[..i]) + Pairs(ranked[i], MatchingPrizes(strategy, prizes[..j], ranked[i]) + [prizes[j]])
      <= Awards(strategy, prizes, ranked)
  {
    MatchingStep(strategy, prizes, j, ranked[i]);
    ProgressIsPrefix(strategy, prizes, ranked, i, j + 1);
  }

  lemma PairsLast(done: seq<(Ranked, Prize)>, e: Ranked, m: seq<Prize>, p: Prize)
    ensures |done| + |m| < |done + Pairs(e, m + [p])|
    ensures (done + Pairs(e, m + [p]))[|done| + |m|] == (e, p)
  {
  }

  lemma PrefixIndex<T>(x: seq<T>, y: seq<T>, k: nat)
    requires x <= y && k < |x|
    ensures k < |y| && y[k] == x[k]
  {
  }

  /**
   * When entrant `i` matches prize `j`, the grant the nested loops make next
   * is the run's award number |grants for earlier entrants| + |earlier matching prizes|.
   */
  lemma NextGrant(strategy: RewardStrategy, prizes: seq<Prize>, ranked: seq<Ranked>, i: nat, j: nat)
    requires i < |ranked| && j < |prizes| && Matches(strategy, prizes[j], ranked[i])
    ensures Slot(strategy, prizes, ranked[i], |Awards(strategy, prizes, ranked[..i])|, j) < |Awards(strategy, prizes, ranked)|
    ensures Awards(strategy, prizes, ranked)[Slot(strategy, prizes, ranked[i], |Awards(strategy, prizes, ranked[..i])|, j)]
      == (ranked[i], prizes[j])
  {
    var e := ranked[i];
    var done := Awards(strategy, prizes, ranked[..i]);
    var m := MatchingPrizes(strategy, prizes[..j], e);
    MatchCountIsLength(strategy, prizes, e, j);
    GrantPrefix(strategy, prizes, ranked, i, j);
    PairsLast(done, e, m, prizes[j]);
    PrefixIndex(done + Pairs(e, m + [prizes[j]]), Awards(strategy, prizes, ranked), |done| + |m|);
    assert Slot(strategy, prizes, e, |done|, j) == |done| + |m|;
  }

  /**
   * `awards` holds, from index `base` on, the grants for entrant `e`: the prize
   * `j` it matches sits at `base` plus the number of earlier prizes it matches.
   */
  ghost predicate SlotsFor(strategy: RewardStrategy, prizes: seq<Prize>, e: Ranked, awards: seq<(Ranked, Prize)>, base: nat)
  {
    forall j {:trigger Slot(strategy, prizes, e, base, j)} :: 0 <= j < |prizes| && Matches(strategy, prizes[j], e) ==>
      Slot(strategy, prizes, e, base, j) < |awards| && awards[Slot(strategy, prizes, e, base, j)] == (e, prizes[j])
  }

  /** The index of the grant of prize `j` to the entrant whose grants start at `base`. */
  ghost function Slot(strategy: RewardStrategy, prizes: seq<Prize>, e: Ranked, base: nat, j: nat): nat
    requires j <= |prizes|
  {
    base + MatchCount(strategy, prizes, e, j)
  }

  lemma SlotAt(strategy: RewardStrategy, prizes: seq<Prize>, e: Ranked, awards: seq<(Ranked, Prize)>, base: nat, j: nat)
    requires SlotsFor(strategy, prizes, e, awards, base) && j < |prizes| && Matches(strategy, prizes[j], e)
    ensures base + MatchCount(strategy, prizes, e, j) < |awards|
    ensures awards[base + MatchCount(strategy, prizes, e, j)] == (e, prizes[j])
  {
    assert Slot(strategy, prizes, e, base, j) == base + MatchCount(strategy, prizes, e, j);
  }

  lemma EntrantSlots(strategy: RewardStrategy, prizes: seq<Prize>, ranked: seq<Ranked>, i: nat)
    requires i < |ranked|
    ensures SlotsFor(strategy, prizes, ranked[i], Awards(strategy, prizes, ranked), |Awards(strategy, prizes, ranked[..i])|)
  {
    var awards := Awards(strategy, prizes, ranked);
    var base := |Awards(strategy, prizes, ranked[..i])|;
    forall j | 0 <= j < |prizes| && Matches(strategy, prizes[j], ranked[i])
      ensures Slot(strategy, prizes, ranked[i], base, j) < |awards|
      ensures awards[Slot(strategy, prizes, ranked[i], base, j)] == (ranked[i], prizes[j])
    {
      NextGrant(strategy, prizes, ranked, i, j);
    }
  }

  /** After entrant `i`, the run has made its earlier grants plus one per prize the entrant matches. */
  lemma CountEntrant(strategy: RewardStrategy, prizes: seq<Prize>, ranked: seq<Ranked>, i: nat)
    requires i < |ranked|
    ensures |Awards(strategy, prizes, ranked[..i + 1])|
      == |Awards(strategy, prizes, ranked[..i])| + MatchCount(strategy, prizes, ranked[i], |prizes|)
  {
    AwardsStep(strategy, prizes, ranked, i);
    MatchCountIsLength(strategy, prizes, ranked[i], |prizes|);
    assert prizes[..|prizes|] == prizes;
  }

  // --------------------------------------------------------- distribution

  /** What `distribute_rewards` leaves behind: the olympiad's distribution status, the ledger and the return value. */
  datatype Distribution = Distribution(status: DistributionStatus, ledger: Ledger, ok: bool)

  function Min(a: nat, b: nat): nat { if a <= b then a else b }

  /**
   * `RewardService.distribute_rewards` for an existing olympiad.  A run on a
   * COMPLETED distribution refuses.  Otherwise, with no prizes it completes at
   * once; else it grants every award of the strategy in order.  `failAt`
   * stands for an exception raised by the grant with that index: the grants
   * before it stay committed (the exception is caught inside the atomic
   * block), the status becomes FAILED and the result is false.
   */
  function Distribute(o: Olympiad, oid: OlympiadId, l: Ledger, ranked: seq<Ranked>, failAt: Option<nat>, now: int)
    : (d: Distribution)
    requires UsersPresent(l, Awards(o.rewardStrategy, o.prizes, ranked))
    ensures o.rewardDistributionStatus == DistCompleted ==> d == Distribution(DistCompleted, l, false)
    ensures o.rewardDistributionStatus != DistCompleted ==> (d.ok <==> d.status == DistCompleted)
    ensures o.rewardDistributionStatus != DistCompleted && o.prizes == [] ==> d == Distribution(DistCompleted, l, true)
    ensures d.status != DistInProgress
    ensures d.ledger.users.Keys == l.users.Keys
    ensures forall v :: v in l.users ==> d.ledger.users[v].id == l.users[v].id
  {
    var awards := Awards(o.rewardStrategy, o.prizes, ranked);
    if o.rewardDistributionStatus == DistCompleted then Distribution(DistCompleted, l, false)
    else if o.prizes == [] then Distribution(DistCompleted, l, true)
    else if failAt.Some? && failAt.value < |awards| then
      assert UsersPresent(l, awards[..failAt.value]);
      Distribution(DistFailed, GrantAll(l, oid, awards[..failAt.value], now), false)
    else Distribution(DistCompleted, GrantAll(l, oid, awards, now), true)
  }

  /**
   * The guard only refuses COMPLETED: a run after a FAILED one grants again
   * the coins the failed run already credited.
   */
  lemma RerunAfterFailureRegrantsCoins(o: Olympiad, oid: OlympiadId, l: Ledger, ranked: seq<Ranked>, now: int)
    requires o.rewardDistributionStatus == DistNone && o.prizes != []
    requires UsersPresent(l, Awards(o.rewardStrategy, o.prizes, ranked))
    requires |Awards(o.rewardStrategy, o.prizes, ranked)| >= 2
    requires Awards(o.rewardStrategy, o.prizes, ranked)[0].1.prizeType == Coin
    ensures var first := Distribute(o, oid, l, ranked, Some(1), now);
      first.status == DistFailed
      && UsersPresent(first.ledger, Awards(o.rewardStrategy, o.prizes, ranked))
      && var second := Distribute(o.(rewardDistributionStatus := DistFailed), oid, first.ledger, ranked, None, now);
      var uid := Awards(o.rewardStrategy, o.prizes, ranked)[0].0.result.userId;
      second.ledger.users[uid].balance
        == l.users[uid].balance + Awards(o.rewardStrategy, o.prizes, ranked)[0].1.amount
           + CoinsFor(Awards(o.rewardStrategy, o.prizes, ranked), uid)
  {
    var awards := Awards(o.rewardStrategy, o.prizes, ranked);
    var uid := awards[0].0.result.userId;
    var first := Distribute(o, oid, l, ranked, Some(1), now);
    FirstCoinGrant(l, oid, awards, now);
    assert first.ledger == GrantAll(l, oid, awards[..1], now);
    GrantAllTotals(first.ledger, oid, awards, now, uid);
  }

  lemma FirstCoinGrant(l: Ledger, oid: OlympiadId, awards: seq<(Ranked, Prize)>, now: int)
    requires UsersPresent(l, awards) && |awards| >= 1 && awards[0].1.prizeType == Coin
    ensures UsersPresent(l, awards[..1])
    ensures GrantAll(l, oid, awards[..1], now).users.Keys == l.users.Keys
    ensures GrantAll(l, oid, awards[..1], now).users[awards[0].0.result.userId].balance
      == l.users[awards[0].0.result.userId].balance + awards[0].1.amount
  {
    var uid := awards[0].0.result.userId;
    assert UsersPresent(l, awards[..1]);
    GrantAllTotals(l, oid, awards[..1], now, uid);
    assert awards[..1][..0] == [];
    assert CoinsFor(awards[..1], uid) == awards[0].1.amount;
  }
}
