/**
 * Teacher wallets: sale earnings held as pending balance, released to the
 * available balance after the holding period, and withdrawn through payout
 * requests.  Two payout flows exist side by side: the payout view debits
 * the balance when the request is made, while the wallet service debits it
 * when the request is approved.  Money is exact (`real`); Decimal columns
 * and the float settings both become exact rationals.
 */
module Wallet {
  import opened Text
  import opened Models

  // ---------------------------------------------------------- commission

  /** `PLATFORM_COMMISSION_RATE` and `TEACHER_COMMISSION_RATE`, as exact fractions. */
  const AdminRate: real := 3.0 / 10.0
  const TeacherRate: real := 7.0 / 10.0

  /**
   * `calculate_commission` with exact rates: the platform keeps 30% and the
   * teacher 70%, so the two shares always add up to the amount.
   */
  function CalculateCommission(amount: real): (r: (real, real))
    ensures r.0 + r.1 == amount
    ensures 3.0 * r.1 == 7.0 * r.0
    ensures amount >= 0.0 ==> 0.0 <= r.0 <= r.1 <= amount
  {
    (amount * AdminRate, amount * TeacherRate)
  }

  /** A number as Python holds it: a Decimal or a float. */
  datatype Number = Dec(d: real) | Float(f: real)

  datatype CommissionOutcome = Shares(admin: real, teacher: real) | TypeError

  /**
   * `calculate_commission` as written: the amount is a Decimal and the rates
   * come from the settings; multiplying a Decimal by a float raises.
   */
  function CommissionAsWritten(amount: real, adminRate: Number, teacherRate: Number): (r: CommissionOutcome)
    ensures r.Shares? <==> adminRate.Dec? && teacherRate.Dec?
    ensures r.Shares? ==> r.admin + r.teacher == amount * (adminRate.d + teacherRate.d)
  {
    match (adminRate, teacherRate)
    case (Dec(a), Dec(t)) => Shares(amount * a, amount * t)
    case _ => TypeError
  }

  /**
   * The settings define both rates as floats, so every call fails; with the
   * Decimal defaults the split agrees with `CalculateCommission`.
   */
  lemma CommissionWithSettingsRaises(amount: real)
    ensures CommissionAsWritten(amount, Float(0.3), Float(0.7)) == TypeError
    ensures CommissionAsWritten(amount, Dec(0.3), Dec(0.7)) == Shares(CalculateCommission(amount).0, CalculateCommission(amount).1)
  {
  }

  // ---------------------------------------------------------- rows

  /** A `TeacherWallet` row; a new wallet has every column at zero. */
  datatype TeacherWallet = TeacherWallet(balance: real, pending: real, earned: real, withdrawn: real)

  const EmptyWallet := TeacherWallet(0.0, 0.0, 0.0, 0.0)

  datatype PayoutStatus = Requested | PayoutApproved | Paid | PayoutRejected

  /** A `Payout` row; its id is its index in the table. */
  datatype Payout = Payout(teacher: UserId, amount: real, status: PayoutStatus, payMethod: string,
                           approvedBy: Option<UserId>, approvedAt: Option<int>, paidAt: Option<int>,
                           rejectionReason: string)

  datatype WalletError = NotTeacher | InsufficientBalance | BelowMinimum | PayoutNotFound
                       | AlreadyReviewed | PayoutNotApproved | NoWallet

  /** The smallest amount a teacher may ask to withdraw. */
  const MinPayout: real := 100000.0

  /** The holding period of sale earnings, in seconds. */
  const PendingSeconds := 7 * 86400

  /** The money of a wallet the teacher still has or has been paid. */
  function Total(w: TeacherWallet): real
  {
    w.balance + w.pending + w.withdrawn
  }

  /** How much of payout `p` is still on its way to teacher `u`. */
  function Held(p: Payout, u: UserId): (r: real)
    ensures r != 0.0 ==> p.teacher == u && (p.status == Requested || p.status == PayoutApproved)
  {
    if p.teacher == u && (p.status == Requested || p.status == PayoutApproved) then p.amount else 0.0
  }

  /** The total of teacher `u`'s payouts that are requested or approved but not paid. */
  function Open(ps: seq<Payout>, u: UserId): real
    decreases |ps|
  {
    if ps == [] then 0.0 else Open(ps[..|ps| - 1], u) + Held(ps[|ps| - 1], u)
  }

  lemma OpenAppend(ps: seq<Payout>, p: Payout, u: UserId)
    ensures Open(ps + [p], u) == Open(ps, u) + Held(p, u)
  {
    assert (ps + [p])[..|ps|] == ps;
  }

  lemma {:induction false} OpenUpdate(ps: seq<Payout>, i: nat, p: Payout, u: UserId)
    requires i < |ps|
    ensures Open(ps[i := p], u) == Open(ps, u) - Held(ps[i], u) + Held(p, u)
    decreases |ps|
  {
    var n := |ps| - 1;
    if i == n {
      assert ps[i := p][..n] == ps[..n];
    } else {
      assert ps[i := p][..n] == ps[..n][i := p];
      OpenUpdate(ps[..n], i, p, u);
    }
  }

  lemma {:induction false} OpenNone(ps: seq<Payout>, u: UserId)
    requires forall i :: 0 <= i < |ps| ==> ps[i].teacher != u
    ensures Open(ps, u) == 0.0
    decreases |ps|
  {
    if ps != [] {
      OpenNone(ps[..|ps| - 1], u);
    }
  }

  // ---------------------------------------------------------- release

  /** A sale the cron job picks up: a successful course sale made no later than the cutoff. */
  predicate Eligible(t: Transaction, cutoff: int)
  {
    t.txType == CourseSale && t.status == TxSuccess && t.createdAt <= cutoff
  }

  /** Sale `t` moves when it is picked up and wallet copy `w` of its teacher holds enough pending balance. */
  predicate Moves(w: map<UserId, TeacherWallet>, t: Transaction, cutoff: int)
  {
    Eligible(t, cutoff) && t.userId in w && w[t.userId].pending >= t.amount
  }

  /** A wallet with `amount` moved from pending to the available balance. */
  function Moved(w: TeacherWallet, amount: real): (r: TeacherWallet)
    ensures Total(r) == Total(w) && r.earned == w.earned && r.withdrawn == w.withdrawn
    ensures r.balance == w.balance + amount && r.pending == w.pending - amount
  {
    w.(pending := w.pending - amount, balance := w.balance + amount)
  }

  /**
   * The loop of `release_pending_balance` over the first `k` ledger rows,
   * from stored wallets `cur`.  The query loads every row together with its
   * own copy of the teacher's wallet (`select_related`), all taken before
   * the first save: `loaded`.  Each row tests and moves its own copy and
   * saves it over whatever is stored.  The ledger is kept in creation
   * order and the query visits it newest first, so row k - 1 is visited
   * before rows 0 .. k - 2.  The result is the stored wallets and the
   * number of moves counted.
   */
  function ReleaseFrom(cur: map<UserId, TeacherWallet>, loaded: map<UserId, TeacherWallet>, txs: seq<Transaction>,
                       cutoff: int, k: nat): (r: (map<UserId, TeacherWallet>, nat))
    requires k <= |txs|
    ensures r.1 <= k
    decreases k
  {
    if k == 0 then (cur, 0)
    else
      var t := txs[k - 1];
      if Moves(loaded, t, cutoff) then
        var (w2, c2) := ReleaseFrom(cur[t.userId := Moved(loaded[t.userId], t.amount)], loaded, txs, cutoff, k - 1);
        (w2, c2 + 1)
      else ReleaseFrom(cur, loaded, txs, cutoff, k - 1)
  }

  /** `release_pending_balance` as written: the copies are loaded from the stored wallets `w`. */
  function Release(w: map<UserId, TeacherWallet>, txs: seq<Transaction>, cutoff: int): (r: (map<UserId, TeacherWallet>, nat))
    ensures r.1 <= |txs|
  {
    ReleaseFrom(w, w, txs, cutoff, |txs|)
  }

  /**
   * Each stored wallet is its loaded copy or that copy with the amount of
   * one sale that moves moved out of pending: later saves replace earlier
   * ones, they never add up.
   */
  lemma {:induction false} ReleaseFromSavesOneMove(cur: map<UserId, TeacherWallet>, loaded: map<UserId, TeacherWallet>,
                                                   txs: seq<Transaction>, cutoff: int, k: nat, u: UserId)
    requires k <= |txs| && u in cur && u in loaded
    requires cur[u] == loaded[u]
      || (exists j :: k <= j < |txs| && Moves(loaded, txs[j], cutoff) && txs[j].userId == u && cur[u] == Moved(loaded[u], txs[j].amount))
    ensures var r := ReleaseFrom(cur, loaded, txs, cutoff, k).0;
      u in r && (r[u] == loaded[u]
        || (exists j :: 0 <= j < |txs| && Moves(loaded, txs[j], cutoff) && txs[j].userId == u && r[u] == Moved(loaded[u], txs[j].amount)))
    decreases k
  {
    if k > 0 {
      var t := txs[k - 1];
      if Moves(loaded, t, cutoff) {
        var next := cur[t.userId := Moved(loaded[t.userId], t.amount)];
        if t.userId == u {
          assert next[u] == Moved(loaded[u], txs[k - 1].amount);
        }
        ReleaseFromSavesOneMove(next, loaded, txs, cutoff, k - 1, u);
      } else {
        ReleaseFromSavesOneMove(cur, loaded, txs, cutoff, k - 1, u);
      }
    }
  }

  lemma ReleaseSavesOneMove(w: map<UserId, TeacherWallet>, txs: seq<Transaction>, cutoff: int, u: UserId)
    requires u in w
    ensures var r := Release(w, txs, cutoff).0;
      u in r && (r[u] == w[u]
        || (exists j :: 0 <= j < |txs| && Moves(w, txs[j], cutoff) && txs[j].userId == u && r[u] == Moved(w[u], txs[j].amount)))
  {
    ReleaseFromSavesOneMove(w, w, txs, cutoff, |txs|, u);
  }

  /** Every stored wallet either is its loaded copy or was saved from it by a move. */
  predicate SavedFrom(cur: map<UserId, TeacherWallet>, loaded: map<UserId, TeacherWallet>)
  {
    cur.Keys == loaded.Keys
    && (forall u :: u in loaded ==>
          Total(cur[u]) == Total(loaded[u]) && cur[u].earned == loaded[u].earned
          && (loaded[u].pending >= 0.0 ==> cur[u].pending >= 0.0))
  }

  lemma {:induction false} ReleaseFromConserves(cur: map<UserId, TeacherWallet>, loaded: map<UserId, TeacherWallet>,
                                                txs: seq<Transaction>, cutoff: int, k: nat)
    requires k <= |txs| && SavedFrom(cur, loaded)
    ensures SavedFrom(ReleaseFrom(cur, loaded, txs, cutoff, k).0, loaded)
    decreases k
  {
    if k > 0 {
      var t := txs[k - 1];
      if Moves(loaded, t, cutoff) {
        var next := cur[t.userId := Moved(loaded[t.userId], t.amount)];
        assert SavedFrom(next, loaded);
        ReleaseFromConserves(next, loaded, txs, cutoff, k - 1);
      } else {
        ReleaseFromConserves(cur, loaded, txs, cutoff, k - 1);
      }
    }
  }

  /**
   * A release moves money only between the pending and available balances:
   * each wallet keeps its total and its earnings, no wallet appears or
   * disappears, and a non-negative pending balance stays non-negative.
   */
  lemma ReleaseConserves(w: map<UserId, TeacherWallet>, txs: seq<Transaction>, cutoff: int)
    ensures var r := Release(w, txs, cutoff).0;
      && r.Keys == w.Keys
      && (forall u :: u in w ==> Total(r[u]) == Total(w[u]) && r[u].earned == w[u].earned)
      && (forall u :: u in w && w[u].pending >= 0.0 ==> r[u].pending >= 0.0)
  {
    ReleaseFromConserves(w, w, txs, cutoff, |txs|);
  }

  /**
   * Nothing marks a sale as released, so a second run at the same cutoff
   * moves the same sale again: with the cutoff at 5, a wallet with one sale
   * older than the cutoff and one younger ends with both amounts available.
   */
  lemma ReleaseTwiceReleasesYoungSale()
    ensures Release(map[1 := TeacherWallet(0.0, 200.0, 200.0, 0.0)], AgedThenYoung, 5).0
         == map[1 := TeacherWallet(100.0, 100.0, 200.0, 0.0)]
    ensures Release(map[1 := TeacherWallet(100.0, 100.0, 200.0, 0.0)], AgedThenYoung, 5).0
         == map[1 := TeacherWallet(200.0, 0.0, 200.0, 0.0)]
  {
    RunOfAgedThenYoung(0.0, 200.0);
    RunOfAgedThenYoung(100.0, 100.0);
  }

  /** Teacher 1's ledger: a sale of 100 at time 0 and another at time 10. */
  const AgedThenYoung := [Transaction(1, CourseSale, 100.0, TxSuccess, 0), Transaction(1, CourseSale, 100.0, TxSuccess, 10)]

  /** With the cutoff at 5 only the sale at time 0 is picked up, and it moves once. */
  lemma RunOfAgedThenYoung(balance: real, pending: real)
    requires pending >= 100.0
    ensures Release(map[1 := TeacherWallet(balance, pending, 200.0, 0.0)], AgedThenYoung, 5)
         == (map[1 := TeacherWallet(balance + 100.0, pending - 100.0, 200.0, 0.0)], 1)
  {
    var w := map[1 := TeacherWallet(balance, pending, 200.0, 0.0)];
    var after := map[1 := TeacherWallet(balance + 100.0, pending - 100.0, 200.0, 0.0)];
    var txs := AgedThenYoung;
    assert !Moves(w, txs[1], 5);
    assert Moves(w, txs[0], 5);
    assert w[1 := Moved(w[1], 100.0)] == after;
    assert ReleaseFrom(after, w, txs, 5, 0) == (after, 0);
    assert ReleaseFrom(w, w, txs, 5, 1) == (after, 1);
  }

  /**
   * Each row moves its own loaded copy, so a teacher with two aged sales of
   * 100 and pending 200 has both sales counted while the stored wallet
   * keeps only the last save: 100 available and 100 still pending.
   */
  lemma ReleaseLosesEarlierMove()
    ensures var w := map[1 := TeacherWallet(0.0, 200.0, 200.0, 0.0)];
      var txs := [Transaction(1, CourseSale, 100.0, TxSuccess, 0), Transaction(1, CourseSale, 100.0, TxSuccess, 1)];
      Release(w, txs, 5) == (map[1 := TeacherWallet(100.0, 100.0, 200.0, 0.0)], 2)
  {
    var w := map[1 := TeacherWallet(0.0, 200.0, 200.0, 0.0)];
    var txs := [Transaction(1, CourseSale, 100.0, TxSuccess, 0), Transaction(1, CourseSale, 100.0, TxSuccess, 1)];
    var saved := map[1 := TeacherWallet(100.0, 100.0, 200.0, 0.0)];
    assert Moves(w, txs[0], 5) && Moves(w, txs[1], 5);
    assert w[1 := Moved(w[1], 100.0)] == saved;
    assert saved[1 := Moved(w[1], 100.0)] == saved;
    assert ReleaseFrom(saved, w, txs, 5, 0) == (saved, 0);
    assert ReleaseFrom(saved, w, txs, 5, 1) == (saved, 1);
    assert ReleaseFrom(w, w, txs, 5, 2) == (saved, 2);
  }

  /** A visited sale with the set of ledger rows already released, which are skipped; the move applies to the stored wallet. */
  function ReleaseOneMarked(w: map<UserId, TeacherWallet>, released: set<nat>, txs: seq<Transaction>, cutoff: int, i: nat)
    : (r: (map<UserId, TeacherWallet>, set<nat>))
    requires i < |txs|
    ensures r.0.Keys == w.Keys && released <= r.1 <= released + {i}
  {
    var t := txs[i];
    if i !in released && Moves(w, t, cutoff) then (w[t.userId := Moved(w[t.userId], t.amount)], released + {i})
    else (w, released)
  }

  /**
   * The corrected release: each move applies to the wallet as stored, and
   * each ledger row is moved at most once, rows already released being
   * skipped.
   */
  function ReleaseMarked(w: map<UserId, TeacherWallet>, released: set<nat>, txs: seq<Transaction>, cutoff: int, k: nat)
    : (r: (map<UserId, TeacherWallet>, set<nat>))
    requires k <= |txs|
    ensures r.0.Keys == w.Keys && released <= r.1
    ensures forall i :: i in r.1 && i !in released ==> i < k
    decreases k
  {
    if k == 0 then (w, released)
    else
      var (w1, r1) := ReleaseOneMarked(w, released, txs, cutoff, k - 1);
      ReleaseMarked(w1, r1, txs, cutoff, k - 1)
  }

  /** The total of teacher `u`'s ledger rows among rows 0 .. k - 1 whose index is in `s`. */
  function SalesIn(txs: seq<Transaction>, s: set<nat>, u: UserId, k: nat): real
    requires k <= |txs|
    decreases k
  {
    if k == 0 then 0.0 else SalesIn(txs, s, u, k - 1) + (if k - 1 in s && txs[k - 1].userId == u then txs[k - 1].amount else 0.0)
  }

  lemma {:induction false} SalesInAgree(txs: seq<Transaction>, s1: set<nat>, s2: set<nat>, u: UserId, k: nat)
    requires k <= |txs|
    requires forall i :: 0 <= i < k ==> (i in s1 <==> i in s2)
    ensures SalesIn(txs, s1, u, k) == SalesIn(txs, s2, u, k)
    decreases k
  {
    if k > 0 {
      SalesInAgree(txs, s1, s2, u, k - 1);
    }
  }

  /**
   * No move of the corrected release is lost: each wallet's available
   * balance grows by exactly the amounts of its sales the run marks as
   * released.
   */
  lemma {:induction false} ReleaseMarkedCredits(w: map<UserId, TeacherWallet>, released: set<nat>, txs: seq<Transaction>,
                                                cutoff: int, k: nat, u: UserId)
    requires k <= |txs| && u in w
    ensures var r := ReleaseMarked(w, released, txs, cutoff, k);
      r.0[u].balance == w[u].balance + SalesIn(txs, r.1 - released, u, k)
    decreases k
  {
    if k > 0 {
      var (w1, r1) := ReleaseOneMarked(w, released, txs, cutoff, k - 1);
      var r := ReleaseMarked(w1, r1, txs, cutoff, k - 1);
      assert r == ReleaseMarked(w, released, txs, cutoff, k);
      ReleaseMarkedCredits(w1, r1, txs, cutoff, k - 1, u);
      SalesInAgree(txs, r.1 - released, r.1 - r1, u, k - 1);
      assert k - 1 in r.1 - released <==> k - 1 in r1 - released;
    }
  }

  /** Course sales carry non-negative amounts. */
  predicate SalesNonNegative(txs: seq<Transaction>)
  {
    forall i :: 0 <= i < |txs| && txs[i].txType == CourseSale ==> txs[i].amount >= 0.0
  }

  /** Row i would not move: it is released, not eligible, has no wallet, or its wallet holds too little. */
  predicate Settled(w: map<UserId, TeacherWallet>, released: set<nat>, txs: seq<Transaction>, cutoff: int, i: nat)
    requires i < |txs|
  {
    i in released || !Eligible(txs[i], cutoff) || txs[i].userId !in w || w[txs[i].userId].pending < txs[i].amount
  }

  predicate SettledBelow(w: map<UserId, TeacherWallet>, released: set<nat>, txs: seq<Transaction>, cutoff: int, lo: nat, hi: nat)
    requires lo <= hi <= |txs|
  {
    forall i :: lo <= i < hi ==> Settled(w, released, txs, cutoff, i)
  }

  /** A step only lowers pending balances and grows the released set, so settled rows stay settled. */
  lemma StepKeepsSettled(w: map<UserId, TeacherWallet>, released: set<nat>, txs: seq<Transaction>, cutoff: int, i: nat, lo: nat, hi: nat)
    requires i < |txs| && lo <= hi <= |txs| && SalesNonNegative(txs)
    requires SettledBelow(w, released, txs, cutoff, lo, hi)
    ensures var r := ReleaseOneMarked(w, released, txs, cutoff, i);
      SettledBelow(r.0, r.1, txs, cutoff, lo, hi)
  {
    var r := ReleaseOneMarked(w, released, txs, cutoff, i);
    var w1, r1 := r.0, r.1;
    forall j | lo <= j < hi
      ensures Settled(w1, r1, txs, cutoff, j)
    {
      assert Settled(w, released, txs, cutoff, j);
      var u := txs[j].userId;
      if u in w1 && j !in r1 {
        assert w1[u].pending <= w[u].pending;
      }
    }
  }

  lemma {:induction false} RunKeepsSettled(w: map<UserId, TeacherWallet>, released: set<nat>, txs: seq<Transaction>, cutoff: int, k: nat, lo: nat, hi: nat)
    requires k <= |txs| && lo <= hi <= |txs| && SalesNonNegative(txs)
    requires SettledBelow(w, released, txs, cutoff, lo, hi)
    ensures var r := ReleaseMarked(w, released, txs, cutoff, k);
      SettledBelow(r.0, r.1, txs, cutoff, lo, hi)
    decreases k
  {
    if k > 0 {
      var s := ReleaseOneMarked(w, released, txs, cutoff, k - 1);
      StepKeepsSettled(w, released, txs, cutoff, k - 1, lo, hi);
      RunKeepsSettled(s.0, s.1, txs, cutoff, k - 1, lo, hi);
      assert ReleaseMarked(w, released, txs, cutoff, k) == ReleaseMarked(s.0, s.1, txs, cutoff, k - 1);
    }
  }

  /** After a run over rows 0 .. k - 1 every one of them is settled. */
  lemma {:induction false} RunSettles(w: map<UserId, TeacherWallet>, released: set<nat>, txs: seq<Transaction>, cutoff: int, k: nat)
    requires k <= |txs| && SalesNonNegative(txs)
    ensures var r := ReleaseMarked(w, released, txs, cutoff, k);
      SettledBelow(r.0, r.1, txs, cutoff, 0, k)
    decreases k
  {
    if k > 0 {
      var s := ReleaseOneMarked(w, released, txs, cutoff, k - 1);
      assert Settled(s.0, s.1, txs, cutoff, k - 1);
      RunKeepsSettled(s.0, s.1, txs, cutoff, k - 1, k - 1, k);
      RunSettles(s.0, s.1, txs, cutoff, k - 1);
      var r := ReleaseMarked(s.0, s.1, txs, cutoff, k - 1);
      assert ReleaseMarked(w, released, txs, cutoff, k) == r;
      assert SettledBelow(r.0, r.1, txs, cutoff, k - 1, k);
      assert SettledBelow(r.0, r.1, txs, cutoff, 0, k - 1);
    }
  }

  /** A run over settled rows changes nothing. */
  lemma {:induction false} SettledRunIsNoop(w: map<UserId, TeacherWallet>, released: set<nat>, txs: seq<Transaction>, cutoff: int, k: nat)
    requires k <= |txs| && SettledBelow(w, released, txs, cutoff, 0, k)
    ensures ReleaseMarked(w, released, txs, cutoff, k) == (w, released)
    decreases k
  {
    if k > 0 {
      assert Settled(w, released, txs, cutoff, k - 1);
      assert ReleaseOneMarked(w, released, txs, cutoff, k - 1) == (w, released);
      SettledRunIsNoop(w, released, txs, cutoff, k - 1);
    }
  }

  /**
   * With released rows remembered, running the job again at the same cutoff
   * moves nothing, and a release still keeps every wallet's total.
   */
  lemma ReleaseMarkedIdempotent(w: map<UserId, TeacherWallet>, released: set<nat>, txs: seq<Transaction>, cutoff: int)
    requires SalesNonNegative(txs)
    ensures var r := ReleaseMarked(w, released, txs, cutoff, |txs|);
      ReleaseMarked(r.0, r.1, txs, cutoff, |txs|) == r
  {
    var r := ReleaseMarked(w, released, txs, cutoff, |txs|);
    RunSettles(w, released, txs, cutoff, |txs|);
    SettledRunIsNoop(r.0, r.1, txs, cutoff, |txs|);
  }

  // ---------------------------------------------------------- ledgers

  /** Every payout belongs to a teacher with a wallet. */
  predicate Owned(ws: map<UserId, TeacherWallet>, ps: seq<Payout>)
  {
    forall i :: 0 <= i < |ps| ==> ps[i].teacher in ws
  }

  /**
   * The payout view's ledger: a requested or approved payout has already
   * left the balance, so a wallet's total plus its open payouts is what the
   * teacher earned.
   */
  predicate ViewLedger(ws: map<UserId, TeacherWallet>, ps: seq<Payout>)
  {
    Owned(ws, ps) && forall u :: u in ws ==> Total(ws[u]) + Open(ps, u) == ws[u].earned
  }

  /** The wallet service's ledger: the balance is debited only on approval, so a wallet's total is what the teacher earned. */
  predicate ServiceLedger(ws: map<UserId, TeacherWallet>)
  {
    forall u :: u in ws ==> Total(ws[u]) == ws[u].earned
  }

  /** The wallet of `u`, or a new empty one. */
  function WalletIn(ws: map<UserId, TeacherWallet>, u: UserId): TeacherWallet
  {
    if u in ws then ws[u] else EmptyWallet
  }

  /**
   * Storing a wallet for `u` that lacks as much of its earnings as the
   * wallet it replaces (an empty one when there was none) keeps both ledgers.
   */
  lemma StoreWalletKeeps(ws: map<UserId, TeacherWallet>, ps: seq<Payout>, u: UserId, w: TeacherWallet)
    requires Total(w) - w.earned == Total(WalletIn(ws, u)) - WalletIn(ws, u).earned
    ensures ViewLedger(ws, ps) ==> ViewLedger(ws[u := w], ps)
    ensures ServiceLedger(ws) ==> ServiceLedger(ws[u := w])
  {
    if ViewLedger(ws, ps) && u !in ws {
      forall i | 0 <= i < |ps|
        ensures ps[i].teacher != u
      {
        assert ps[i].teacher in ws;
      }
      OpenNone(ps, u);
    }
  }

  /** Wallets that keep their totals and earnings keep both ledgers. */
  lemma SameTotalsKeep(ws: map<UserId, TeacherWallet>, ws2: map<UserId, TeacherWallet>, ps: seq<Payout>)
    requires ws2.Keys == ws.Keys
    requires forall u :: u in ws ==> Total(ws2[u]) == Total(ws[u]) && ws2[u].earned == ws[u].earned
    ensures ViewLedger(ws, ps) ==> ViewLedger(ws2, ps)
    ensures ServiceLedger(ws) ==> ServiceLedger(ws2)
  {
  }

  /** A payout that stays open with the same amount and teacher keeps the view's ledger. */
  lemma PayoutChangeKeeps(ws: map<UserId, TeacherWallet>, ps: seq<Payout>, i: nat, p: Payout)
    requires i < |ps| && p.teacher == ps[i].teacher && Held(p, p.teacher) == Held(ps[i], p.teacher)
    ensures ViewLedger(ws, ps) ==> ViewLedger(ws, ps[i := p])
  {
    forall u | true
      ensures Open(ps[i := p], u) == Open(ps, u)
    {
      OpenUpdate(ps, i, p, u);
    }
  }

  /**
   * Approving a requested payout while moving its amount from the balance to
   * the total withdrawn keeps both ledgers.
   */
  lemma ProcessKeeps(ws: map<UserId, TeacherWallet>, ps: seq<Payout>, i: nat, p: Payout, w: TeacherWallet)
    requires i < |ps| && ps[i].status == Requested && p.teacher == ps[i].teacher && p.amount == ps[i].amount
    requires p.status == PayoutApproved
    requires Total(w) - w.earned == Total(WalletIn(ws, p.teacher)) - WalletIn(ws, p.teacher).earned
    ensures ViewLedger(ws, ps) ==> ViewLedger(ws[p.teacher := w], ps[i := p])
    ensures ServiceLedger(ws) ==> ServiceLedger(ws[p.teacher := w])
  {
    StoreWalletKeeps(ws, ps, p.teacher, w);
    PayoutChangeKeeps(ws[p.teacher := w], ps, i, p);
  }

  /** A request debits the balance by what the new open payout holds: the view's ledger is kept. */
  lemma RequestKeeps(ws: map<UserId, TeacherWallet>, ps: seq<Payout>, u: UserId, p: Payout)
    requires u in ws && p.teacher == u && p.status == Requested
    ensures ViewLedger(ws, ps) ==> ViewLedger(ws[u := ws[u].(balance := ws[u].balance - p.amount)], ps + [p])
  {
    forall v | true
      ensures Open(ps + [p], v) == Open(ps, v) + Held(p, v)
    {
      OpenAppend(ps, p, v);
    }
  }

  /** Paying an approved payout moves its amount from open to withdrawn: the view's ledger is kept. */
  lemma PaidKeeps(ws: map<UserId, TeacherWallet>, ps: seq<Payout>, i: nat, p: Payout)
    requires i < |ps| && ps[i].status == PayoutApproved && p == ps[i].(status := Paid, paidAt := p.paidAt)
    requires ViewLedger(ws, ps)
    ensures var t := ps[i].teacher;
      t in ws && ViewLedger(ws[t := ws[t].(withdrawn := ws[t].withdrawn + ps[i].amount)], ps[i := p])
  {
    var t := ps[i].teacher;
    assert t in ws;
    forall v | true
      ensures Open(ps[i := p], v) == Open(ps, v) - Held(ps[i], v)
    {
      OpenUpdate(ps, i, p, v);
    }
  }

  // ---------------------------------------------------------- the store

  /** The `teacher_wallets`, `transactions` and `payouts` tables. */
  class WalletStore {
    var wallets: map<UserId, TeacherWallet>
    var transactions: seq<Transaction>
    var payouts: seq<Payout>

    ghost predicate ViewConserved()
      reads this
    {
      ViewLedger(wallets, payouts)
    }

    ghost predicate ServiceConserved()
      reads this
    {
      ServiceLedger(wallets)
    }

    constructor()
      ensures wallets == map[] && transactions == [] && payouts == []
      ensures ViewConserved() && ServiceConserved()
    {
      wallets := map[];
      transactions := [];
      payouts := [];
    }

    /** `get_or_create_wallet`, read only: the stored wallet or a new empty one. */
    function WalletOf(uid: UserId): TeacherWallet
      reads this
    {
      WalletIn(wallets, uid)
    }

    /** `get_or_create_wallet`: store an empty wallet for a teacher without one. */
    method CreateWallet(uid: UserId)
      modifies this
      ensures wallets == old(wallets)[uid := old(WalletOf(uid))]
      ensures transactions == old(transactions) && payouts == old(payouts)
      ensures old(ViewConserved()) ==> ViewConserved()
      ensures old(ServiceConserved()) ==> ServiceConserved()
    {
      if uid !in wallets {
        StoreWalletKeeps(wallets, payouts, uid, EmptyWallet);
        wallets := wallets[uid := EmptyWallet];
      }
    }

    /**
     * `add_pending_balance`: a sale raises the pending balance and the
     * lifetime earnings by the amount and records one successful
     * course-sale transaction.
     */
    method AddPendingBalance(teacher: UserId, amount: real, now: int)
      modifies this
      ensures var w := old(WalletOf(teacher));
        wallets == old(wallets)[teacher := w.(pending := w.pending + amount, earned := w.earned + amount)]
      ensures transactions == old(transactions) + [Transaction(teacher, CourseSale, amount, TxSuccess, now)]
      ensures payouts == old(payouts)
      ensures old(ViewConserved()) ==> ViewConserved()
      ensures old(ServiceConserved()) ==> ServiceConserved()
    {
      var w := WalletOf(teacher);
      var w2 := w.(pending := w.pending + amount, earned := w.earned + amount);
      StoreWalletKeeps(wallets, payouts, teacher, w2);
      wallets := wallets[teacher := w2];
      transactions := transactions + [Transaction(teacher, CourseSale, amount, TxSuccess, now)];
    }

    /**
     * `release_pending_balance`: load every sale made at least the holding
     * period ago with its own copy of the teacher's wallet, then visit them
     * newest first; a row whose copy covers its amount moves the amount from
     * pending to balance in that copy, saves it and is counted.
     */
    method ReleasePendingBalance(now: int) returns (count: nat)
      modifies this
      ensures (wallets, count) == Release(old(wallets), transactions, now - PendingSeconds)
      ensures transactions == old(transactions) && payouts == old(payouts)
      ensures old(ViewConserved()) ==> ViewConserved()
      ensures old(ServiceConserved()) ==> ServiceConserved()
    {
      var cutoff := now - PendingSeconds;
      var loaded := wallets;
      ghost var goal := Release(loaded, transactions, cutoff);
      count := 0;
      var i := |transactions|;
      while i > 0
        invariant 0 <= i <= |transactions|
        invariant transactions == old(transactions) && payouts == old(payouts)
        invariant ReleaseFrom(wallets, loaded, transactions, cutoff, i).0 == goal.0
        invariant count + ReleaseFrom(wallets, loaded, transactions, cutoff, i).1 == goal.1
        decreases i
      {
        var t := transactions[i - 1];
        if t.txType == CourseSale && t.status == TxSuccess && t.createdAt <= cutoff && t.userId in loaded {
          var w := loaded[t.userId];
          if w.pending >= t.amount {
            wallets := wallets[t.userId := Moved(w, t.amount)];
            count := count + 1;
          }
        }
        i := i - 1;
      }
      ReleaseConserves(loaded, transactions, cutoff);
      SameTotalsKeep(loaded, wallets, payouts);
    }

    /**
     * The payout view's `perform_create`: only a teacher may ask; the wallet
     * is created on first use and stays even when the request is refused;
     * the balance must cover the amount and the amount must reach the
     * minimum; on success the balance is debited at once and one REQUESTED
     * payout is added.
     */
    method RequestPayout(uid: UserId, role: Role, amount: real, payMethod: string) returns (err: Option<WalletError>)
      modifies this
      ensures role != Teacher ==> err == Some(NotTeacher) && wallets == old(wallets)
      ensures var w := old(WalletOf(uid));
        role == Teacher ==>
          if w.balance < amount then err == Some(InsufficientBalance) && wallets == old(wallets)[uid := w]
          else if amount < MinPayout then err == Some(BelowMinimum) && wallets == old(wallets)[uid := w]
          else err == None && wallets == old(wallets)[uid := w.(balance := w.balance - amount)]
      ensures err == None ==> wallets[uid].balance >= 0.0 && amount >= MinPayout
      ensures payouts == old(payouts) + (if err == None then [Payout(uid, amount, Requested, payMethod, None, None, None, "")] else [])
      ensures transactions == old(transactions)
      ensures old(ViewConserved()) ==> ViewConserved()
    {
      if role != Teacher {
        return Some(NotTeacher);
      }
      CreateWallet(uid);
      var w := wallets[uid];
      if w.balance < amount {
        return Some(InsufficientBalance);
      }
      if amount < MinPayout {
        return Some(BelowMinimum);
      }
      var p := Payout(uid, amount, Requested, payMethod, None, None, None, "");
      RequestKeeps(wallets, payouts, uid, p);
      wallets := wallets[uid := w.(balance := w.balance - amount)];
      payouts := payouts + [p];
      err := None;
    }

    /** The payout view's `approve`: allowed only from REQUESTED; no money moves. */
    method Approve(pid: nat, admin: UserId, now: int) returns (err: Option<WalletError>)
      modifies this
      ensures pid >= old(|payouts|) ==> err == Some(PayoutNotFound) && payouts == old(payouts)
      ensures pid < old(|payouts|) ==>
        var p := old(payouts[pid]);
        if p.status != Requested then err == Some(AlreadyReviewed) && payouts == old(payouts)
        else err == None && payouts == old(payouts)[pid := p.(status := PayoutApproved, approvedBy := Some(admin), approvedAt := Some(now))]
      ensures wallets == old(wallets) && transactions == old(transactions)
      ensures old(ViewConserved()) ==> ViewConserved()
      ensures old(ServiceConserved()) ==> ServiceConserved()
    {
      if pid >= |payouts| {
        return Some(PayoutNotFound);
      }
      var p := payouts[pid];
      if p.status != Requested {
        return Some(AlreadyReviewed);
      }
      var p2 := p.(status := PayoutApproved, approvedBy := Some(admin), approvedAt := Some(now));
      PayoutChangeKeeps(wallets, payouts, pid, p2);
      payouts := payouts[pid := p2];
      err := None;
    }

    /**
     * The payout view's `mark_paid`: allowed only from APPROVED; records a
     * positive PAYOUT transaction and, when the teacher has a wallet, adds
     * the amount to the total withdrawn.
     */
    method MarkPaid(pid: nat, now: int) returns (err: Option<WalletError>)
      modifies this
      ensures pid >= old(|payouts|) ==> err == Some(PayoutNotFound) && unchanged(this)
      ensures pid < old(|payouts|) && old(payouts[pid].status) != PayoutApproved ==> err == Some(PayoutNotApproved) && unchanged(this)
      ensures pid < old(|payouts|) && old(payouts[pid].status) == PayoutApproved ==>
        var p := old(payouts[pid]);
        && err == None
        && payouts == old(payouts)[pid := p.(status := Paid, paidAt := Some(now))]
        && transactions == old(transactions) + [Transaction(p.teacher, PayoutTx, p.amount, TxSuccess, now)]
        && wallets == if p.teacher in old(wallets)
                      then old(wallets)[p.teacher := old(wallets[p.teacher]).(withdrawn := old(wallets[p.teacher]).withdrawn + p.amount)]
                      else old(wallets)
      ensures old(ViewConserved()) ==> ViewConserved()
    {
      if pid >= |payouts| {
        return Some(PayoutNotFound);
      }
      var p := payouts[pid];
      if p.status != PayoutApproved {
        return Some(PayoutNotApproved);
      }
      var p2 := p.(status := Paid, paidAt := Some(now));
      if ViewConserved() {
        PaidKeeps(wallets, payouts, pid, p2);
      }
      payouts := payouts[pid := p2];
      transactions := transactions + [Transaction(p.teacher, PayoutTx, p.amount, TxSuccess, now)];
      if p.teacher in wallets {
        var w := wallets[p.teacher];
        wallets := wallets[p.teacher := w.(withdrawn := w.withdrawn + p.amount)];
      }
      err := None;
    }

    /**
     * `process_payout`: allowed only from REQUESTED and only when the balance
     * covers the amount; then the balance is debited, the total withdrawn
     * credited, the payout APPROVED and a negative PAYOUT transaction
     * recorded.  A refusal leaves every table as it was.
     */
    method ProcessPayout(pid: nat, admin: UserId, now: int) returns (err: Option<WalletError>)
      modifies this
      ensures pid >= old(|payouts|) ==> err == Some(PayoutNotFound) && unchanged(this)
      ensures pid < old(|payouts|) ==>
        var p := old(payouts[pid]);
        var w := old(WalletOf(p.teacher));
        if p.status != Requested then err == Some(AlreadyReviewed) && unchanged(this)
        else if w.balance < p.amount then err == Some(InsufficientBalance) && unchanged(this)
        else
          && err == None
          && wallets == old(wallets)[p.teacher := w.(balance := w.balance - p.amount, withdrawn := w.withdrawn + p.amount)]
          && payouts == old(payouts)[pid := p.(status := PayoutApproved, approvedBy := Some(admin), approvedAt := Some(now))]
          && transactions == old(transactions) + [Transaction(p.teacher, PayoutTx, -p.amount, TxSuccess, now)]
      ensures old(ViewConserved()) ==> ViewConserved()
      ensures old(ServiceConserved()) ==> ServiceConserved()
    {
      if pid >= |payouts| {
        return Some(PayoutNotFound);
      }
      var p := payouts[pid];
      if p.status != Requested {
        return Some(AlreadyReviewed);
      }
      var w := WalletOf(p.teacher);
      if w.balance < p.amount {
        return Some(InsufficientBalance);
      }
      var w2 := w.(balance := w.balance - p.amount, withdrawn := w.withdrawn + p.amount);
      var p2 := p.(status := PayoutApproved, approvedBy := Some(admin), approvedAt := Some(now));
      assert && (ViewConserved() ==> ViewLedger(wallets[p.teacher := w2], payouts[pid := p2]))
             && (ServiceConserved() ==> ServiceLedger(wallets[p.teacher := w2])) by {
        ProcessKeeps(wallets, payouts, pid, p2, w2);
      }
      wallets := wallets[p.teacher := w2];
      payouts := payouts[pid := p2];
      transactions := transactions + [Transaction(p.teacher, PayoutTx, -p.amount, TxSuccess, now)];
      err := None;
    }

    /** `mark_payout_paid`: sets PAID and the payment time whatever the status. */
    method MarkPayoutPaid(pid: nat, now: int) returns (err: Option<WalletError>)
      modifies this
      ensures pid >= old(|payouts|) ==> err == Some(PayoutNotFound) && unchanged(this)
      ensures pid < old(|payouts|) ==> err == None && payouts == old(payouts)[pid := old(payouts[pid]).(status := Paid, paidAt := Some(now))]
      ensures wallets == old(wallets) && transactions == old(transactions)
      ensures old(ServiceConserved()) ==> ServiceConserved()
    {
      if pid >= |payouts| {
        return Some(PayoutNotFound);
      }
      var p := payouts[pid];
      payouts := payouts[pid := p.(status := Paid, paidAt := Some(now))];
      err := None;
    }

    /**
     * `reject_payout`: an APPROVED payout gives its amount back to the
     * balance and takes it off the total withdrawn (which needs the wallet
     * to exist); whatever the prior status the payout ends REJECTED with the
     * reason and the reviewer recorded.
     */
    method RejectPayout(pid: nat, admin: UserId, reason: string, now: int) returns (err: Option<WalletError>)
      modifies this
      ensures pid >= old(|payouts|) ==> err == Some(PayoutNotFound) && unchanged(this)
      ensures pid < old(|payouts|) && old(payouts[pid].status) == PayoutApproved && old(payouts[pid].teacher) !in old(wallets)
        ==> err == Some(NoWallet) && unchanged(this)
      ensures pid < old(|payouts|) && (old(payouts[pid].status) != PayoutApproved || old(payouts[pid].teacher) in old(wallets)) ==>
        var p := old(payouts[pid]);
        && err == None
        && payouts == old(payouts)[pid := p.(status := PayoutRejected, rejectionReason := reason, approvedBy := Some(admin), approvedAt := Some(now))]
        && wallets == if p.status == PayoutApproved
                      then old(wallets)[p.teacher := old(wallets[p.teacher]).(balance := old(wallets[p.teacher]).balance + p.amount,
                                                                                withdrawn := old(wallets[p.teacher]).withdrawn - p.amount)]
                      else old(wallets)
      ensures transactions == old(transactions)
      ensures old(ServiceConserved()) ==> ServiceConserved()
    {
      if pid >= |payouts| {
        return Some(PayoutNotFound);
      }
      var p := payouts[pid];
      if p.status == PayoutApproved {
        if p.teacher !in wallets {
          return Some(NoWallet);
        }
        var w := wallets[p.teacher];
        var w2 := w.(balance := w.balance + p.amount, withdrawn := w.withdrawn - p.amount);
        StoreWalletKeeps(wallets, payouts, p.teacher, w2);
        wallets := wallets[p.teacher := w2];
      }
      payouts := payouts[pid := p.(status := PayoutRejected, rejectionReason := reason, approvedBy := Some(admin), approvedAt := Some(now))];
      err := None;
    }
  }
}
