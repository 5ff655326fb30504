/**
 * The olympiad engine as the services run it: one store object holding the
 * tables, whose methods check and update rows step by step.  Every method is
 * proved to leave the store exactly as the corresponding transition of
 * module Engine says, and to end with the same error; the properties proved
 * about those transitions therefore hold of the store.
 */
module EngineDb {
  import opened Text
  import opened Models
  import opened Scoring
  import opened Ranking
  import opened Rewards
  import opened Engine

  class OlympiadDb {
    var users: map<UserId, UserRow>
    var olympiads: map<OlympiadId, Olympiad>
    var registrations: map<(UserId, OlympiadId), bool>
    var results: map<(UserId, OlympiadId), TestResult>
    var transactions: seq<Transaction>
    var winners: map<(OlympiadId, UserId), WinnerPrize>
    var payments: seq<Payment>
    var courses: map<CourseId, CourseRow>
    var enrollments: set<(UserId, CourseId)>

    /** The stored tables as one value. */
    function Snapshot(): Tables
      reads this
    {
      Tables(users, olympiads, registrations, results, transactions, winners, payments, courses, enrollments)
    }

    /** Referential integrity of the stored tables. */
    ghost predicate Consistent()
      reads this
    {
      Engine.Valid(Snapshot())
    }

    constructor (t: Tables)
      requires Engine.Valid(t)
      ensures Snapshot() == t && Consistent()
    {
      users, olympiads, registrations, results := t.users, t.olympiads, t.registrations, t.results;
      transactions, winners, payments, courses, enrollments := t.transactions, t.winners, t.payments, t.courses, t.enrollments;
    }

    /** `OlympiadService.register_user`. */
    method RegisterUser(uid: UserId, oid: OlympiadId) returns (err: Option<EngineError>)
      requires Consistent() && uid in users && oid in olympiads
      modifies this
      ensures Step(Snapshot(), err) == Engine.RegisterUser(old(Snapshot()), uid, oid)
      ensures Consistent()
    {
      var o := olympiads[oid];
      if (uid, oid) in registrations {
        return Some(AlreadyRegistered);
      }
      if ServiceFull(o) {
        return Some(Full);
      }
      if o.price > 0.0 && users[uid].balance < o.price {
        return Some(InsufficientBalance);
      }
      registrations := registrations[(uid, oid) := o.price == 0.0];
      return None;
    }

    /** The `register` action. */
    method Register(uid: UserId, oid: OlympiadId) returns (err: Option<EngineError>)
      requires Consistent() && uid in users
      modifies this
      ensures Step(Snapshot(), err) == Engine.Register(old(Snapshot()), uid, oid)
      ensures Consistent()
    {
      if !Found(Snapshot(), uid, oid) {
        return Some(DoesNotExist);
      }
      var o := olympiads[oid];
      if o.status == Completed {
        return Some(OlympiadOver);
      }
      if (uid, oid) in registrations {
        return Some(AlreadyRegistered);
      }
      if o.maxParticipants.Some? && o.maxParticipants.value != 0
         && RegistrationCount(registrations, oid) >= o.maxParticipants.value {
        return Some(Full);
      }
      if o.price > 0.0 && !HasOlympiadPayment(payments, uid, oid) {
        return Some(PaymentRequired);
      }
      registrations := registrations[(uid, oid) := true];
      return None;
    }

    /** `OlympiadService.start_test`: schedule and registration checks, then reclaim or keep the attempt. */
    method StartTest(uid: UserId, oid: OlympiadId, now: int) returns (err: Option<EngineError>)
      requires Consistent() && uid in users
      modifies this
      ensures Step(Snapshot(), err) == Engine.StartTest(old(Snapshot()), uid, oid, now)
      ensures Consistent()
    {
      if oid !in olympiads {
        return Some(DoesNotExist);
      }
      var o := olympiads[oid];
      var window := WindowError(o, now);
      if window.Some? {
        return window;
      }
      var key := (uid, oid);
      if key !in registrations {
        return Some(NotRegistered);
      }
      if key !in results {
        results := results[key := FreshAttempt(uid, oid, now)];
        return None;
      }
      var a := results[key];
      if a.status == AttemptCompleted {
        if o.maxAttempts <= 1 {
          return Some(AlreadySubmitted);
        }
        results := results[key := FreshAttempt(uid, oid, now)];
      } else if TimerExpired(o, a, now) {
        results := results[key := FreshAttempt(uid, oid, now)];
      } else {
        assert results[key := StartedAttempt(o, results, uid, oid, now)] == results;
      }
      return None;
    }

    /** `OlympiadService.submit_answer` behind the `submit_answer` action. */
    method SubmitAnswer(uid: UserId, oid: OlympiadId, questionId: Json, answer: Json) returns (err: Option<EngineError>)
      requires Consistent()
      modifies this
      ensures Step(Snapshot(), err) == Engine.SubmitAnswer(old(Snapshot()), uid, oid, questionId, answer)
      ensures Consistent()
    {
      if !Truthy(questionId) || answer == JNull {
        return Some(MissingFields);
      }
      var key := (uid, oid);
      if key !in results {
        return Some(DoesNotExist);
      }
      var a := results[key];
      if a.status == AttemptCompleted {
        return Some(AlreadySubmitted);
      }
      results := results[key := a.(answers := Put(a.answers, Show(questionId), answer))];
      return None;
    }

    /** `OlympiadService.finish_test`: the scoring loop, then the row and the experience reward. */
    method FinishTest(uid: UserId, oid: OlympiadId, now: int) returns (err: Option<EngineError>)
      requires Consistent()
      modifies this
      ensures Step(Snapshot(), err) == Engine.FinishTest(old(Snapshot()), uid, oid, now)
      ensures Consistent()
    {
      var key := (uid, oid);
      if key !in results {
        return Some(DoesNotExist);
      }
      var a := results[key];
      if a.status == AttemptCompleted {
        return None;
      }
      CompleteAttempt(uid, oid, a, olympiads[oid], now);
      return None;
    }

    /** The completing branch of `finish_test`: the attempt `a` is scored and stored, then the olympiad's XP granted. */
    method CompleteAttempt(uid: UserId, oid: OlympiadId, a: TestResult, o: Olympiad, now: int)
      requires uid in users
      modifies this
      ensures Snapshot() == old(Snapshot()).(results := old(results)[(uid, oid) := CompletedAttempt(a, o.questions, now)],
                                             users := old(users)[uid := AddXp(old(users)[uid], o.xpReward)])
    {
      var row := ScoredAttempt(a, o.questions, now);
      results := results[(uid, oid) := row];
      if o.xpReward > 0 {
        users := users[uid := AddXp(users[uid], o.xpReward)];
      } else {
        assert users[uid := AddXp(users[uid], o.xpReward)] == users;
      }
    }

    /** The attempt `a` scored by the attempt service's rule over `qs`, timed and marked COMPLETED. */
    static method ScoredAttempt(a: TestResult, qs: seq<Question>, now: int) returns (row: TestResult)
      ensures row == CompletedAttempt(a, qs, now)
    {
      var score, total := ScoreAttempt(qs, a.answers);
      row := a.(score := score, percentage := Percentage(score, total),
                timeTaken := DeltaSeconds(now - a.submittedAt), status := AttemptCompleted);
    }

    /** The `submit` action: validate, refuse a repeat, score, store the row and grant experience. */
    method Submit(uid: UserId, oid: OlympiadId, answers: seq<(string, string)>, timeTaken: int, tabSwitches: int, now: int)
      returns (err: Option<EngineError>)
      requires Consistent() && uid in users
      modifies this
      ensures Step(Snapshot(), err) == Engine.Submit(old(Snapshot()), uid, oid, answers, timeTaken, tabSwitches, now)
      ensures Consistent()
    {
      if !Found(Snapshot(), uid, oid) {
        return Some(DoesNotExist);
      }
      if !SubmissionValid(answers, timeTaken, tabSwitches) {
        return Some(InvalidSubmission);
      }
      var o := olympiads[oid];
      var key := (uid, oid);
      if key in results && results[key].status == AttemptCompleted && o.maxAttempts <= 1 {
        return Some(AlreadySubmitted);
      }
      var row := SubmissionRow(Lookup(results, key), uid, oid, o, answers, timeTaken, tabSwitches, now);
      ghost var t0 := Snapshot();
      results := results[key := row];
      if row.status == AttemptCompleted {
        users := users[uid := AddXp(users[uid], SubmitXp(row.score, row.percentage))];
      } else {
        assert users[uid := SubmitReward(users[uid], row)] == users;
      }
      assert Snapshot() == t0.(results := t0.results[key := row], users := t0.users[uid := SubmitReward(t0.users[uid], row)]);
      return None;
    }

    /** The row the `submit` action stores: the previous row updated in place, or a new one. */
    static method SubmissionRow(prev: Option<TestResult>, uid: UserId, oid: OlympiadId, o: Olympiad,
                                answers: seq<(string, string)>, timeTaken: int, tabSwitches: int, now: int)
      returns (row: TestResult)
      ensures row == SubmittedRow(prev, uid, oid, o, answers, timeTaken, tabSwitches, now)
    {
      var clean := Trimmed(answers);
      var score, total := ScoreSubmission(o.questions, clean);
      var status := SubmitStatus(o, tabSwitches);
      if prev.Some? {
        row := prev.value.(answers := AsJson(clean), score := score, percentage := Percentage(score, total),
                           timeTaken := timeTaken, tabSwitches := tabSwitches, status := status);
      } else {
        row := TestResult(uid, oid, AsJson(clean), score, Percentage(score, total), timeTaken, tabSwitches, status, now);
      }
    }

    /** Every table except the ledger (users, transactions, winners) is as in `t`. */
    ghost predicate OnlyLedgerChanged(t: Tables)
      reads this
    {
      registrations == t.registrations && results == t.results && payments == t.payments
      && courses == t.courses && enrollments == t.enrollments
    }

    /** `RewardService.award_prize` with its `_award_coin`, `_award_xp` and `_award_physical` helpers. */
    method AwardPrize(uid: UserId, p: Prize, oid: OlympiadId, position: nat, now: int)
      requires uid in users
      modifies this
      ensures LedgerOf(Snapshot()) == Rewards.AwardPrize(old(LedgerOf(Snapshot())), uid, p, oid, position, now)
      ensures olympiads == old(olympiads) && OnlyLedgerChanged(old(Snapshot()))
    {
      var u := users[uid];
      if p.prizeType == Coin {
        users := users[uid := u.(balance := u.balance + p.amount)];
        transactions := transactions + [Transaction(uid, OlympiadReward, p.amount, TxSuccess, now)];
      } else if p.prizeType == Xp {
        users := users[uid := u.(xp := u.xp + Trunc(p.amount))];
      } else if p.prizeType == Physical {
        if (oid, uid) !in winners {
          winners := winners[(oid, uid) := WinnerPrize(position, p.id, WinnerPending, false)];
        }
      }
    }

    /**
     * `RewardService.distribute_rewards`: the guard, then the run.  `rows` is
     * the order the database returns the results in; `failAt` is the index of
     * the grant that raises, if any.
     */
    method DistributeRewards(oid: OlympiadId, rows: seq<TestResult>, failAt: Option<nat>, now: int) returns (ok: bool)
      requires Consistent() && Enumerates(rows, results)
      modifies this
      ensures Consistent()
      ensures (Snapshot(), ok) == Engine.DistributeRewards(old(Snapshot()), oid, rows, failAt, now)
    {
      if oid !in olympiads {
        return false;
      }
      var o := olympiads[oid];
      if o.rewardDistributionStatus == DistCompleted {
        return false;
      }
      ghost var t0 := Snapshot();
      AwardeesPresent(t0, oid, rows, o);
      ok := RunDistribution(oid, o, CalculateRankings(rows, oid), failAt, now);
      RunOutcome(t0, oid, rows, failAt, now, LedgerOf(Snapshot()), ok);
    }

    /**
     * The body of `distribute_rewards` past the guard: mark IN_PROGRESS, finish
     * at once without prizes, otherwise make the grants and record COMPLETED
     * or FAILED.
     */
    method RunDistribution(oid: OlympiadId, o: Olympiad, ranked: seq<Ranked>, failAt: Option<nat>, now: int)
      returns (ok: bool)
      requires oid in olympiads && olympiads[oid] == o
      requires UsersPresent(LedgerOf(Snapshot()), Awards(o.rewardStrategy, o.prizes, ranked))
      modifies this
      ensures olympiads == old(olympiads)[oid := o.(rewardDistributionStatus := if ok then DistCompleted else DistFailed)]
      ensures OnlyLedgerChanged(old(Snapshot()))
      ensures var awards := Awards(o.rewardStrategy, o.prizes, ranked);
        (ok <==> !(failAt.Some? && failAt.value < |awards|))
        && LedgerOf(Snapshot()) == GrantFirst(old(LedgerOf(Snapshot())), oid, awards, if ok then |awards| else failAt.value, now)
    {
      ghost var l0 := LedgerOf(Snapshot());
      SetDistributionStatus(oid, o, DistInProgress);
      ok := RunGrants(oid, o.rewardStrategy, o.prizes, ranked, failAt, now, l0);
      SetDistributionStatus(oid, o, if ok then DistCompleted else DistFailed);
    }

    /** The grants of a run: none at all when the olympiad has no prizes, otherwise the nested loops. */
    method RunGrants(oid: OlympiadId, strategy: RewardStrategy, prizes: seq<Prize>, ranked: seq<Ranked>,
                     failAt: Option<nat>, now: int, ghost l0: Ledger) returns (completed: bool)
      requires LedgerOf(Snapshot()) == l0
      requires UsersPresent(l0, Awards(strategy, prizes, ranked))
      modifies this
      ensures olympiads == old(olympiads) && OnlyLedgerChanged(old(Snapshot()))
      ensures completed <==> !(failAt.Some? && failAt.value < |Awards(strategy, prizes, ranked)|)
      ensures LedgerOf(Snapshot()) == GrantFirst(l0, oid, Awards(strategy, prizes, ranked),
        if completed then |Awards(strategy, prizes, ranked)| else failAt.value, now)
    {
      if prizes == [] {
        NoPrizesNoAwards(strategy, ranked);
        GrantFirstNone(l0, oid, Awards(strategy, prizes, ranked), now);
        return true;
      }
      completed := GrantRun(oid, strategy, prizes, ranked, failAt, now, l0);
    }

    /** Saves olympiad `o` under `oid` with distribution status `s`; no other table changes. */
    method SetDistributionStatus(oid: OlympiadId, o: Olympiad, s: DistributionStatus)
      modifies this
      ensures olympiads == old(olympiads)[oid := o.(rewardDistributionStatus := s)]
      ensures LedgerOf(Snapshot()) == old(LedgerOf(Snapshot())) && OnlyLedgerChanged(old(Snapshot()))
    {
      olympiads := olympiads[oid := o.(rewardDistributionStatus := s)];
    }

    /**
     * The nested loops of `distribute_rewards`: each ranked entrant in turn,
     * each matching prize in turn.  The run stops at grant `failAt`.
     */
    method GrantRun(oid: OlympiadId, strategy: RewardStrategy, prizes: seq<Prize>, ranked: seq<Ranked>,
                    failAt: Option<nat>, now: int, ghost l0: Ledger) returns (completed: bool)
      requires LedgerOf(Snapshot()) == l0
      requires UsersPresent(l0, Awards(strategy, prizes, ranked))
      modifies this
      ensures olympiads == old(olympiads) && OnlyLedgerChanged(old(Snapshot()))
      ensures completed <==> !(failAt.Some? && failAt.value < |Awards(strategy, prizes, ranked)|)
      ensures LedgerOf(Snapshot()) == GrantFirst(l0, oid, Awards(strategy, prizes, ranked),
        if completed then |Awards(strategy, prizes, ranked)| else failAt.value, now)
    {
      ghost var awards := Awards(strategy, prizes, ranked);
      ghost var t0 := Snapshot();
      var count := 0;
      var i := 0;
      while i < |ranked|
        invariant 0 <= i <= |ranked|
        invariant count == |Awards(strategy, prizes, ranked[..i])| <= |awards|
        invariant LedgerOf(Snapshot()) == GrantFirst(l0, oid, awards, count, now)
        invariant failAt.None? || failAt.value >= count
        invariant olympiads == t0.olympiads && OnlyLedgerChanged(t0)
      {
        var failed;
        EntrantSlots(strategy, prizes, ranked, i);
        count, failed := GrantPrizes(oid, strategy, prizes, ranked[i], failAt, count, now, l0, awards);
        if failed {
          return false;
        }
        CountEntrant(strategy, prizes, ranked, i);
        AwardsPrefix(strategy, prizes, ranked, i + 1);
        i := i + 1;
      }
      assert ranked[..i] == ranked;
      return true;
    }

    /** The inner loop of `distribute_rewards`: every prize that matches entrant `e`, in order. */
    method GrantPrizes(oid: OlympiadId, strategy: RewardStrategy, prizes: seq<Prize>, e: Ranked,
                       failAt: Option<nat>, count0: nat, now: int, ghost l0: Ledger, ghost awards: seq<(Ranked, Prize)>)
      returns (count: nat, failed: bool)
      requires count0 <= |awards| && SlotsFor(strategy, prizes, e, awards, count0) && UsersPresent(l0, awards)
      requires LedgerOf(Snapshot()) == GrantFirst(l0, oid, awards, count0, now)
      requires failAt.None? || failAt.value >= count0
      modifies this
      ensures olympiads == old(olympiads) && OnlyLedgerChanged(old(Snapshot()))
      ensures count <= |awards| && LedgerOf(Snapshot()) == GrantFirst(l0, oid, awards, count, now)
      ensures failed ==> failAt.Some? && failAt.value == count < |awards|
      ensures !failed ==> count == count0 + MatchCount(strategy, prizes, e, |prizes|) && (failAt.None? || failAt.value >= count)
    {
      ghost var t0 := Snapshot();
      count := count0;
      var j := 0;
      while j < |prizes|
        invariant 0 <= j <= |prizes|
        invariant count == count0 + MatchCount(strategy, prizes, e, j) <= |awards|
        invariant LedgerOf(Snapshot()) == GrantFirst(l0, oid, awards, count, now)
        invariant failAt.None? || failAt.value >= count
        invariant olympiads == t0.olympiads && OnlyLedgerChanged(t0)
      {
        var p := prizes[j];
        if Matches(strategy, p, e) {
          SlotAt(strategy, prizes, e, awards, count0, j);
          if failAt.Some? && failAt.value == count {
            return count, true;
          }
          GrantNext(oid, count, e, p, now, l0, awards);
          count := count + 1;
        }
        j := j + 1;
      }
      return count, false;
    }

    /** One grant of the run: award number `count`, which is prize `p` for entrant `e`. */
    method GrantNext(oid: OlympiadId, count: nat, e: Ranked, p: Prize, now: int,
                     ghost l0: Ledger, ghost awards: seq<(Ranked, Prize)>)
      requires count < |awards| && awards[count] == (e, p) && UsersPresent(l0, awards)
      requires LedgerOf(Snapshot()) == GrantFirst(l0, oid, awards, count, now)
      modifies this
      ensures LedgerOf(Snapshot()) == GrantFirst(l0, oid, awards, count + 1, now)
      ensures olympiads == old(olympiads) && OnlyLedgerChanged(old(Snapshot()))
    {
      GrantFirstStep(l0, oid, awards, count, now);
      AwardPrize(e.result.userId, p, oid, e.position, now);
    }

    /** `OlympiadService.publish_results`. */
    method PublishResults(oid: OlympiadId, rows: seq<TestResult>, failAt: Option<nat>, now: int) returns (err: Option<EngineError>)
      requires Consistent() && Enumerates(rows, results)
      modifies this
      ensures Step(Snapshot(), err) == Engine.PublishResults(old(Snapshot()), oid, rows, failAt, now)
      ensures Consistent()
    {
      if oid !in olympiads {
        return Some(DoesNotExist);
      }
      olympiads := olympiads[oid := olympiads[oid].(status := Published, resultTime := Some(now))];
      if olympiads[oid].autoReward {
        var _ := DistributeRewards(oid, rows, failAt, now);
      }
      return None;
    }

    /** The admin `confirm` action on payment `pid`. */
    method ConfirmPayment(pid: nat) returns (err: Option<EngineError>)
      requires Consistent()
      modifies this
      ensures Step(Snapshot(), err) == Engine.ConfirmPayment(old(Snapshot()), pid)
      ensures Consistent()
    {
      if pid >= |payments| {
        return Some(DoesNotExist);
      }
      var p := payments[pid];
      if p.status != PayPending {
        return Some(NotPending);
      }
      payments := payments[pid := p.(status := PayCompleted)];
      if CreditsBalance(p) {
        users := Credit(users, p.userId, p.amount);
      }
      return None;
    }

    /** The admin `reject` action on payment `pid`. */
    method RejectPayment(pid: nat) returns (err: Option<EngineError>)
      requires Consistent()
      modifies this
      ensures Step(Snapshot(), err) == Engine.RejectPayment(old(Snapshot()), pid)
      ensures Consistent()
    {
      if pid >= |payments| {
        return Some(DoesNotExist);
      }
      if payments[pid].status != PayPending {
        return Some(NotPending);
      }
      payments := payments[pid := payments[pid].(status := PayFailed)];
      return None;
    }

    /** The admin `refund` action on payment `pid`. */
    method RefundPayment(pid: nat) returns (err: Option<EngineError>)
      requires Consistent()
      modifies this
      ensures Step(Snapshot(), err) == Engine.RefundPayment(old(Snapshot()), pid)
      ensures Consistent()
    {
      if pid >= |payments| {
        return Some(DoesNotExist);
      }
      var p := payments[pid];
      if p.status != PayCompleted {
        return Some(NotCompletedPayment);
      }
      payments := payments[pid := p.(status := PayRefunded)];
      if CreditsBalance(p) {
        users := Credit(users, p.userId, -p.amount);
      }
      return None;
    }

    /** The wallet `top_up` action. */
    method TopUp(uid: UserId, amount: Option<real>, payMethod: string) returns (err: Option<EngineError>)
      requires Consistent() && uid in users
      modifies this
      ensures Step(Snapshot(), err) == Engine.TopUp(old(Snapshot()), uid, amount, payMethod)
      ensures Consistent()
    {
      if amount.None? || amount.value <= 0.0 {
        return Some(BadAmount);
      }
      payments := payments + [Payment(uid, amount.value, "WALLET_TOPUP", "WALLET", payMethod, PayCompleted)];
      users := Credit(users, uid, amount.value);
      return None;
    }

    /** A course bought from the wallet. */
    method PurchaseCourse(uid: UserId, cid: CourseId) returns (err: Option<EngineError>)
      requires Consistent() && uid in users
      modifies this
      ensures Step(Snapshot(), err) == Engine.PurchaseCourse(old(Snapshot()), uid, cid)
      ensures Consistent()
    {
      if cid !in courses {
        return Some(DoesNotExist);
      }
      if (uid, cid) in enrollments {
        return Some(AlreadyEnrolled);
      }
      var c := courses[cid];
      if users[uid].balance < c.price {
        return Some(InsufficientBalance);
      }
      users := Credit(users, uid, -c.price);
      payments := payments + [Payment(uid, c.price, "COURSE", IntToString(cid), "WALLET", PayCompleted)];
      enrollments := enrollments + {(uid, cid)};
      courses := courses[cid := c.(studentsCount := c.studentsCount + 1)];
      return None;
    }

    /** An olympiad bought from the wallet. */
    method PurchaseOlympiad(uid: UserId, oid: OlympiadId) returns (err: Option<EngineError>)
      requires Consistent() && uid in users
      modifies this
      ensures Step(Snapshot(), err) == Engine.PurchaseOlympiad(old(Snapshot()), uid, oid)
      ensures Consistent()
    {
      if oid !in olympiads {
        return Some(DoesNotExist);
      }
      if (uid, oid) in registrations {
        return Some(AlreadyRegistered);
      }
      var o := olympiads[oid];
      var u := users[uid];
      if u.balance < o.price {
        return Some(InsufficientBalance);
      }
      payments := payments + [Payment(uid, o.price, "OLYMPIAD", IntToString(oid), "WALLET", PayCompleted)];
      registrations := registrations[(uid, oid) := true];
      users := users[uid := AddXp(u.(balance := u.balance - o.price), o.xpReward)];
      return None;
    }

    /** The wallet `purchase` action. */
    method Purchase(uid: UserId, itemType: string, itemId: int) returns (err: Option<EngineError>)
      requires Consistent() && uid in users
      modifies this
      ensures Step(Snapshot(), err) == Engine.Purchase(old(Snapshot()), uid, itemType, itemId)
      ensures Consistent()
    {
      if itemType == "" || itemId == 0 {
        return Some(MissingFields);
      }
      if itemType == "COURSE" {
        err := PurchaseCourse(uid, itemId);
        return;
      }
      if itemType == "OLYMPIAD" {
        err := PurchaseOlympiad(uid, itemId);
        return;
      }
      return Some(InvalidType);
    }
  }

  /**
   * What the nested loops leave behind decides the outcome of the run: the
   * ledger they committed, and COMPLETED or FAILED as they finished or not.
   */
  lemma RunOutcome(t0: Tables, oid: OlympiadId, rows: seq<TestResult>, failAt: Option<nat>, now: int, l: Ledger, ok: bool)
    requires Engine.Valid(t0) && Enumerates(rows, t0.results) && oid in t0.olympiads
    requires t0.olympiads[oid].rewardDistributionStatus != DistCompleted
    requires
      var o := t0.olympiads[oid];
      var awards := Awards(o.rewardStrategy, o.prizes, CalculateRankings(rows, oid));
      UsersPresent(LedgerOf(t0), awards)
      && (ok <==> !(failAt.Some? && failAt.value < |awards|))
      && l == GrantFirst(LedgerOf(t0), oid, awards, if ok then |awards| else failAt.value, now)
    ensures
      var o := t0.olympiads[oid];
      Engine.DistributeRewards(t0, oid, rows, failAt, now)
        == (t0.(olympiads := t0.olympiads[oid := o.(rewardDistributionStatus := if ok then DistCompleted else DistFailed)],
                users := l.users, transactions := l.transactions, winners := l.winners), ok)
  {
    var o := t0.olympiads[oid];
    var ranked := CalculateRankings(rows, oid);
    var awards := Awards(o.rewardStrategy, o.prizes, ranked);
    AwardeesPresent(t0, oid, rows, o);
    var d := Distribute(o, oid, LedgerOf(t0), ranked, failAt, now);
    assert d == Distribution(if ok then DistCompleted else DistFailed, l, ok) by {
      if ok {
        GrantFirstAll(LedgerOf(t0), oid, awards, now);
      }
      if o.prizes == [] {
        NoPrizesNoAwards(o.rewardStrategy, ranked);
        GrantFirstNone(LedgerOf(t0), oid, awards, now);
      }
    }
    assert Engine.DistributeRewards(t0, oid, rows, failAt, now)
      == (WithDistributionStatus(WithLedger(t0, d.ledger), oid, d.status), d.ok);
  }
}
