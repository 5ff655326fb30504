/**
 * The olympiad engine as transitions on the tables it touches: the two
 * registration paths, the attempt lifecycle (start, incremental answers,
 * finish), the one-shot submission, publication and reward distribution, and
 * the payment actions that feed registration and balances.  Each transition
 * returns the new tables and the error the request ends with, if any; a
 * request that fails changes nothing.
 */
module Engine {
  import opened Text
  import opened Models
  import opened Scoring
  import opened Ranking
  import opened Rewards
  import Permissions

  datatype PaymentStatus = PayPending | PayCompleted | PayFailed | PayRefunded

  /** A Payment row; `ptype` and `payMethod` (the `type` and `method` columns) are free-form columns (TOPUP, OLYMPIAD, USERBOT, WALLET, ...). */
  datatype Payment = Payment(userId: UserId, amount: real, ptype: string, referenceId: string, payMethod: string, status: PaymentStatus)

  /** The columns of a Course that a wallet purchase reads or writes. */
  datatype CourseRow = CourseRow(price: real, studentsCount: int)

  datatype EngineError =
    | DoesNotExist | AlreadyRegistered | Full | InsufficientBalance
    | NotStarted | Finished | NoStartDate | NotRegistered | AlreadySubmitted
    | OlympiadOver | PaymentRequired | InvalidSubmission | MissingFields
    | NotPending | NotCompletedPayment | BadAmount | AlreadyEnrolled | InvalidType
    | AttributeError   // a read of a field the model class does not declare

  datatype Tables = Tables(
    users: map<UserId, UserRow>,
    olympiads: map<OlympiadId, Olympiad>,
    registrations: map<(UserId, OlympiadId), bool>,   // OlympiadRegistration.is_paid, unique per pair
    results: map<(UserId, OlympiadId), TestResult>,   // TestResult, unique per pair
    transactions: seq<Transaction>,
    winners: map<(OlympiadId, UserId), WinnerPrize>,
    payments: seq<Payment>,                           // a payment's id is its index
    courses: map<CourseId, CourseRow>,
    enrollments: set<(UserId, CourseId)>)

  /** The outcome of a request: the tables afterwards and the error it ended with. */
  datatype Step = Step(t: Tables, err: Option<EngineError>)

  /** Referential integrity: every row points at existing users and olympiads, and is filed under its own key. */
  predicate Valid(t: Tables)
  {
    (forall u :: u in t.users ==> t.users[u].id == u)
    && (forall k :: k in t.results ==>
          t.results[k].userId == k.0 && t.results[k].olympiadId == k.1 && k.0 in t.users && k.1 in t.olympiads)
    && (forall k :: k in t.registrations ==> k.0 in t.users && k.1 in t.olympiads)
    && (forall i :: 0 <= i < |t.payments| ==> t.payments[i].userId in t.users)
  }

  // ------------------------------------------------------- lookup

  /**
   * `OlympiadViewSet.get_queryset`: an admin finds every olympiad, a teacher
   * only the ones they teach, anybody else (an anonymous visitor included)
   * only the active ones.
   */
  predicate VisibleTo(req: Permissions.Requester, o: Olympiad)
  {
    if Permissions.IsAdmin(req) then true
    else if Permissions.IsTeacher(req) then o.teacher == Some(req.id)
    else o.isActive
  }

  /** `self.get_object()`: the olympiad exists and the requester's queryset holds it; otherwise the action answers 404. */
  predicate Findable(t: Tables, req: Permissions.Requester, oid: OlympiadId)
  {
    oid in t.olympiads && VisibleTo(req, t.olympiads[oid])
  }

  /** A signed-in user as the requester. */
  function SignedIn(t: Tables, uid: UserId): Permissions.Requester
    requires uid in t.users
  {
    Permissions.Authenticated(uid, t.users[uid].role)
  }

  /** `get_object` for a signed-in user. */
  predicate Found(t: Tables, uid: UserId, oid: OlympiadId)
    requires uid in t.users
  {
    Findable(t, SignedIn(t, uid), oid)
  }

  // ------------------------------------------------------- registration

  /** The attempt service's capacity test: a set, non-zero limit that the participant counter has reached. */
  predicate ServiceFull(o: Olympiad)
  {
    o.maxParticipants.Some? && o.maxParticipants.value != 0 && o.participantsCount >= o.maxParticipants.value
  }

  /**
   * `OlympiadService.register_user`: refuses a second registration, a full
   * olympiad and, for a priced olympiad, a balance below the price; otherwise
   * adds one registration, paid exactly when the olympiad is free.  The
   * balance is checked but never charged.
   */
  function RegisterUser(t: Tables, uid: UserId, oid: OlympiadId): (r: Step)
    requires uid in t.users && oid in t.olympiads
    ensures Valid(t) ==> Valid(r.t)
    ensures r.t.users == t.users
    ensures (uid, oid) in t.registrations ==> r.err == Some(AlreadyRegistered)
    ensures (uid, oid) !in t.registrations && ServiceFull(t.olympiads[oid]) ==> r.err == Some(Full)
    ensures r.err.None? <==>
      (uid, oid) !in t.registrations && !ServiceFull(t.olympiads[oid])
      && !(t.olympiads[oid].price > 0.0 && t.users[uid].balance < t.olympiads[oid].price)
    ensures r.err.Some? ==> r.t == t
    ensures r.err.None? ==> r.t == t.(registrations := t.registrations[(uid, oid) := t.olympiads[oid].price == 0.0])
  {
    var o := t.olympiads[oid];
    if (uid, oid) in t.registrations then Step(t, Some(AlreadyRegistered))
    else if ServiceFull(o) then Step(t, Some(Full))
    else if o.price > 0.0 && t.users[uid].balance < o.price then Step(t, Some(InsufficientBalance))
    else Step(t.(registrations := t.registrations[(uid, oid) := o.price == 0.0]), None)
  }

  /** `max_participants` is set: present and not zero. */
  predicate HasLimit(o: Olympiad)
  {
    o.maxParticipants.Some? && o.maxParticipants.value != 0
  }

  /**
   * `register_user` as written: `Olympiad` declares no `participants_count`,
   * so past the duplicate check a set limit makes the capacity test raise
   * before anything is saved; without a limit the call runs as intended.
   */
  function RegisterUserAsWritten(t: Tables, uid: UserId, oid: OlympiadId): Step
    requires uid in t.users && oid in t.olympiads
  {
    if (uid, oid) in t.registrations then Step(t, Some(AlreadyRegistered))
    else if HasLimit(t.olympiads[oid]) then Step(t, Some(AttributeError))
    else RegisterUser(t, uid, oid)
  }

  /**
   * As written, a free olympiad with a limit and seats left refuses every
   * new participant, where the intended service registers them.
   */
  lemma RegisterUserAsWrittenRefusesOpenSeats(t: Tables, uid: UserId, oid: OlympiadId)
    requires uid in t.users && oid in t.olympiads && (uid, oid) !in t.registrations
    requires HasLimit(t.olympiads[oid]) && !ServiceFull(t.olympiads[oid]) && t.olympiads[oid].price == 0.0
    ensures RegisterUserAsWritten(t, uid, oid) == Step(t, Some(AttributeError))
    ensures RegisterUser(t, uid, oid) == Step(t.(registrations := t.registrations[(uid, oid) := true]), None)
  {
  }

  /** Without a limit the written and the intended registration agree. */
  lemma RegisterUserAgreesWithoutLimit(t: Tables, uid: UserId, oid: OlympiadId)
    requires uid in t.users && oid in t.olympiads && !HasLimit(t.olympiads[oid])
    ensures RegisterUserAsWritten(t, uid, oid) == RegisterUser(t, uid, oid)
  {
  }

  /** The registrations an olympiad has. */
  function RegistrationCount(regs: map<(UserId, OlympiadId), bool>, oid: OlympiadId): nat
  {
    |set k | k in regs && k.1 == oid|
  }

  /** A COMPLETED OLYMPIAD payment by this user whose reference is the olympiad id. */
  predicate HasOlympiadPayment(payments: seq<Payment>, uid: UserId, oid: OlympiadId)
  {
    exists i :: 0 <= i < |payments| && payments[i].userId == uid && payments[i].ptype == "OLYMPIAD"
      && payments[i].referenceId == IntToString(oid) && payments[i].status == PayCompleted
  }

  /**
   * The `register` action: an olympiad the user cannot find is 404; it
   * refuses a COMPLETED olympiad, a second
   * registration and a reached (non-zero) limit counted over the actual
   * registrations; a priced olympiad needs a COMPLETED payment for it.  A
   * successful registration is always marked paid.
   */
  function Register(t: Tables, uid: UserId, oid: OlympiadId): (r: Step)
    requires uid in t.users
    ensures Valid(t) ==> Valid(r.t)
    ensures !Found(t, uid, oid) ==> r.err == Some(DoesNotExist)
    ensures r.err.Some? ==> r.t == t
    ensures r.err.None? <==>
      Found(t, uid, oid) && t.olympiads[oid].status != Completed && (uid, oid) !in t.registrations
      && !(t.olympiads[oid].maxParticipants.Some? && t.olympiads[oid].maxParticipants.value != 0
           && RegistrationCount(t.registrations, oid) >= t.olympiads[oid].maxParticipants.value)
      && (t.olympiads[oid].price > 0.0 ==> HasOlympiadPayment(t.payments, uid, oid))
    ensures r.err == Some(PaymentRequired) ==> t.olympiads[oid].price > 0.0
    ensures r.err.None? ==> r.t == t.(registrations := t.registrations[(uid, oid) := true])
  {
    if !Found(t, uid, oid) then Step(t, Some(DoesNotExist))
    else
      var o := t.olympiads[oid];
      if o.status == Completed then Step(t, Some(OlympiadOver))
      else if (uid, oid) in t.registrations then Step(t, Some(AlreadyRegistered))
      else if o.maxParticipants.Some? && o.maxParticipants.value != 0
              && RegistrationCount(t.registrations, oid) >= o.maxParticipants.value then Step(t, Some(Full))
      else if o.price > 0.0 && !HasOlympiadPayment(t.payments, uid, oid) then Step(t, Some(PaymentRequired))
      else Step(t.(registrations := t.registrations[(uid, oid) := true]), None)
  }

  /** With a limit set, a successful view registration never takes the count past it. */
  lemma RegisterRespectsLimit(t: Tables, uid: UserId, oid: OlympiadId)
    requires uid in t.users && oid in t.olympiads
    requires t.olympiads[oid].maxParticipants.Some? && t.olympiads[oid].maxParticipants.value > 0
    requires RegistrationCount(t.registrations, oid) <= t.olympiads[oid].maxParticipants.value
    ensures RegistrationCount(Register(t, uid, oid).t.registrations, oid) <= t.olympiads[oid].maxParticipants.value
  {
    var r := Register(t, uid, oid);
    if r.err.None? {
      var before := set k | k in t.registrations && k.1 == oid;
      var after := set k | k in r.t.registrations && k.1 == oid;
      assert after == before + {(uid, oid)};
    }
  }

  // ----------------------------------------------------------- attempts

  /** A freshly created attempt: no answers, IN_PROGRESS, started now. */
  function FreshAttempt(uid: UserId, oid: OlympiadId, now: int): TestResult
  {
    TestResult(uid, oid, [], 0, 0.0, 0, 0, InProgress, now)
  }

  /**
   * The schedule check of `start_test`, skipped while ONGOING: a missing start
   * date fails the comparison, then too early and too late are refused.
   */
  function WindowError(o: Olympiad, now: int): (e: Option<EngineError>)
    ensures e.None? <==>
      (o.status == Ongoing
       || (o.startDate.Some? && o.startDate.value <= now && (o.endDate.None? || now <= o.endDate.value)))
  {
    if o.status == Ongoing then None
    else if o.startDate.None? then Some(NoStartDate)
    else if now < o.startDate.value then Some(NotStarted)
    else if o.endDate.Some? && now > o.endDate.value then Some(Finished)
    else None
  }

  /** The attempt's timer ran out: more than `duration` minutes since it was created. */
  predicate TimerExpired(o: Olympiad, a: TestResult, now: int)
  {
    now - a.submittedAt > o.duration * 60
  }

  /**
   * `OlympiadService.start_test`.  After the schedule and registration checks
   * a COMPLETED attempt is replaced by a fresh one when re-takes are allowed
   * and refused otherwise; any other attempt (IN_PROGRESS or DISQUALIFIED)
   * is replaced once its timer has run out and kept as it is before that.
   */
  function StartTest(t: Tables, uid: UserId, oid: OlympiadId, now: int): (r: Step)
    requires uid in t.users
    ensures Valid(t) ==> Valid(r.t)
    ensures oid !in t.olympiads ==> r.err == Some(DoesNotExist)
    ensures oid in t.olympiads && WindowError(t.olympiads[oid], now).Some? ==> r.err == WindowError(t.olympiads[oid], now)
    ensures oid in t.olympiads && WindowError(t.olympiads[oid], now).None? && (uid, oid) !in t.registrations
      ==> r.err == Some(NotRegistered)
    ensures r.err.Some? ==> r.t == t
    ensures r.err == Some(AlreadySubmitted) <==>
      oid in t.olympiads && WindowError(t.olympiads[oid], now).None? && (uid, oid) in t.registrations
      && (uid, oid) in t.results && t.results[(uid, oid)].status == AttemptCompleted && t.olympiads[oid].maxAttempts <= 1
    ensures r.err.None? ==> (uid, oid) in r.t.results && r.t == t.(results := t.results[(uid, oid) := r.t.results[(uid, oid)]])
    ensures r.err.None? && ((uid, oid) !in t.results || t.results[(uid, oid)].status == AttemptCompleted)
      ==> r.t.results[(uid, oid)] == FreshAttempt(uid, oid, now)
    ensures r.err.None? && (uid, oid) in t.results && t.results[(uid, oid)].status != AttemptCompleted
      ==> r.t.results[(uid, oid)] ==
            (if TimerExpired(t.olympiads[oid], t.results[(uid, oid)], now) then FreshAttempt(uid, oid, now)
             else t.results[(uid, oid)])
  {
    if oid !in t.olympiads then Step(t, Some(DoesNotExist))
    else
      var o := t.olympiads[oid];
      var key := (uid, oid);
      if WindowError(o, now).Some? then Step(t, WindowError(o, now))
      else if key !in t.registrations then Step(t, Some(NotRegistered))
      else if key in t.results && t.results[key].status == AttemptCompleted && o.maxAttempts <= 1 then
        Step(t, Some(AlreadySubmitted))
      else
        var a := StartedAttempt(o, t.results, uid, oid, now);
        assert Valid(t) ==> Valid(t.(results := t.results[key := a])) by {
          if Valid(t) {
            ValidWithResult(t, key, a);
          }
        }
        Step(t.(results := t.results[key := a]), None)
  }

  /**
   * The attempt `start_test` leaves under (uid, oid) when it succeeds: a fresh
   * one for a first start, a re-take or an expired timer, the stored one otherwise.
   */
  function StartedAttempt(o: Olympiad, results: map<(UserId, OlympiadId), TestResult>, uid: UserId, oid: OlympiadId, now: int): (a: TestResult)
    ensures a == FreshAttempt(uid, oid, now) || ((uid, oid) in results && a == results[(uid, oid)])
  {
    var key := (uid, oid);
    if key !in results || results[key].status == AttemptCompleted || TimerExpired(o, results[key], now) then
      FreshAttempt(uid, oid, now)
    else results[key]
  }

  /**
   * The `submit_answer` action and `OlympiadService.submit_answer`: a falsy
   * question id or a null answer is refused, then a missing or COMPLETED
   * attempt; otherwise the answer is stored under `str(question_id)` and every
   * other key and column stays as it was.
   */
  function SubmitAnswer(t: Tables, uid: UserId, oid: OlympiadId, questionId: Json, answer: Json): (r: Step)
    ensures Valid(t) ==> Valid(r.t)
    ensures !Truthy(questionId) || answer == JNull ==> r.err == Some(MissingFields)
    ensures r.err.Some? ==> r.t == t
    ensures r.err.None? <==>
      Truthy(questionId) && answer != JNull && (uid, oid) in t.results && t.results[(uid, oid)].status != AttemptCompleted
    ensures r.err.None? ==>
      (uid, oid) in t.results && (uid, oid) in r.t.results &&
      var a := t.results[(uid, oid)];
      var b := r.t.results[(uid, oid)];
      r.t == t.(results := t.results[(uid, oid) := b])
      && b == a.(answers := b.answers)
      && forall k :: Get(b.answers, k) == if k == Show(questionId) then Some(answer) else Get(a.answers, k)
  {
    var key := (uid, oid);
    if !Truthy(questionId) || answer == JNull then Step(t, Some(MissingFields))
    else if key !in t.results then Step(t, Some(DoesNotExist))
    else
      var a := t.results[key];
      if a.status == AttemptCompleted then Step(t, Some(AlreadySubmitted))
      else
        var b := a.(answers := Put(a.answers, Show(questionId), answer));
        forall k ensures Get(b.answers, k) == if k == Show(questionId) then Some(answer) else Get(a.answers, k) {
          PutGet(a.answers, Show(questionId), answer, k);
        }
        Step(t.(results := t.results[key := b]), None)
  }

  /** `timedelta.seconds`: the seconds part of a duration, always in 0..86399 (days are dropped). */
  function DeltaSeconds(d: int): (s: int)
    ensures 0 <= s < 86400
    ensures 0 <= d < 86400 ==> s == d
  {
    d % 86400
  }

  /** The attempt as `finish_test` completes it. */
  function CompletedAttempt(a: TestResult, qs: seq<Question>, now: int): TestResult
  {
    var score := ServiceScore(qs, a.answers);
    a.(score := score, percentage := Percentage(score, TotalPoints(qs)),
       timeTaken := DeltaSeconds(now - a.submittedAt), status := AttemptCompleted)
  }

  /**
   * `OlympiadService.finish_test`: a COMPLETED attempt is returned untouched
   * and earns nothing; any other attempt (a DISQUALIFIED one too) is scored by
   * the attempt service's rule, timed by the seconds part of its age, marked
   * COMPLETED, and the participant receives the olympiad's experience reward.
   */
  function FinishTest(t: Tables, uid: UserId, oid: OlympiadId, now: int): (r: Step)
    requires Valid(t)
    ensures Valid(r.t)
    ensures (uid, oid) !in t.results ==> r == Step(t, Some(DoesNotExist))
    ensures (uid, oid) in t.results && t.results[(uid, oid)].status == AttemptCompleted ==> r == Step(t, None)
    ensures (uid, oid) in t.results && t.results[(uid, oid)].status != AttemptCompleted ==>
      var a := t.results[(uid, oid)];
      var o := t.olympiads[oid];
      r.err.None?
      && r.t == t.(results := t.results[(uid, oid) := CompletedAttempt(a, o.questions, now)],
                   users := t.users[uid := AddXp(t.users[uid], o.xpReward)])
      && r.t.results[(uid, oid)].status == AttemptCompleted
      && (NonNegativePoints(o.questions) ==> 0 <= r.t.results[(uid, oid)].score <= TotalPoints(o.questions))
  {
    var key := (uid, oid);
    if key !in t.results then Step(t, Some(DoesNotExist))
    else
      var a := t.results[key];
      if a.status == AttemptCompleted then Step(t, None)
      else
        var o := t.olympiads[oid];
        assert NonNegativePoints(o.questions) ==> 0 <= ServiceScore(o.questions, a.answers) <= TotalPoints(o.questions) by {
          if NonNegativePoints(o.questions) {
            ServiceScoreBounds(o.questions, a.answers);
          }
        }
        Step(t.(results := t.results[key := CompletedAttempt(a, o.questions, now)],
                users := t.users[uid := AddXp(t.users[uid], o.xpReward)]), None)
  }

  /** Finishing twice is finishing once: the second call changes nothing and grants no experience. */
  lemma FinishTestIdempotent(t: Tables, uid: UserId, oid: OlympiadId, now: int, later: int)
    requires Valid(t) && (uid, oid) in t.results
    ensures FinishTest(FinishTest(t, uid, oid, now).t, uid, oid, later) == Step(FinishTest(t, uid, oid, now).t, None)
  {
  }

  /** Finishing never lowers a participant's experience or level. */
  lemma FinishTestNeverLowersXp(t: Tables, uid: UserId, oid: OlympiadId, now: int)
    requires Valid(t) && uid in t.users && LevelConsistent(t.users[uid])
    ensures FinishTest(t, uid, oid, now).t.users[uid].xp >= t.users[uid].xp
    ensures FinishTest(t, uid, oid, now).t.users[uid].level >= t.users[uid].level
  {
    AddXpNeverDecreases(t.users[uid], if oid in t.olympiads then t.olympiads[oid].xpReward else 0);
  }

  // ---------------------------------------------------- one-shot submit

  /** What the submit serializer accepts: non-blank answers and non-negative counters. */
  predicate SubmissionValid(answers: seq<(string, string)>, timeTaken: int, tabSwitches: int)
  {
    (forall i :: 0 <= i < |answers| ==> Strip(answers[i].1) != "") && timeTaken >= 0 && tabSwitches >= 0
  }

  /** The answers as the serializer hands them over: every value trimmed. */
  function Trimmed(answers: seq<(string, string)>): (r: seq<(string, string)>)
    ensures |r| == |answers|
    ensures forall i :: 0 <= i < |r| ==> r[i] == (answers[i].0, Strip(answers[i].1))
  {
    seq(|answers|, i requires 0 <= i < |answers| => (answers[i].0, Strip(answers[i].1)))
  }

  /** The submitted answers as stored JSON strings. */
  function AsJson(answers: seq<(string, string)>): (r: Answers)
    ensures |r| == |answers|
    ensures forall i :: 0 <= i < |r| ==> r[i] == (answers[i].0, JStr(answers[i].1))
  {
    seq(|answers|, i requires 0 <= i < |answers| => (answers[i].0, JStr(answers[i].1)))
  }

  /** The `submit` disqualification rule. */
  function SubmitStatus(o: Olympiad, tabSwitches: int): (s: AttemptStatus)
    ensures s == Disqualified <==> o.tabSwitchLimit > 0 && tabSwitches > o.tabSwitchLimit
    ensures s != InProgress
  {
    if o.tabSwitchLimit > 0 && tabSwitches > o.tabSwitchLimit then Disqualified else AttemptCompleted
  }

  /** A row may be filed under its own key when its user and olympiad exist. */
  lemma ValidWithResult(t: Tables, key: (UserId, OlympiadId), row: TestResult)
    requires Valid(t) && row.userId == key.0 && row.olympiadId == key.1 && key.0 in t.users && key.1 in t.olympiads
    ensures Valid(t.(results := t.results[key := row]))
  {
  }

  /** An existing user's row may be replaced by one with the same id. */
  lemma ValidWithUser(t: Tables, uid: UserId, u: UserRow)
    requires Valid(t) && uid in t.users && u.id == uid
    ensures Valid(t.(users := t.users[uid := u]))
  {
  }

  /** The row `submit` stores: the previous row updated in place, or a new one created now. */
  function SubmittedRow(prev: Option<TestResult>, uid: UserId, oid: OlympiadId, o: Olympiad,
                        answers: seq<(string, string)>, timeTaken: int, tabSwitches: int, now: int): (row: TestResult)
    ensures row.userId == (if prev.Some? then prev.value.userId else uid)
    ensures row.olympiadId == (if prev.Some? then prev.value.olympiadId else oid)
    ensures row.status == SubmitStatus(o, tabSwitches)
    ensures row.score == SubmitScore(o.questions, Trimmed(answers))
    ensures row.percentage == Percentage(row.score, TotalPoints(o.questions))
    ensures row.answers == AsJson(Trimmed(answers))
    ensures row.timeTaken == timeTaken && row.tabSwitches == tabSwitches
    ensures row.submittedAt == (if prev.Some? then prev.value.submittedAt else now)
    ensures NonNegativePoints(o.questions) ==> 0 <= row.score <= TotalPoints(o.questions)
  {
    var clean := Trimmed(answers);
    var score := SubmitScore(o.questions, clean);
    var pct := Percentage(score, TotalPoints(o.questions));
    assert NonNegativePoints(o.questions) ==> 0 <= score <= TotalPoints(o.questions) by {
      if NonNegativePoints(o.questions) {
        SubmitScoreBounds(o.questions, clean);
      }
    }
    if prev.Some? then
      prev.value.(answers := AsJson(clean), score := score, percentage := pct,
                  timeTaken := timeTaken, tabSwitches := tabSwitches, status := SubmitStatus(o, tabSwitches))
    else TestResult(uid, oid, AsJson(clean), score, pct, timeTaken, tabSwitches, SubmitStatus(o, tabSwitches), now)
  }

  /** The experience a stored submission earns: only a COMPLETED one earns any. */
  function SubmitReward(u: UserRow, row: TestResult): (r: UserRow)
    ensures row.status != AttemptCompleted ==> r == u
    ensures row.status == AttemptCompleted ==> r == AddXp(u, SubmitXp(row.score, row.percentage))
  {
    if row.status == AttemptCompleted then AddXp(u, SubmitXp(row.score, row.percentage)) else u
  }

  function Lookup(results: map<(UserId, OlympiadId), TestResult>, key: (UserId, OlympiadId)): (r: Option<TestResult>)
    ensures r.Some? <==> key in results
    ensures r.Some? ==> r.value == results[key]
  {
    if key in results then Some(results[key]) else None
  }

  /**
   * The `submit` action.  An olympiad the user cannot find is 404.  After
   * validation it refuses a repeat submission
   * only when the stored result is COMPLETED and re-takes are off; it scores
   * with the stripped comparison (each question once), disqualifies above the
   * tab-switch limit, updates the stored row in place (keeping its creation
   * time) or creates one, and grants experience only to a COMPLETED
   * submission.  Registration and the schedule are not checked.
   */
  function Submit(t: Tables, uid: UserId, oid: OlympiadId, answers: seq<(string, string)>,
                  timeTaken: int, tabSwitches: int, now: int): (r: Step)
    requires Valid(t) && uid in t.users
    ensures Valid(r.t)
    ensures !Found(t, uid, oid) ==> r.err == Some(DoesNotExist)
    ensures Found(t, uid, oid) && !SubmissionValid(answers, timeTaken, tabSwitches) ==> r.err == Some(InvalidSubmission)
    ensures r.err.Some? ==> r.t == t
    ensures r.err == Some(AlreadySubmitted) <==>
      Found(t, uid, oid) && SubmissionValid(answers, timeTaken, tabSwitches)
      && (uid, oid) in t.results && t.results[(uid, oid)].status == AttemptCompleted && t.olympiads[oid].maxAttempts <= 1
    ensures r.err.None? ==>
      Found(t, uid, oid) &&
      var row := SubmittedRow(Lookup(t.results, (uid, oid)), uid, oid, t.olympiads[oid], answers, timeTaken, tabSwitches, now);
      r.t == t.(results := t.results[(uid, oid) := row], users := t.users[uid := SubmitReward(t.users[uid], row)])
  {
    if !Found(t, uid, oid) then Step(t, Some(DoesNotExist))
    else if !SubmissionValid(answers, timeTaken, tabSwitches) then Step(t, Some(InvalidSubmission))
    else
      var o := t.olympiads[oid];
      var key := (uid, oid);
      if key in t.results && t.results[key].status == AttemptCompleted && o.maxAttempts <= 1 then
        Step(t, Some(AlreadySubmitted))
      else
        var row := SubmittedRow(Lookup(t.results, key), uid, oid, o, answers, timeTaken, tabSwitches, now);
        var t1 := t.(results := t.results[key := row]);
        ValidWithResult(t, key, row);
        ValidWithUser(t1, uid, SubmitReward(t.users[uid], row));
        Step(t1.(users := t1.users[uid := SubmitReward(t.users[uid], row)]), None)
  }

  /** A disqualified submission earns no experience. */
  lemma DisqualifiedEarnsNothing(t: Tables, uid: UserId, oid: OlympiadId, answers: seq<(string, string)>,
                                 timeTaken: int, tabSwitches: int, now: int)
    requires Valid(t) && uid in t.users && oid in t.olympiads
    requires t.olympiads[oid].tabSwitchLimit > 0 && tabSwitches > t.olympiads[oid].tabSwitchLimit
    ensures Submit(t, uid, oid, answers, timeTaken, tabSwitches, now).t.users == t.users
  {
  }

  // -------------------------------------------------------- result view

  /** What the `result` action shows. */
  datatype ResultView = NoOlympiad | NoResult | WaitingResults | Shown(result: TestResult, rank: nat)

  /** `rows` lists every stored result once. */
  predicate Enumerates(rows: seq<TestResult>, results: map<(UserId, OlympiadId), TestResult>)
  {
    (forall i :: 0 <= i < |rows| ==>
       (rows[i].userId, rows[i].olympiadId) in results && results[(rows[i].userId, rows[i].olympiadId)] == rows[i])
    && (forall k :: k in results ==> results[k] in rows)
    && (forall i, j :: 0 <= i < j < |rows| ==> rows[i] != rows[j])
  }

  /**
   * The `result` action: an olympiad the user cannot find is 404, and so is
   * no stored result; before the result time the
   * participant waits; afterwards the rank is one plus the number of results
   * of the olympiad, of any status, with a strictly higher score.
   */
  function Result(t: Tables, uid: UserId, oid: OlympiadId, now: int, rows: seq<TestResult>): (v: ResultView)
    requires Enumerates(rows, t.results) && uid in t.users
    ensures v == NoOlympiad <==> !Found(t, uid, oid)
    ensures Found(t, uid, oid) && (uid, oid) !in t.results ==> v == NoResult
    ensures v.WaitingResults? <==> Found(t, uid, oid) && (uid, oid) in t.results && !ResultsOpen(t.olympiads[oid], now)
    ensures v.Shown? ==> Found(t, uid, oid) && v.result == t.results[(uid, oid)] && v.rank >= 1
  {
    if !Found(t, uid, oid) then NoOlympiad
    else if (uid, oid) !in t.results then NoResult
    else if !Ranking.ResultsOpen(t.olympiads[oid], now) then WaitingResults
    else Shown(t.results[(uid, oid)], ResultRank(rows, oid, t.results[(uid, oid)]))
  }

  /** The top score is ranked first. */
  lemma TopScoreRanksFirst(t: Tables, uid: UserId, oid: OlympiadId, now: int, rows: seq<TestResult>)
    requires Enumerates(rows, t.results) && uid in t.users && Found(t, uid, oid) && (uid, oid) in t.results
    requires Ranking.ResultsOpen(t.olympiads[oid], now)
    requires forall k :: k in t.results ==> t.results[k].score <= t.results[(uid, oid)].score
    ensures Result(t, uid, oid, now, rows) == Shown(t.results[(uid, oid)], 1)
  {
    var me := t.results[(uid, oid)];
    NoneHigher(AllOf(rows, oid), me.score, rows, t.results);
  }

  lemma {:induction false} NoneHigher(s: seq<TestResult>, score: int, rows: seq<TestResult>,
                                      results: map<(UserId, OlympiadId), TestResult>)
    requires Enumerates(rows, results)
    requires forall x :: x in s ==> x in rows
    requires forall k :: k in results ==> results[k].score <= score
    ensures CountHigherScore(s, score) == 0
  {
    if s != [] {
      var x := s[|s| - 1];
      assert x in rows;
      var i :| 0 <= i < |rows| && rows[i] == x;
      NoneHigher(s[..|s| - 1], score, rows, results);
    }
  }

  // ------------------------------------------------ ranking and leaderboard views

  /**
   * The `ranking` action: 404 when the requester cannot find the olympiad;
   * otherwise every COMPLETED result of it, each once, ranked 1, 2, … by
   * score, time and submission.
   */
  function RankingView(t: Tables, req: Permissions.Requester, oid: OlympiadId, rows: seq<TestResult>): (r: Option<seq<Ranked>>)
    ensures r.None? <==> !Findable(t, req, oid)
    ensures r.Some? ==> multiset(Results(r.value)) == multiset(CompletedOf(rows, oid))
    ensures r.Some? ==> forall i :: 0 <= i < |r.value| ==> r.value[i].position == i + 1
  {
    if !Findable(t, req, oid) then None
    else
      StaffRankingIsPermutation(rows, oid);
      Some(StaffRanking(rows, oid))
  }

  /**
   * The permission override of the olympiad views grants the `ranking`
   * action to anybody: an anonymous visitor gets the full ranking of an
   * active olympiad.
   */
  lemma AnonymousSeesStaffRanking(t: Tables, oid: OlympiadId, rows: seq<TestResult>)
    requires oid in t.olympiads && t.olympiads[oid].isActive
    ensures RankingView(t, Permissions.Anonymous, oid, rows).Some?
    ensures multiset(Results(RankingView(t, Permissions.Anonymous, oid, rows).value)) == multiset(CompletedOf(rows, oid))
  {
  }

  /**
   * The `leaderboard` action: 404 when the requester cannot find the
   * olympiad; otherwise the rows `LeaderboardRows` gives, staff being a
   * signed-in teacher or admin.  A teacher sees rows only of an olympiad
   * they teach.
   */
  function LeaderboardView(t: Tables, req: Permissions.Requester, oid: OlympiadId, now: int, rows: seq<TestResult>)
    : (r: Option<seq<TestResult>>)
    ensures r.None? <==> !Findable(t, req, oid)
    ensures r.Some? ==> r.value == LeaderboardRows(Permissions.IsTeacherOrAdmin(req), t.olympiads[oid], now, rows, oid)
    ensures r.Some? && Permissions.IsTeacher(req) ==> t.olympiads[oid].teacher == Some(req.id)
  {
    if !Findable(t, req, oid) then None
    else Some(LeaderboardRows(Permissions.IsTeacherOrAdmin(req), t.olympiads[oid], now, rows, oid))
  }

  /**
   * A student cannot find an inactive olympiad: register and submit answer
   * 404 and change nothing, and the result, ranking and leaderboard views
   * show nothing.
   */
  lemma HiddenOlympiadNotFound(t: Tables, uid: UserId, oid: OlympiadId, answers: seq<(string, string)>,
                               timeTaken: int, tabSwitches: int, now: int, rows: seq<TestResult>)
    requires Valid(t) && uid in t.users && t.users[uid].role == Student
    requires oid in t.olympiads && !t.olympiads[oid].isActive
    requires Enumerates(rows, t.results)
    ensures Register(t, uid, oid) == Step(t, Some(DoesNotExist))
    ensures Submit(t, uid, oid, answers, timeTaken, tabSwitches, now) == Step(t, Some(DoesNotExist))
    ensures Result(t, uid, oid, now, rows) == NoOlympiad
    ensures RankingView(t, SignedIn(t, uid), oid, rows).None?
    ensures LeaderboardView(t, SignedIn(t, uid), oid, now, rows).None?
  {
  }

  /** A teacher cannot find another teacher's olympiad, so its leaderboard is not shown to them. */
  lemma OtherTeachersLeaderboardNotFound(t: Tables, uid: UserId, oid: OlympiadId, now: int, rows: seq<TestResult>)
    requires uid in t.users && t.users[uid].role == Teacher
    requires oid in t.olympiads && t.olympiads[oid].teacher != Some(uid)
    ensures LeaderboardView(t, SignedIn(t, uid), oid, now, rows).None?
  {
  }

  // ------------------------------------------------ publish and rewards

  function LedgerOf(t: Tables): Ledger
  {
    Ledger(t.users, t.transactions, t.winners)
  }

  lemma {:induction false} RankedResultsInRows(rows: seq<TestResult>, oid: OlympiadId, e: Ranked)
    requires e in CalculateRankings(rows, oid)
    ensures e.result in rows
  {
    var r := CalculateRankings(rows, oid);
    RankingsArePermutation(rows, oid);
    ResultsContains(r, e);
    assert e.result in multiset(CompletedOf(rows, oid));
  }

  lemma {:induction false} ResultsContains(r: seq<Ranked>, e: Ranked)
    requires e in r
    ensures e.result in Results(r)
  {
    if r[0] != e {
      ResultsContains(r[1..], e);
    }
  }

  lemma AwardeesPresent(t: Tables, oid: OlympiadId, rows: seq<TestResult>, o: Olympiad)
    requires Valid(t) && Enumerates(rows, t.results)
    ensures UsersPresent(LedgerOf(t), Awards(o.rewardStrategy, o.prizes, CalculateRankings(rows, oid)))
  {
    var ranked := CalculateRankings(rows, oid);
    var awards := Awards(o.rewardStrategy, o.prizes, ranked);
    forall i | 0 <= i < |awards| ensures awards[i].0.result.userId in t.users {
      AwardsMembers(o.rewardStrategy, o.prizes, ranked, awards[i].0, awards[i].1);
      RankedResultsInRows(rows, oid, awards[i].0);
    }
  }

  /**
   * `RewardService.distribute_rewards` on the stored tables; `rows` is the
   * order the database returns the results in, which breaks ties.  A missing
   * olympiad ends in false with nothing saved.
   */
  function DistributeRewards(t: Tables, oid: OlympiadId, rows: seq<TestResult>, failAt: Option<nat>, now: int)
    : (r: (Tables, bool))
    requires Valid(t) && Enumerates(rows, t.results)
    ensures Valid(r.0)
    ensures oid !in t.olympiads ==> r == (t, false)
    ensures oid in t.olympiads && t.olympiads[oid].rewardDistributionStatus == DistCompleted ==> r == (t, false)
    ensures r.0.olympiads.Keys == t.olympiads.Keys
    ensures r.0 == t.(olympiads := r.0.olympiads, users := r.0.users, transactions := r.0.transactions, winners := r.0.winners)
  {
    if oid !in t.olympiads then (t, false)
    else
      var o := t.olympiads[oid];
      if o.rewardDistributionStatus == DistCompleted then
        assert t.olympiads[oid := o.(rewardDistributionStatus := DistCompleted)] == t.olympiads;
        (t, false)
      else
        AwardeesPresent(t, oid, rows, o);
        var d := Distribute(o, oid, LedgerOf(t), CalculateRankings(rows, oid), failAt, now);
        (WithDistributionStatus(WithLedger(t, d.ledger), oid, d.status), d.ok)
  }

  /** The tables with an olympiad's distribution status saved. */
  function WithDistributionStatus(t: Tables, oid: OlympiadId, status: DistributionStatus): (r: Tables)
    requires Valid(t) && oid in t.olympiads
    ensures Valid(r)
    ensures r == t.(olympiads := t.olympiads[oid := t.olympiads[oid].(rewardDistributionStatus := status)])
  {
    t.(olympiads := t.olympiads[oid := t.olympiads[oid].(rewardDistributionStatus := status)])
  }

  /** The tables with a ledger written back; validity survives since grants keep the set of users. */
  function WithLedger(t: Tables, l: Ledger): (r: Tables)
    requires Valid(t) && l.users.Keys == t.users.Keys && forall u :: u in l.users ==> l.users[u].id == u
    ensures Valid(r) && LedgerOf(r) == l
    ensures r == t.(users := l.users, transactions := l.transactions, winners := l.winners)
  {
    t.(users := l.users, transactions := l.transactions, winners := l.winners)
  }

  /** Once a distribution has completed, no later run grants anything again. */
  lemma DistributeOnce(t: Tables, oid: OlympiadId, rows: seq<TestResult>, failAt: Option<nat>, failAt2: Option<nat>, now: int, later: int)
    requires Valid(t) && Enumerates(rows, t.results) && oid in t.olympiads
    requires DistributeRewards(t, oid, rows, failAt, now).1
    ensures Enumerates(rows, DistributeRewards(t, oid, rows, failAt, now).0.results)
    ensures DistributeRewards(DistributeRewards(t, oid, rows, failAt, now).0, oid, rows, failAt2, later)
      == (DistributeRewards(t, oid, rows, failAt, now).0, false)
  {
  }

  /**
   * `OlympiadService.publish_results`: the olympiad becomes PUBLISHED with
   * results open from now, and with automatic rewards the distribution runs.
   */
  function PublishResults(t: Tables, oid: OlympiadId, rows: seq<TestResult>, failAt: Option<nat>, now: int): (r: Step)
    requires Valid(t) && Enumerates(rows, t.results)
    ensures Valid(r.t)
    ensures oid !in t.olympiads ==> r == Step(t, Some(DoesNotExist))
    ensures oid in t.olympiads ==>
      r.err.None? && oid in r.t.olympiads
      && r.t.olympiads[oid].status == Published && r.t.olympiads[oid].resultTime == Some(now)
    ensures oid in t.olympiads && !t.olympiads[oid].autoReward ==>
      r.t == t.(olympiads := t.olympiads[oid := t.olympiads[oid].(status := Published, resultTime := Some(now))])
    ensures oid in t.olympiads && t.olympiads[oid].autoReward ==>
      var t1 := t.(olympiads := t.olympiads[oid := t.olympiads[oid].(status := Published, resultTime := Some(now))]);
      Valid(t1) && Enumerates(rows, t1.results) && r.t == DistributeRewards(t1, oid, rows, failAt, now).0
  {
    if oid !in t.olympiads then Step(t, Some(DoesNotExist))
    else
      var t1 := t.(olympiads := t.olympiads[oid := t.olympiads[oid].(status := Published, resultTime := Some(now))]);
      if t1.olympiads[oid].autoReward then Step(DistributeRewards(t1, oid, rows, failAt, now).0, None)
      else Step(t1, None)
  }

  /**
   * `distribute_rewards` as written: `Olympiad` declares no
   * `reward_distribution_status`, so the guard's read raises inside the
   * `try`; the handler sets FAILED as a plain attribute that `save()` does
   * not store, and the call returns false with the tables as they were.
   */
  function DistributeRewardsAsWritten(t: Tables, oid: OlympiadId): (Tables, bool)
  {
    (t, false)
  }

  /**
   * As written, a distribution never runs: even an olympiad without prizes,
   * which the intended run completes at once, ends in false with nothing
   * saved.
   */
  lemma DistributeAsWrittenNeverRuns(t: Tables, oid: OlympiadId, rows: seq<TestResult>, failAt: Option<nat>, now: int)
    requires Valid(t) && Enumerates(rows, t.results) && oid in t.olympiads
    requires t.olympiads[oid].rewardDistributionStatus != DistCompleted && t.olympiads[oid].prizes == []
    ensures DistributeRewardsAsWritten(t, oid) == (t, false)
    ensures var r := DistributeRewards(t, oid, rows, failAt, now);
      r.1 && oid in r.0.olympiads && r.0.olympiads[oid].rewardDistributionStatus == DistCompleted
  {
  }

  /**
   * `publish_results` as written: the PUBLISHED status and the result time
   * are saved, then the read of `auto_reward`, which `Olympiad` does not
   * declare, raises; no distribution runs and the call fails.
   */
  function PublishResultsAsWritten(t: Tables, oid: OlympiadId, now: int): Step
  {
    if oid !in t.olympiads then Step(t, Some(DoesNotExist))
    else Step(t.(olympiads := t.olympiads[oid := t.olympiads[oid].(status := Published, resultTime := Some(now))]),
              Some(AttributeError))
  }

  /**
   * As written, publishing saves the same PUBLISHED row the intended service
   * saves and then fails, where the intended service succeeds; without
   * automatic rewards the saved tables are the same.
   */
  lemma PublishAsWrittenFailsAfterSaving(t: Tables, oid: OlympiadId, rows: seq<TestResult>, failAt: Option<nat>, now: int)
    requires Valid(t) && Enumerates(rows, t.results) && oid in t.olympiads
    ensures var w := PublishResultsAsWritten(t, oid, now);
      w.err == Some(AttributeError) && oid in w.t.olympiads
      && w.t.olympiads[oid].status == Published && w.t.olympiads[oid].resultTime == Some(now)
    ensures PublishResults(t, oid, rows, failAt, now).err.None?
    ensures !t.olympiads[oid].autoReward ==> PublishResults(t, oid, rows, failAt, now).t == PublishResultsAsWritten(t, oid, now).t
  {
  }

  // ------------------------------------------------------------ payments

  /** Payments whose confirmation credits the balance: TOPUP or USERBOT type, or the USERBOT method. */
  predicate CreditsBalance(p: Payment)
  {
    p.ptype == "TOPUP" || p.ptype == "USERBOT" || p.payMethod == "USERBOT"
  }

  function Credit(users: map<UserId, UserRow>, uid: UserId, amount: real): (r: map<UserId, UserRow>)
    requires uid in users
    ensures r.Keys == users.Keys
    ensures r[uid].balance == users[uid].balance + amount
    ensures r[uid] == users[uid].(balance := r[uid].balance)
    ensures forall v :: v in users && v != uid ==> r[v] == users[v]
  {
    users[uid := users[uid].(balance := users[uid].balance + amount)]
  }

  /**
   * The admin `confirm` action: only a PENDING payment can be confirmed; it
   * becomes COMPLETED and, for balance top-ups, the amount is credited.
   */
  function ConfirmPayment(t: Tables, pid: nat): (r: Step)
    requires Valid(t)
    ensures Valid(r.t)
    ensures pid >= |t.payments| ==> r == Step(t, Some(DoesNotExist))
    ensures pid < |t.payments| && t.payments[pid].status != PayPending ==> r == Step(t, Some(NotPending))
    ensures pid < |t.payments| && t.payments[pid].status == PayPending ==>
      var p := t.payments[pid];
      r.err.None?
      && r.t == t.(payments := t.payments[pid := p.(status := PayCompleted)],
                   users := if CreditsBalance(p) then Credit(t.users, p.userId, p.amount) else t.users)
  {
    if pid >= |t.payments| then Step(t, Some(DoesNotExist))
    else
      var p := t.payments[pid];
      if p.status != PayPending then Step(t, Some(NotPending))
      else Step(t.(payments := t.payments[pid := p.(status := PayCompleted)],
                   users := if CreditsBalance(p) then Credit(t.users, p.userId, p.amount) else t.users), None)
  }

  /** The admin `reject` action: a PENDING payment becomes FAILED; nothing else changes. */
  function RejectPayment(t: Tables, pid: nat): (r: Step)
    requires Valid(t)
    ensures Valid(r.t)
    ensures pid >= |t.payments| ==> r == Step(t, Some(DoesNotExist))
    ensures pid < |t.payments| && t.payments[pid].status != PayPending ==> r == Step(t, Some(NotPending))
    ensures pid < |t.payments| && t.payments[pid].status == PayPending ==>
      r == Step(t.(payments := t.payments[pid := t.payments[pid].(status := PayFailed)]), None)
  {
    if pid >= |t.payments| then Step(t, Some(DoesNotExist))
    else if t.payments[pid].status != PayPending then Step(t, Some(NotPending))
    else Step(t.(payments := t.payments[pid := t.payments[pid].(status := PayFailed)]), None)
  }

  /**
   * The admin `refund` action: only a COMPLETED payment can be refunded; it
   * becomes REFUNDED and a top-up's amount is debited even when the balance
   * no longer covers it.
   */
  function RefundPayment(t: Tables, pid: nat): (r: Step)
    requires Valid(t)
    ensures Valid(r.t)
    ensures pid >= |t.payments| ==> r == Step(t, Some(DoesNotExist))
    ensures pid < |t.payments| && t.payments[pid].status != PayCompleted ==> r == Step(t, Some(NotCompletedPayment))
    ensures pid < |t.payments| && t.payments[pid].status == PayCompleted ==>
      var p := t.payments[pid];
      r.err.None?
      && r.t == t.(payments := t.payments[pid := p.(status := PayRefunded)],
                   users := if CreditsBalance(p) then Credit(t.users, p.userId, -p.amount) else t.users)
  {
    if pid >= |t.payments| then Step(t, Some(DoesNotExist))
    else
      var p := t.payments[pid];
      if p.status != PayCompleted then Step(t, Some(NotCompletedPayment))
      else
        // both branches of the source's balance check debit the full amount
        Step(t.(payments := t.payments[pid := p.(status := PayRefunded)],
                users := if CreditsBalance(p) then Credit(t.users, p.userId, -p.amount) else t.users), None)
  }

  /** Confirming a top-up and then refunding it leaves the balance where it was. */
  lemma ConfirmThenRefund(t: Tables, pid: nat)
    requires Valid(t) && pid < |t.payments| && t.payments[pid].status == PayPending
    ensures var u := t.payments[pid].userId;
      RefundPayment(ConfirmPayment(t, pid).t, pid).t.users[u] == t.users[u]
  {
    var p := t.payments[pid];
    var t1 := ConfirmPayment(t, pid).t;
    assert t1.payments[pid] == p.(status := PayCompleted);
  }

  /**
   * The wallet `top_up` action: a missing or non-positive amount is refused;
   * otherwise a COMPLETED WALLET_TOPUP payment is recorded and the balance
   * credited.
   */
  function TopUp(t: Tables, uid: UserId, amount: Option<real>, payMethod: string): (r: Step)
    requires Valid(t) && uid in t.users
    ensures Valid(r.t)
    ensures amount.None? || amount.value <= 0.0 ==> r == Step(t, Some(BadAmount))
    ensures amount.Some? && amount.value > 0.0 ==>
      r == Step(t.(payments := t.payments + [Payment(uid, amount.value, "WALLET_TOPUP", "WALLET", payMethod, PayCompleted)],
                   users := Credit(t.users, uid, amount.value)), None)
  {
    if amount.None? || amount.value <= 0.0 then Step(t, Some(BadAmount))
    else Step(t.(payments := t.payments + [Payment(uid, amount.value, "WALLET_TOPUP", "WALLET", payMethod, PayCompleted)],
                 users := Credit(t.users, uid, amount.value)), None)
  }

  /** A course bought from the wallet: price debited, payment recorded, enrollment created, student count raised. */
  function PurchaseCourse(t: Tables, uid: UserId, cid: CourseId): (r: Step)
    requires Valid(t) && uid in t.users
    ensures Valid(r.t)
    ensures r.err.Some? ==> r.t == t
    ensures r.err.None? <==> cid in t.courses && (uid, cid) !in t.enrollments && t.users[uid].balance >= t.courses[cid].price
    ensures r.err.None? ==>
      var c := t.courses[cid];
      r.t == t.(users := Credit(t.users, uid, -c.price),
                payments := t.payments + [Payment(uid, c.price, "COURSE", IntToString(cid), "WALLET", PayCompleted)],
                enrollments := t.enrollments + {(uid, cid)},
                courses := t.courses[cid := c.(studentsCount := c.studentsCount + 1)])
  {
    if cid !in t.courses then Step(t, Some(DoesNotExist))
    else if (uid, cid) in t.enrollments then Step(t, Some(AlreadyEnrolled))
    else
      var c := t.courses[cid];
      if t.users[uid].balance < c.price then Step(t, Some(InsufficientBalance))
      else Step(t.(users := Credit(t.users, uid, -c.price),
                   payments := t.payments + [Payment(uid, c.price, "COURSE", IntToString(cid), "WALLET", PayCompleted)],
                   enrollments := t.enrollments + {(uid, cid)},
                   courses := t.courses[cid := c.(studentsCount := c.studentsCount + 1)]), None)
  }

  /**
   * An olympiad bought from the wallet: price debited, payment recorded,
   * registration created as paid, participation reward granted.  Neither the
   * olympiad's status nor its capacity is checked.
   */
  function PurchaseOlympiad(t: Tables, uid: UserId, oid: OlympiadId): (r: Step)
    requires Valid(t) && uid in t.users
    ensures Valid(r.t)
    ensures r.err.Some? ==> r.t == t
    ensures r.err.None? <==> oid in t.olympiads && (uid, oid) !in t.registrations && t.users[uid].balance >= t.olympiads[oid].price
    ensures r.err.None? ==>
      var o := t.olympiads[oid];
      var u := t.users[uid];
      r.t == t.(users := t.users[uid := AddXp(u.(balance := u.balance - o.price), o.xpReward)],
                payments := t.payments + [Payment(uid, o.price, "OLYMPIAD", IntToString(oid), "WALLET", PayCompleted)],
                registrations := t.registrations[(uid, oid) := true])
  {
    if oid !in t.olympiads then Step(t, Some(DoesNotExist))
    else if (uid, oid) in t.registrations then Step(t, Some(AlreadyRegistered))
    else
      var o := t.olympiads[oid];
      var u := t.users[uid];
      if u.balance < o.price then Step(t, Some(InsufficientBalance))
      else
        var t1 := t.(payments := t.payments + [Payment(uid, o.price, "OLYMPIAD", IntToString(oid), "WALLET", PayCompleted)],
                     registrations := t.registrations[(uid, oid) := true]);
        ValidWithUser(t1, uid, AddXp(u.(balance := u.balance - o.price), o.xpReward));
        Step(t1.(users := t1.users[uid := AddXp(u.(balance := u.balance - o.price), o.xpReward)]), None)
  }

  /**
   * The wallet `purchase` action: missing data and an unknown item type are
   * refused; a course or an olympiad is bought as above.  A successful
   * purchase never overdraws the balance.
   */
  function Purchase(t: Tables, uid: UserId, itemType: string, itemId: int): (r: Step)
    requires Valid(t) && uid in t.users
    ensures Valid(r.t)
    ensures r.err.Some? ==> r.t == t
    ensures itemType == "" || itemId == 0 ==> r.err == Some(MissingFields)
    ensures itemType != "" && itemId != 0 && itemType != "COURSE" && itemType != "OLYMPIAD" ==> r.err == Some(InvalidType)
    ensures itemType != "" && itemId != 0 && itemType == "COURSE" ==> r == PurchaseCourse(t, uid, itemId)
    ensures itemType != "" && itemId != 0 && itemType == "OLYMPIAD" ==> r == PurchaseOlympiad(t, uid, itemId)
    ensures r.err.None? ==> uid in r.t.users && r.t.users[uid].balance >= 0.0
  {
    if itemType == "" || itemId == 0 then Step(t, Some(MissingFields))
    else if itemType == "COURSE" then PurchaseCourse(t, uid, itemId)
    else if itemType == "OLYMPIAD" then PurchaseOlympiad(t, uid, itemId)
    else Step(t, Some(InvalidType))
  }

  /**
   * A purchase of an olympiad leaves behind exactly the payment the
   * `register` action looks for, so a priced olympiad bought from the wallet
   * is not asked to be paid again.
   */
  lemma PurchaseSatisfiesRegisterPayment(t: Tables, uid: UserId, oid: OlympiadId)
    requires Valid(t) && uid in t.users && oid != 0
    requires Purchase(t, uid, "OLYMPIAD", oid).err.None?
    ensures HasOlympiadPayment(Purchase(t, uid, "OLYMPIAD", oid).t.payments, uid, oid)
  {
    var p := Purchase(t, uid, "OLYMPIAD", oid).t.payments;
    assert p[|p| - 1].userId == uid;
  }
}
