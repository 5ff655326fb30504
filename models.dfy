/**
 * The table shapes of the olympiad engine and the pure or field-assigning
 * model methods: levels from experience, level progress, schedule-driven
 * olympiad status, slug selection, course activation checks and
 * verification-code validity.
 */
module Models {
  import opened Text

  type UserId = int
  type OlympiadId = int
  type QuestionId = int
  type CourseId = int
  type LessonId = int

  /** `int(x)` on a number: truncation toward zero. */
  function Trunc(x: real): (r: int)
    ensures x >= 0.0 ==> r == x.Floor
    ensures x < 0.0 ==> r == -((-x).Floor)
    ensures r as real <= x < r as real + 1.0 || r as real - 1.0 < x <= r as real
  {
    if x >= 0.0 then x.Floor else -((-x).Floor)
  }

  // ---------------------------------------------------------------- users

  datatype Role = Student | Teacher | Admin

  /** The columns of a user row the services read and write; money is exact. */
  datatype UserRow = UserRow(id: UserId, role: Role, xp: int, level: int, balance: real, telegramId: Option<int>)

  /** `User.calculate_level`: 500 experience points per level, starting at level 1. */
  function CalculateLevel(xp: int): (level: int)
    ensures 500 * (level - 1) <= xp < 500 * level
  {
    xp / 500 + 1
  }

  /** More experience never means a lower level. */
  lemma CalculateLevelMonotone(a: int, b: int)
    requires a <= b
    ensures CalculateLevel(a) <= CalculateLevel(b)
  {
  }

  /**
   * `User.add_xp`: a non-positive amount changes nothing; otherwise the
   * experience grows by the amount and the level is recomputed from it.
   * Nothing else in the row changes.
   */
  function AddXp(u: UserRow, amount: int): (r: UserRow)
    ensures amount <= 0 ==> r == u
    ensures amount > 0 ==> r.xp == u.xp + amount && 500 * (r.level - 1) <= r.xp < 500 * r.level
    ensures r.(xp := u.xp, level := u.level) == u
  {
    if amount <= 0 then u
    else
      var xp := u.xp + amount;
      u.(xp := xp, level := CalculateLevel(xp))
  }

  /**
   * The level column never runs ahead of the experience column: add_xp keeps
   * it equal to the computed level, and grants that only raise xp keep it below.
   */
  ghost predicate LevelConsistent(u: UserRow)
  {
    u.level <= CalculateLevel(u.xp)
  }

  /** add_xp never lowers the experience or the level of a consistent row. */
  lemma AddXpNeverDecreases(u: UserRow, amount: int)
    requires LevelConsistent(u)
    ensures AddXp(u, amount).xp >= u.xp && AddXp(u, amount).level >= u.level
    ensures LevelConsistent(AddXp(u, amount))
  {
    if amount > 0 {
      CalculateLevelMonotone(u.xp, u.xp + amount);
    }
  }

  /** What `User.level_progress` reports. */
  datatype LevelProgressInfo = LevelProgressInfo(
    current: int, next: int, xpCurrent: int, xpMax: int, xpLeft: int, progressPercent: int)

  /**
   * `User.level_progress`, given the `xp_threshold` of the LevelReward rows for
   * the current and the next level when they exist.  The thresholds default to
   * (level - 1) * 500 and level * 500; the percent is the truncated share of the
   * span already covered, clamped to 0..100, and 100 when the span is empty.
   */
  function LevelProgress(u: UserRow, currentReward: Option<int>, nextReward: Option<int>): (r: LevelProgressInfo)
    ensures 0 <= r.progressPercent <= 100
    ensures r.xpLeft >= 0 && r.xpLeft >= r.xpMax - u.xp && (r.xpLeft == 0 || r.xpLeft == r.xpMax - u.xp)
    ensures r.current == u.level && r.next == u.level + 1 && r.xpCurrent == u.xp
    ensures r.xpMax == (if nextReward.Some? then nextReward.value else u.level * 500)
  {
    var lo := if currentReward.Some? then currentReward.value else (u.level - 1) * 500;
    var hi := if nextReward.Some? then nextReward.value else u.level * 500;
    var inLevel := u.xp - lo;
    var span := hi - lo;
    var percent :=
      if span > 0 then
        var share := (inLevel as real / span as real) * 100.0;
        Trunc(if share < 0.0 then 0.0 else if share > 100.0 then 100.0 else share)
      else 100;
    LevelProgressInfo(u.level, u.level + 1, u.xp, hi, if hi - u.xp > 0 then hi - u.xp else 0, percent)
  }

  /**
   * Without LevelReward rows and with the level column in step with the
   * experience, the bar shows how far the user is into the current 500-point
   * band: `(xp mod 500) / 5` percent, with a positive number of points left.
   */
  lemma LevelProgressDefault(u: UserRow)
    requires u.level == CalculateLevel(u.xp)
    ensures LevelProgress(u, None, None).progressPercent == (u.xp % 500) / 5
    ensures LevelProgress(u, None, None).xpLeft == 500 - u.xp % 500
  {
    var lo := (u.level - 1) * 500;
    var inLevel := u.xp - lo;
    assert inLevel == u.xp % 500;
    var share := (inLevel as real / 500 as real) * 100.0;
    assert share == (inLevel as real) / 5.0;
    var q := inLevel / 5;
    assert q as real <= share < q as real + 1.0;
  }

  // ------------------------------------------------------ answer values

  /** A scalar JSON answer value as the attempt service stores it. */
  datatype Json = JStr(s: string) | JInt(i: int) | JBool(b: bool) | JNull

  /** Python truthiness of a stored answer. */
  predicate Truthy(v: Json)
  {
    match v
      case JStr(s) => s != []
      case JInt(i) => i != 0
      case JBool(b) => b
      case JNull => false
  }

  /** Python `str()` of a stored answer. */
  function Show(v: Json): string
  {
    match v
      case JStr(s) => s
      case JInt(i) => IntToString(i)
      case JBool(b) => if b then "True" else "False"
      case JNull => "None"
  }

  // ------------------------------------------------- answers (ordered dict)

  /** The `answers` JSON object of a TestResult: keys in insertion order. */
  type Answers = seq<(string, Json)>

  predicate DistinctKeys<V>(d: seq<(string, V)>)
  {
    forall i, j :: 0 <= i < j < |d| ==> d[i].0 != d[j].0
  }

  /** `d.get(k)` */
  function Get<V>(d: seq<(string, V)>, k: string): (r: Option<V>)
    ensures r.Some? <==> exists i :: 0 <= i < |d| && d[i].0 == k
    ensures r.Some? ==> exists i :: 0 <= i < |d| && d[i] == (k, r.value)
  {
    if d == [] then None
    else if d[0].0 == k then Some(d[0].1)
    else
      var r := Get(d[1..], k);
      assert forall i :: 0 < i < |d| ==> d[i] == d[1..][i - 1];
      r
  }

  /** `d[k] = v`: an existing key keeps its position, a new key goes last. */
  function Put<V>(d: seq<(string, V)>, k: string, v: V): (r: seq<(string, V)>)
    ensures |r| == |d| || |r| == |d| + 1
  {
    if d == [] then [(k, v)]
    else if d[0].0 == k then [(k, v)] + d[1..]
    else [d[0]] + Put(d[1..], k, v)
  }

  /** Writing a key makes it read back the new value and leaves every other key alone. */
  lemma {:induction false} PutGet<V>(d: seq<(string, V)>, k: string, v: V, k2: string)
    ensures Get(Put(d, k, v), k) == Some(v)
    ensures k2 != k ==> Get(Put(d, k, v), k2) == Get(d, k2)
  {
    if d != [] && d[0].0 != k {
      PutGet(d[1..], k, v, k2);
      var r := Put(d, k, v);
      assert r[1..] == Put(d[1..], k, v);
    }
  }

  /** Writing keeps the keys distinct. */
  lemma {:induction false} PutDistinct<V>(d: seq<(string, V)>, k: string, v: V)
    requires DistinctKeys(d)
    ensures DistinctKeys(Put(d, k, v))
    ensures forall i :: 0 <= i < |Put(d, k, v)| ==> Put(d, k, v)[i].0 == k || Get(d, Put(d, k, v)[i].0).Some?
  {
    if d != [] && d[0].0 != k {
      PutDistinct(d[1..], k, v);
      var r := Put(d, k, v);
      assert r[1..] == Put(d[1..], k, v);
      forall i | 0 < i < |r| ensures r[i].0 != d[0].0 {
        if r[i].0 != k {
          assert Get(d[1..], r[i].0).Some?;
        }
      }
      forall i | 0 <= i < |r| ensures r[i].0 == k || Get(d, r[i].0).Some? {
        if i > 0 && r[i].0 != k {
          assert Get(d[1..], r[i].0).Some?;
        }
      }
    }
  }

  // ------------------------------------------------------------ attempts

  datatype AttemptStatus = InProgress | AttemptCompleted | Disqualified

  /**
   * A TestResult row, unique per (user, olympiad).  `submittedAt` is the
   * creation time of the row, which the attempt service uses as the start of
   * the attempt.
   */
  datatype TestResult = TestResult(
    userId: UserId, olympiadId: OlympiadId, answers: Answers,
    score: int, percentage: real, timeTaken: int, tabSwitches: int,
    status: AttemptStatus, submittedAt: int)

  // --------------------------------------------------------- transactions

  /** `Transaction.transaction_type`; OLYMPIAD_REWARD is written by the reward service though not among the choices. */
  datatype TxType = CourseCreationFee | CourseSale | CommissionTx | PayoutTx | RefundTx | OlympiadReward

  datatype TxStatus = TxPending | TxSuccess | TxFailed | TxRefunded

  /** A Transaction row; `createdAt` is its creation time in seconds. */
  datatype Transaction = Transaction(userId: UserId, txType: TxType, amount: real, status: TxStatus, createdAt: int)

  // ------------------------------------------------------------ olympiads

  datatype OlympiadStatus = Draft | Upcoming | Ongoing | Paused | Checking | Published | Completed | Canceled

  /** The undeclared `reward_distribution_status` column, as the reward service uses it. */
  datatype DistributionStatus = DistNone | DistInProgress | DistCompleted | DistFailed

  /** The undeclared `reward_strategy` column; values other than TOP_N and THRESHOLD grant nothing. */
  datatype RewardStrategy = TopN | Threshold | OtherStrategy

  datatype QuestionType = Mcq | Numeric | TextAnswer | Code

  datatype Question = Question(id: QuestionId, qtype: QuestionType, options: seq<string>, correctAnswer: string, points: int)

  /** The undeclared `prize_type` column; an unknown type is granted as nothing. */
  datatype PrizeType = Coin | Xp | Physical | OtherPrize

  /** An OlympiadPrize row with the undeclared `prize_type`, `amount` and `target_value` columns. */
  datatype Prize = Prize(id: int, prizeType: PrizeType, amount: real, targetValue: int)

  /**
   * An Olympiad row: schedule (times in seconds, absent when NULL), capacity,
   * price, attempt and anti-cheat limits, experience reward, its questions in
   * `order` and its prizes in id order, the reward-distribution columns, and
   * the `is_active` flag and nullable `teacher` that decide who can find it.
   */
  datatype Olympiad = Olympiad(
    status: OlympiadStatus,
    startDate: Option<int>, endDate: Option<int>, resultTime: Option<int>,
    duration: int,
    maxParticipants: Option<int>, participantsCount: int,
    price: real,
    maxAttempts: int, tabSwitchLimit: int, xpReward: int,
    questions: seq<Question>, prizes: seq<Prize>,
    rewardStrategy: RewardStrategy, rewardDistributionStatus: DistributionStatus, autoReward: bool,
    isActive: bool, teacher: Option<UserId>)

  /** The statuses an operator sets by hand and `refresh_status` never overwrites. */
  predicate IsManualStatus(s: OlympiadStatus)
  {
    s in {Draft, Paused, Canceled, Published, Completed, Checking}
  }

  /**
   * `Olympiad.refresh_status`: a manual status, or a missing start or end
   * date, leaves the row as it is; otherwise the status is derived from the
   * schedule.  Only the status column ever changes.
   */
  function RefreshStatus(o: Olympiad, now: int): (r: Olympiad)
    ensures r == o.(status := r.status)
  {
    if IsManualStatus(o.status) || o.startDate.None? || o.endDate.None? then o
    else if now < o.startDate.value then o.(status := Upcoming)
    else if now <= o.endDate.value then o.(status := Ongoing)
    else o.(status := Checking)
  }

  /** The schedule rule: before the start UPCOMING, inside the window ONGOING, after it CHECKING. */
  lemma RefreshStatusBySchedule(o: Olympiad, now: int)
    requires !IsManualStatus(o.status) && o.startDate.Some? && o.endDate.Some?
    ensures now < o.startDate.value ==> RefreshStatus(o, now).status == Upcoming
    ensures o.startDate.value <= now <= o.endDate.value ==> RefreshStatus(o, now).status == Ongoing
    ensures now > o.endDate.value && now >= o.startDate.value ==> RefreshStatus(o, now).status == Checking
  {
  }

  /** Manual statuses and incomplete schedules are never touched. */
  lemma RefreshStatusKeeps(o: Olympiad, now: int)
    requires IsManualStatus(o.status) || o.startDate.None? || o.endDate.None?
    ensures RefreshStatus(o, now) == o
  {
  }

  /** Refreshing twice at the same instant is refreshing once. */
  lemma RefreshStatusIdempotent(o: Olympiad, now: int)
    ensures RefreshStatus(RefreshStatus(o, now), now) == RefreshStatus(o, now)
  {
  }

  // ---------------------------------------------------------------- slugs

  /** The k-th slug `save` tries: the base itself, then base-1, base-2, ... */
  function Candidate(base: string, k: nat): (s: string)
    ensures k == 0 ==> s == base
    ensures k > 0 ==> s == base + "-" + IntToString(k)
  {
    if k == 0 then base else base + "-" + IntToString(k)
  }

  /** The candidates tried before the k-th. */
  ghost function CandidatesBelow(base: string, k: nat): set<string>
  {
    if k == 0 then {} else CandidatesBelow(base, k - 1) + {Candidate(base, k - 1)}
  }

  lemma CandidateInjective(base: string, j: nat, k: nat)
    requires Candidate(base, j) == Candidate(base, k)
    ensures j == k
  {
    if j > 0 && k > 0 {
      var p := base + "-";
      assert Candidate(base, j)[|p|..] == IntToString(j);
      assert Candidate(base, k)[|p|..] == IntToString(k);
      IntToStringInjective(j, k);
    }
  }

  lemma {:induction false} CandidatesBelowShape(base: string, k: nat)
    ensures |CandidatesBelow(base, k)| == k
    ensures forall j :: j >= k ==> Candidate(base, j) !in CandidatesBelow(base, k)
  {
    if k > 0 {
      CandidatesBelowShape(base, k - 1);
      forall j | j >= k ensures Candidate(base, j) !in CandidatesBelow(base, k) {
        if Candidate(base, j) == Candidate(base, k - 1) {
          CandidateInjective(base, j, k - 1);
        }
      }
    }
  }

  /**
   * The slug loop of `Subject.save` and `Olympiad.save`: a row that already
   * has a slug keeps it; otherwise the first of base, base-1, base-2, ... that
   * is not in `taken` is chosen.  For a subject `taken` holds the slugs of the
   * other subjects (the row itself is excluded); for an olympiad it holds the
   * slugs of all olympiads.
   */
  method AssignSlug(current: string, base: string, taken: set<string>) returns (slug: string)
    ensures current != "" ==> slug == current
    ensures current == "" ==> slug !in taken
    ensures current == "" ==> exists k :: slug == Candidate(base, k) && CandidatesBelow(base, k) <= taken
  {
    if current != "" {
      return current;
    }
    slug := base;
    var counter := 1;
    while slug in taken
      invariant counter >= 1
      invariant slug == Candidate(base, counter - 1)
      invariant CandidatesBelow(base, counter - 1) <= taken
      decreases |taken| - (counter - 1)
    {
      CandidatesBelowShape(base, counter);
      CandidatesBelowShape(base, counter - 1);
      assert CandidatesBelow(base, counter) <= taken;
      SubsetSize(CandidatesBelow(base, counter), taken);
      slug := base + "-" + IntToString(counter);
      counter := counter + 1;
    }
  }

  lemma SubsetSize<T>(a: set<T>, b: set<T>)
    requires a <= b
    ensures |a| <= |b|
  {
    assert b == a + (b - a);
  }

  // --------------------------------------------------------------- courses

  datatype CourseStatus = CourseDraft | CoursePending | Approved | Rejected

  datatype LessonFacts = LessonFacts(isPublished: bool, isFree: bool, hasTest: bool, videoDuration: int)

  /** The reasons `Course.clean` refuses to activate a course. */
  datatype ActivationError = NoTeacher | NotApproved | TooFewLessons | NoDemoLesson | NoTestLesson

  function CountPublished(lessons: seq<LessonFacts>): (n: nat)
    ensures n <= |lessons|
  {
    if lessons == [] then 0
    else (if lessons[0].isPublished then 1 else 0) + CountPublished(lessons[1..])
  }

  /**
   * `Course.clean`: for an active course that has been saved, the list of
   * violated activation rules in the order they are checked; the validation
   * error is raised exactly when the list is non-empty.
   */
  function CleanErrors(isActive: bool, saved: bool, hasTeacher: bool, status: CourseStatus, lessons: seq<LessonFacts>)
    : (errs: seq<ActivationError>)
    ensures !(isActive && saved) ==> errs == []
    ensures isActive && saved ==>
      && (NoTeacher in errs <==> !hasTeacher)
      && (NotApproved in errs <==> status != Approved)
      && (TooFewLessons in errs <==> CountPublished(lessons) < 3)
      && (NoDemoLesson in errs <==> !HasDemoLesson(lessons))
      && (NoTestLesson in errs <==> !HasTestLesson(lessons))
  {
    if !(isActive && saved) then []
    else
      Flag(!hasTeacher, NoTeacher)
      + Flag(status != Approved, NotApproved)
      + Flag(CountPublished(lessons) < 3, TooFewLessons)
      + Flag(!HasDemoLesson(lessons), NoDemoLesson)
      + Flag(!HasTestLesson(lessons), NoTestLesson)
  }

  /** Some published lesson is free (a demo lesson). */
  predicate HasDemoLesson(lessons: seq<LessonFacts>)
  {
    exists i :: 0 <= i < |lessons| && lessons[i].isPublished && lessons[i].isFree
  }

  /** Some published lesson carries a test. */
  predicate HasTestLesson(lessons: seq<LessonFacts>)
  {
    exists i :: 0 <= i < |lessons| && lessons[i].isPublished && lessons[i].hasTest
  }

  /** The one error a failed rule contributes, or none. */
  function Flag(failed: bool, e: ActivationError): (r: seq<ActivationError>)
    ensures forall x :: x in r <==> failed && x == e
  {
    if failed then [e] else []
  }

  // ---------------------------------------------------- verification codes

  datatype VerificationCode = VerificationCode(phone: string, code: string, isVerified: bool, attempts: int, expiresAt: int)

  /** `VerificationCode.is_expired` */
  predicate IsExpired(v: VerificationCode, now: int)
  {
    now > v.expiresAt
  }

  /** `VerificationCode.is_valid`: not expired, fewer than five attempts, and the same code. */
  function IsValid(v: VerificationCode, code: string, now: int): (ok: bool)
    ensures ok ==> v.code == code && !IsExpired(v, now)
    ensures v.attempts >= 5 ==> !ok
    ensures !IsExpired(v, now) && v.attempts < 5 ==> (ok <==> v.code == code)
  {
    if IsExpired(v, now) then false
    else if v.attempts >= 5 then false
    else v.code == code
  }

  /** A share of a positive whole lies between 0 and 1 and is 1 only for the whole. */
  lemma Share(part: nat, whole: nat)
    requires 0 < whole && part <= whole
    ensures 0.0 <= part as real / whole as real <= 1.0
    ensures part as real / whole as real == 1.0 <==> part == whole
  {
    var q := part as real / whole as real;
    assert q * whole as real == part as real;
    if q == 1.0 {
      assert part as real == whole as real;
    }
  }
}
