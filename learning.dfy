/**
 * Course learning: which lessons of a course outline are locked, how a
 * lesson's progress record is updated by watching the video, answering the
 * practice and taking the mini-test, when a lesson counts as completed, and
 * how the enrollment's progress percentage follows the completed lessons.
 */
module Learning {
  import opened Text
  import opened Models
  import opened Streak

  // ------------------------------------------------------------- locking

  /** A lesson of the flattened outline, with whether the user's progress record says it is completed. */
  datatype OutlineLesson = OutlineLesson(isFree: bool, completed: bool)

  /**
   * Whether lesson i of the outline is locked: a free lesson never is; for a
   * guest every other lesson is; for an enrolled user the first lesson is
   * open and a later one is locked exactly when the one before it is not
   * completed.
   */
  predicate LockedAt(outline: seq<OutlineLesson>, enrolled: bool, i: int)
    requires 0 <= i < |outline|
  {
    !outline[i].isFree && (!enrolled || (i > 0 && !outline[i - 1].completed))
  }

  /**
   * The locking pass of `get_course_learning_state`: one walk over the
   * outline carrying whether the previous lesson was completed.
   */
  method LockLessons(outline: seq<OutlineLesson>, enrolled: bool) returns (locked: seq<bool>)
    ensures |locked| == |outline|
    ensures forall i :: 0 <= i < |outline| ==> locked[i] == LockedAt(outline, enrolled, i)
  {
    locked := [];
    var previousCompleted := true;
    var i := 0;
    while i < |outline|
      invariant 0 <= i <= |outline| && |locked| == i
      invariant forall j :: 0 <= j < i ==> locked[j] == LockedAt(outline, enrolled, j)
      invariant enrolled ==> (previousCompleted <==> i == 0 || outline[i - 1].completed)
    {
      var lesson := outline[i];
      var isLocked: bool;
      if !enrolled {
        isLocked := !lesson.isFree;
      } else {
        isLocked := !previousCompleted;
        if lesson.isFree {
          isLocked := false;
        }
        previousCompleted := lesson.completed;
      }
      locked := locked + [isLocked];
      i := i + 1;
    }
  }

  /** For a guest exactly the free lessons are open; for an enrolled user the first lesson always is. */
  lemma LockingCases(outline: seq<OutlineLesson>, enrolled: bool)
    ensures !enrolled ==> forall i :: 0 <= i < |outline| ==> (LockedAt(outline, enrolled, i) <==> !outline[i].isFree)
    ensures enrolled && |outline| > 0 ==> !LockedAt(outline, enrolled, 0)
    ensures enrolled ==> forall i :: 0 < i < |outline| && outline[i - 1].completed ==> !LockedAt(outline, enrolled, i)
  {
  }

  // ------------------------------------------------------------- lessons

  /** A lesson's practice task; the correct answer may be absent. */
  datatype Practice = Practice(correctAnswer: Option<string>, points: int)

  /** A lesson's mini-test: its questions and the pass mark in percent. */
  datatype LessonTest = LessonTest(questions: seq<Question>, minPassScore: int)

  /** A `Lesson` row with its optional practice and test. */
  datatype Lesson = Lesson(course: CourseId, title: string, isPublished: bool, isFree: bool, xpAmount: int,
                           practice: Option<Practice>, test: Option<LessonTest>)

  /** A `LessonProgress` row; a new one has nothing done. */
  datatype Progress = Progress(videoWatched: bool, videoPosition: int,
                               practiceScore: Option<int>, practiceSubmission: Option<string>,
                               testScore: Option<int>, testAttempts: int,
                               isCompleted: bool, completedAt: Option<int>)

  const FreshProgress := Progress(false, 0, None, None, None, 0, false, None)

  /** The kinds of update a client can send. */
  datatype ProgressUpdate = VideoComplete(position: int) | SubmitPractice(answer: string)
                          | SubmitTest(answers: seq<(string, Json)>) | OtherUpdate

  /** The practice accepts an answer when it has a non-empty correct answer equal to it after stripping and lower-casing both. */
  predicate PracticeAccepts(pr: Practice, answer: string)
  {
    pr.correctAnswer.Some? && pr.correctAnswer.value != "" && Lower(Strip(answer)) == Lower(Strip(pr.correctAnswer.value))
  }

  /** The practice score: the practice's points for an accepted answer, 0 otherwise. */
  function PracticeScore(pr: Practice, answer: string): (r: int)
    ensures r == pr.points || r == 0
    ensures pr.correctAnswer.None? || pr.correctAnswer == Some("") ==> r == 0
  {
    if PracticeAccepts(pr, answer) then pr.points else 0
  }

  /** The reference answer itself always earns the points, whatever its case or surrounding spaces. */
  lemma PracticeAcceptsReference(pr: Practice, answer: string)
    requires pr.correctAnswer.Some? && pr.correctAnswer.value != ""
    requires Lower(Strip(answer)) == Lower(Strip(pr.correctAnswer.value))
    ensures PracticeScore(pr, answer) == pr.points
  {
  }

  /** Whether the submitted value for question q, read as a string (a missing one reads "None"), equals its correct answer. */
  predicate AnsweredCorrectly(q: Question, answers: seq<(string, Json)>)
  {
    var v := Get(answers, IntToString(q.id));
    Show(if v.Some? then v.value else JNull) == q.correctAnswer
  }

  /** The number of questions answered correctly. */
  function CorrectCount(qs: seq<Question>, answers: seq<(string, Json)>): (n: nat)
    ensures n <= |qs|
    ensures n == |qs| <==> forall i :: 0 <= i < |qs| ==> AnsweredCorrectly(qs[i], answers)
    decreases |qs|
  {
    if qs == [] then 0
    else
      var rest := CorrectCount(qs[1..], answers);
      assert forall i :: 1 <= i < |qs| ==> qs[i] == qs[1..][i - 1];
      (if AnsweredCorrectly(qs[0], answers) then 1 else 0) + rest
  }

  /** `int(score / total * 100)` with exact arithmetic, 0 for a test without questions. */
  function Percent(correct: nat, total: nat): (r: int)
    requires correct <= total
    ensures 0 <= r <= 100
    ensures total > 0 ==> (r == 100 <==> correct == total)
    ensures correct == 0 ==> r == 0
  {
    if total == 0 then 0
    else
      Share(correct, total);
      Trunc(correct as real / total as real * 100.0)
  }

  /**
   * The mini-test score: the truncated percentage of questions answered
   * correctly; 100 exactly when every question is answered correctly.
   */
  function TestScore(t: LessonTest, answers: seq<(string, Json)>): (r: int)
    ensures 0 <= r <= 100
    ensures |t.questions| > 0 ==> (r == 100 <==> forall i :: 0 <= i < |t.questions| ==> AnsweredCorrectly(t.questions[i], answers))
  {
    Percent(CorrectCount(t.questions, answers), |t.questions|)
  }

  /**
   * The field updates of `update_lesson_progress`: the video marks itself
   * watched at a position; a practice answer is stored and scored; a test
   * submission is scored and counts one more attempt; a lesson without the
   * practice or test in question, and any other update kind, changes
   * nothing.  Completion is never touched here.
   */
  function ApplyUpdate(l: Lesson, p: Progress, u: ProgressUpdate): (r: Progress)
    ensures r.isCompleted == p.isCompleted && r.completedAt == p.completedAt
    ensures r.testAttempts == p.testAttempts + (if u.SubmitTest? && l.test.Some? then 1 else 0)
    ensures u.VideoComplete? ==> r.videoWatched
    ensures !u.VideoComplete? ==> r.videoWatched == p.videoWatched
    ensures r.testScore != p.testScore ==> r.testScore.Some? && 0 <= r.testScore.value <= 100
    ensures r.practiceScore != p.practiceScore ==> r.practiceScore.Some? && l.practice.Some?
  {
    match u
    case VideoComplete(position) => p.(videoWatched := true, videoPosition := position)
    case SubmitPractice(answer) =>
      if l.practice.Some? then p.(practiceSubmission := Some(answer), practiceScore := Some(PracticeScore(l.practice.value, answer)))
      else p
    case SubmitTest(answers) =>
      if l.test.Some? then p.(testScore := Some(TestScore(l.test.value, answers)), testAttempts := p.testAttempts + 1)
      else p
    case OtherUpdate => p
  }

  /**
   * `_check_and_finalize_lesson`'s rule: the video is watched, the practice
   * (if any) has a score, and the test (if any) has a score reaching its
   * pass mark.
   */
  predicate ReadyToComplete(l: Lesson, p: Progress)
  {
    && p.videoWatched
    && (l.practice.None? || p.practiceScore.Some?)
    && (l.test.None? || (p.testScore.Some? && p.testScore.value >= l.test.value.minPassScore))
  }

  /** A lesson with neither practice nor test completes as soon as its video is watched. */
  lemma VideoAloneCompletes(l: Lesson, p: Progress, position: int)
    requires l.practice.None? && l.test.None?
    ensures ReadyToComplete(l, ApplyUpdate(l, p, VideoComplete(position)))
  {
  }

  /** A passed test cannot be undone by a video or practice update: readiness only grows under those. */
  lemma ReadinessKeptByVideoAndPractice(l: Lesson, p: Progress, u: ProgressUpdate)
    requires u.VideoComplete? || u.SubmitPractice? || u.OtherUpdate?
    requires ReadyToComplete(l, p)
    ensures ReadyToComplete(l, ApplyUpdate(l, p, u))
  {
  }

  // --------------------------------------------------------- enrollments

  /** The published lessons of a course: what the progress percentage divides by. */
  function PublishedIds(lessons: map<LessonId, Lesson>, cid: CourseId): set<LessonId>
  {
    set lid | lid in lessons && lessons[lid].course == cid && lessons[lid].isPublished
  }

  /** The lessons of a course whose stored progress for the user is completed, published or not. */
  function CompletedIds(lessons: map<LessonId, Lesson>, progress: map<(UserId, LessonId), Progress>, uid: UserId, cid: CourseId)
    : set<LessonId>
  {
    set lid | lid in lessons && lessons[lid].course == cid && (uid, lid) in progress && progress[(uid, lid)].isCompleted
  }

  /** The enrollment's progress: completed over published lessons, in percent, 0 without published lessons. */
  function EnrollmentPercent(completed: nat, total: nat): (r: real)
    ensures r >= 0.0
    ensures total > 0 ==> (r >= 100.0 <==> completed >= total)
  {
    if total > 0 then
      assert completed < total ==> completed as real / total as real < 1.0 by {
        if completed < total {
          Share(completed, total);
        }
      }
      assert completed >= total ==> completed as real / total as real >= 1.0;
      completed as real / total as real * 100.0
    else 0.0
  }

  /**
   * The completion count is taken while the lesson being completed is still
   * stored as not completed, so when every lesson of the course is published
   * and this is the last one left, the course stays below 100%.
   */
  lemma StaleCountMissesFinalLesson(lessons: map<LessonId, Lesson>, progress: map<(UserId, LessonId), Progress>,
                                    uid: UserId, lid: LessonId)
    requires lid in lessons && lessons[lid].isPublished
    requires forall k :: k in lessons && lessons[k].course == lessons[lid].course ==> lessons[k].isPublished
    requires (uid, lid) !in progress || !progress[(uid, lid)].isCompleted
    ensures var cid := lessons[lid].course;
      EnrollmentPercent(|CompletedIds(lessons, progress, uid, cid)|, |PublishedIds(lessons, cid)|) < 100.0
  {
    var cid := lessons[lid].course;
    var done := CompletedIds(lessons, progress, uid, cid);
    var all := PublishedIds(lessons, cid);
    forall k | k in done ensures k in all - {lid} {
      assert lessons[k].course == cid;
    }
    SubsetSize(done, all - {lid});
    assert lid in all;
    assert |all - {lid}| == |all| - 1;
  }

  /** The completion count once the finished lesson's record is stored. */
  function CompletedAfterSave(lessons: map<LessonId, Lesson>, progress: map<(UserId, LessonId), Progress>,
                              uid: UserId, lid: LessonId, p: Progress): (n: nat)
    requires lid in lessons
  {
    |CompletedIds(lessons, progress[(uid, lid) := p], uid, lessons[lid].course)|
  }

  /**
   * Counting after the record is stored: completing the last remaining
   * published lesson of a course brings the course to 100%.
   */
  lemma SavedCountCompletesCourse(lessons: map<LessonId, Lesson>, progress: map<(UserId, LessonId), Progress>,
                                  uid: UserId, lid: LessonId, p: Progress)
    requires lid in lessons && lessons[lid].isPublished && p.isCompleted
    requires forall k :: k in PublishedIds(lessons, lessons[lid].course) && k != lid ==>
      (uid, k) in progress && progress[(uid, k)].isCompleted
    ensures EnrollmentPercent(CompletedAfterSave(lessons, progress, uid, lid, p), |PublishedIds(lessons, lessons[lid].course)|) >= 100.0
  {
    var cid := lessons[lid].course;
    var all := PublishedIds(lessons, cid);
    var done := CompletedIds(lessons, progress[(uid, lid) := p], uid, cid);
    assert all <= done;
    SubsetSize(all, done);
    assert lid in all;
  }

  // --------------------------------------------------------------- store

  /** The course columns the learning service reads. */
  datatype CourseInfo = CourseInfo(title: string, xpReward: int, certificateEnabled: bool)

  /** An `Enrollment` row: the stored progress percentage and the completion time. */
  datatype EnrollmentRow = EnrollmentRow(progress: real, completedAt: Option<int>)

  /** A course certificate row. */
  datatype CourseCertificate = CourseCertificate(user: UserId, course: CourseId, grade: string, pending: bool)

  datatype LearningError = LessonNotFound | NotEnrolled | NotificationUndefined

  /** The tables the learning service touches. */
  class LearningStore {
    var lessons: map<LessonId, Lesson>
    var courses: map<CourseId, CourseInfo>
    var enrollments: map<(UserId, CourseId), EnrollmentRow>
    var progress: map<(UserId, LessonId), Progress>
    var users: map<UserId, UserRow>
    var streaks: map<UserId, StreakRow>
    var activities: seq<Activity>
    var certificates: seq<CourseCertificate>

    /** Every lesson belongs to a stored course and every streak row is well formed. */
    ghost predicate Valid()
      reads this
    {
      && (forall lid :: lid in lessons ==> lessons[lid].course in courses)
      && AllWellFormed(streaks)
    }

    /** Whether the user holds a certificate for the course. */
    predicate HasCertificate(uid: UserId, cid: CourseId)
      reads this
    {
      exists i :: 0 <= i < |certificates| && certificates[i].user == uid && certificates[i].course == cid
    }

    /**
     * The lock flags of `get_course_learning_state` for the course outline
     * `outline` (lessons in module order, then lesson order).
     */
    method LearningState(uid: UserId, cid: CourseId, outline: seq<LessonId>) returns (enrolled: bool, locked: seq<bool>)
      requires forall i :: 0 <= i < |outline| ==> outline[i] in lessons
      ensures enrolled <==> (uid, cid) in enrollments
      ensures |locked| == |outline|
      ensures forall i :: 0 <= i < |outline| && lessons[outline[i]].isFree ==> !locked[i]
      ensures !enrolled ==> forall i :: 0 <= i < |outline| ==> (locked[i] <==> !lessons[outline[i]].isFree)
      ensures enrolled ==> forall i :: 0 < i < |outline| ==>
        (locked[i] <==> !lessons[outline[i]].isFree && !Done(uid, outline[i - 1]))
      ensures enrolled && |outline| > 0 ==> !locked[0]
    {
      enrolled := (uid, cid) in enrollments;
      var view := seq(|outline|, i requires 0 <= i < |outline| && outline[i] in lessons reads this =>
        OutlineLesson(lessons[outline[i]].isFree, Done(uid, outline[i])));
      locked := LockLessons(view, enrolled);
    }

    /** Whether the user's stored progress on a lesson is completed. */
    predicate Done(uid: UserId, lid: LessonId)
      reads this
    {
      (uid, lid) in progress && progress[(uid, lid)].isCompleted
    }

    /** `StreakService.record_activity` on this user's row. */
    method RecordStreak(uid: UserId, kind: string, description: string, today: int)
      requires Valid()
      modifies this
      ensures Valid()
      ensures streaks == old(streaks)[uid := Record(RowOf(old(streaks), uid), today).row]
      ensures activities == old(activities) + [Activity(uid, kind, description, 0)]
      ensures lessons == old(lessons) && courses == old(courses) && enrollments == old(enrollments)
      ensures progress == old(progress) && users == old(users) && certificates == old(certificates)
    {
      activities := activities + [Activity(uid, kind, description, 0)];
      streaks := streaks[uid := Record(RowOf(streaks, uid), today).row];
    }

    /** `User.add_xp`: the row follows `AddXp`, and a positive grant is logged as an activity. */
    method GrantXp(uid: UserId, amount: int, kind: string, description: string)
      requires uid in users
      modifies this
      ensures users == old(users)[uid := AddXp(old(users[uid]), amount)]
      ensures activities == old(activities) + (if amount > 0 then [Activity(uid, kind, description, amount)] else [])
      ensures lessons == old(lessons) && courses == old(courses) && enrollments == old(enrollments)
      ensures progress == old(progress) && streaks == old(streaks) && certificates == old(certificates)
    {
      if amount > 0 {
        users := users[uid := AddXp(users[uid], amount)];
        activities := activities + [Activity(uid, kind, description, amount)];
      }
    }

    /**
     * `update_enrollment_stats`: the progress becomes the percentage of the
     * course's published lessons whose stored record is completed.  On
     * reaching 100% for the first time the course XP is granted and a
     * pending certificate created when enabled and not yet held; the
     * notification that follows names a class the module never imports, so
     * that branch ends in an error and the enrollment row is not stored.
     */
    method UpdateEnrollmentStats(uid: UserId, cid: CourseId, now: int) returns (err: Option<LearningError>)
      requires (uid, cid) in enrollments && cid in courses && uid in users
      modifies this
      ensures lessons == old(lessons) && courses == old(courses) && progress == old(progress) && streaks == old(streaks)
      ensures var pct := EnrollmentPercent(|CompletedIds(lessons, progress, uid, cid)|, |PublishedIds(lessons, cid)|);
        var e := old(enrollments[(uid, cid)]);
        var c := courses[cid];
        if pct >= 100.0 && e.completedAt.None? then
          && err == Some(NotificationUndefined)
          && enrollments == old(enrollments)
          && users == old(users)[uid := AddXp(old(users[uid]), c.xpReward)]
          && activities == old(activities) + (if c.xpReward > 0 then [Activity(uid, "COURSE_ENROLL", "Kurs yakunlandi: " + c.title, c.xpReward)] else [])
          && certificates == old(certificates) +
               (if c.certificateEnabled && !old(HasCertificate(uid, cid)) then [CourseCertificate(uid, cid, "100%", true)] else [])
        else
          && err == None
          && enrollments == old(enrollments)[(uid, cid) := e.(progress := pct)]
          && users == old(users) && activities == old(activities) && certificates == old(certificates)
    {
      var total := |PublishedIds(lessons, cid)|;
      var done := |CompletedIds(lessons, progress, uid, cid)|;
      var pct := EnrollmentPercent(done, total);
      var e := enrollments[(uid, cid)].(progress := pct);
      if pct >= 100.0 && e.completedAt.None? {
        var c := courses[cid];
        GrantXp(uid, c.xpReward, "COURSE_ENROLL", "Kurs yakunlandi: " + c.title);
        if c.certificateEnabled && !HasCertificate(uid, cid) {
          certificates := certificates + [CourseCertificate(uid, cid, "100%", true)];
        }
        return Some(NotificationUndefined);
      }
      enrollments := enrollments[(uid, cid) := e];
      err := None;
    }

    /**
     * `update_lesson_progress`: the lesson must exist and the user be
     * enrolled in its course; the progress record is created on first use,
     * updated, and — when it becomes ready for the first time — completed
     * with a streak activity, the lesson's XP and a recount of the
     * enrollment, before the record itself is stored.
     */
    method UpdateLessonProgress(uid: UserId, lid: LessonId, u: ProgressUpdate, now: int, today: int)
      returns (err: Option<LearningError>)
      requires Valid() && uid in users
      modifies this
      ensures Valid()
      ensures lid !in old(lessons) ==> err == Some(LessonNotFound) && unchanged(this)
      ensures lid in old(lessons) && (uid, old(lessons[lid]).course) !in old(enrollments) ==> err == Some(NotEnrolled) && unchanged(this)
      ensures lessons == old(lessons) && courses == old(courses)
      ensures lid in lessons && (uid, lessons[lid].course) in old(enrollments) ==>
        var saved := if (uid, lid) in old(progress) then old(progress[(uid, lid)]) else FreshProgress;
        var p := ApplyUpdate(lessons[lid], saved, u);
        var completes := ReadyToComplete(lessons[lid], p) && !p.isCompleted;
        && (!completes ==> err == None && progress == old(progress)[(uid, lid) := p]
                           && users == old(users) && enrollments == old(enrollments) && streaks == old(streaks))
        && (completes && err == None ==> progress == old(progress)[(uid, lid) := p.(isCompleted := true, completedAt := Some(now))])
        && (completes && err.Some? ==> err == Some(NotificationUndefined) && progress == old(progress)[(uid, lid) := saved])
        && (completes ==> streaks == old(streaks)[uid := Record(RowOf(old(streaks), uid), today).row])
      ensures err == None && lid in lessons && (uid, lid) in old(progress) && old(progress[(uid, lid)]).isCompleted
        ==> progress[(uid, lid)].isCompleted && progress[(uid, lid)].completedAt == old(progress[(uid, lid)]).completedAt
    {
      if lid !in lessons {
        return Some(LessonNotFound);
      }
      var l := lessons[lid];
      if (uid, l.course) !in enrollments {
        return Some(NotEnrolled);
      }
      var key := (uid, lid);
      var saved := if key in progress then progress[key] else FreshProgress;
      err := StoreUpdate(uid, lid, saved, ApplyUpdate(l, saved, u), now, today);
    }

    /**
     * Stores the record `saved` as found or created, then the updated record
     * `p`, completing the lesson first when `p` has just become ready.
     */
    method StoreUpdate(uid: UserId, lid: LessonId, saved: Progress, p: Progress, now: int, today: int)
      returns (err: Option<LearningError>)
      requires Valid() && uid in users && lid in lessons && (uid, lessons[lid].course) in enrollments
      modifies this
      ensures Valid()
      ensures lessons == old(lessons) && courses == old(courses)
      ensures var completes := ReadyToComplete(lessons[lid], p) && !p.isCompleted;
        && (!completes ==> err == None && progress == old(progress)[(uid, lid) := p]
                           && users == old(users) && enrollments == old(enrollments) && streaks == old(streaks))
        && (completes && err == None ==> progress == old(progress)[(uid, lid) := p.(isCompleted := true, completedAt := Some(now))])
        && (completes && err.Some? ==> err == Some(NotificationUndefined) && progress == old(progress)[(uid, lid) := saved])
        && (completes ==> streaks == old(streaks)[uid := Record(RowOf(old(streaks), uid), today).row])
    {
      progress := progress[(uid, lid) := saved];
      if ReadyToComplete(lessons[lid], p) && !p.isCompleted {
        err := CompleteLesson(uid, lid, p.(isCompleted := true, completedAt := Some(now)), now, today);
      } else {
        progress := progress[(uid, lid) := p];
        err := None;
      }
    }

    /**
     * The first completion of lesson `lid`: the streak activity, the lesson's
     * XP and the enrollment statistics of its course, in that order, and then
     * the completed record `done` is stored unless the statistics failed.
     */
    method CompleteLesson(uid: UserId, lid: LessonId, done: Progress, now: int, today: int) returns (err: Option<LearningError>)
      requires Valid() && uid in users && lid in lessons && (uid, lessons[lid].course) in enrollments
      modifies this
      ensures Valid()
      ensures lessons == old(lessons) && courses == old(courses)
      ensures streaks == old(streaks)[uid := Record(RowOf(old(streaks), uid), today).row]
      ensures err.Some? ==> err == Some(NotificationUndefined) && progress == old(progress)
      ensures err.None? ==> progress == old(progress)[(uid, lid) := done]
    {
      var l := lessons[lid];
      RecordStreak(uid, "LESSON_COMPLETE", "Completed lesson: " + l.title, today);
      GrantXp(uid, l.xpAmount, "LESSON_COMPLETE", "Dars yakunlandi: " + l.title);
      err := UpdateEnrollmentStats(uid, l.course, now);
      if err.None? {
        progress := progress[(uid, lid) := done];
      }
    }
  }
}
