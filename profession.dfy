/**
 * Profession roadmaps: a user's progress towards a profession is the lower
 * of the share of mandatory roadmap steps done and the share of the
 * profession's experience requirement met, and the progress row is marked
 * completed, once and for good, when that reaches 100.
 */
module Profession {
  import opened Text
  import opened Models

  type ProfessionId = int

  /** The roadmap step types the service tells apart; `PROJECT` is checked for though not among the declared choices. */
  datatype StepType = Learn | Practice | Compete | Certify | Project

  /** A ProfessionRoadmapStep row, with the undeclared `olympiad` column the service reads. */
  datatype RoadmapStep = RoadmapStep(stepType: StepType, course: Option<CourseId>, olympiad: Option<OlympiadId>, isMandatory: bool)

  /** A Profession row: the undeclared `required_xp` column and its roadmap steps in `order`. */
  datatype ProfessionRow = ProfessionRow(requiredXp: int, steps: seq<RoadmapStep>)

  datatype ProgressStatus = Following | ProfessionCompleted

  /** A UserProfessionProgress row. */
  datatype ProgressRow = ProgressRow(status: ProgressStatus, percent: int)

  /** What `get_or_create` makes: following, at 0 percent. */
  const NewRow := ProgressRow(Following, 0)

  /**
   * The user's rows the step check reads: the progress of each course the
   * user is enrolled in, and the status of each olympiad result.
   */
  datatype Evidence = Evidence(enrollments: map<CourseId, real>, results: map<OlympiadId, AttemptStatus>)

  /**
   * Whether a step counts as done: a LEARN step with a course the user
   * finished (progress at least 100), a COMPETE step with an olympiad the
   * user completed; every other step never counts.
   */
  predicate StepDone(s: RoadmapStep, ev: Evidence)
  {
    match s.stepType
      case Learn => s.course.Some? && s.course.value in ev.enrollments && ev.enrollments[s.course.value] >= 100.0
      case Compete => s.olympiad.Some? && s.olympiad.value in ev.results && ev.results[s.olympiad.value] == AttemptCompleted
      case _ => false
  }

  /** The number of mandatory steps. */
  function Mandatory(steps: seq<RoadmapStep>): nat
  {
    if steps == [] then 0 else Mandatory(steps[..|steps| - 1]) + (if steps[|steps| - 1].isMandatory then 1 else 0)
  }

  /** The number of mandatory steps done. */
  function MandatoryDone(steps: seq<RoadmapStep>, ev: Evidence): (n: nat)
    ensures n <= Mandatory(steps)
  {
    if steps == [] then 0
    else
      var last := steps[|steps| - 1];
      MandatoryDone(steps[..|steps| - 1], ev) + (if last.isMandatory && StepDone(last, ev) then 1 else 0)
  }

  /** All mandatory steps are done exactly when each mandatory step is. */
  lemma {:induction false} AllMandatoryDone(steps: seq<RoadmapStep>, ev: Evidence)
    ensures MandatoryDone(steps, ev) == Mandatory(steps)
      <==> forall k :: 0 <= k < |steps| && steps[k].isMandatory ==> StepDone(steps[k], ev)
  {
    if steps != [] {
      var init := steps[..|steps| - 1];
      AllMandatoryDone(init, ev);
      assert forall k :: 0 <= k < |init| ==> init[k] == steps[k];
    }
  }

  /** The step share: done over mandatory, times 100; 100 without mandatory steps. */
  function StepPercent(done: nat, total: nat): (p: real)
    requires done <= total
    ensures 0.0 <= p <= 100.0
    ensures p == 100.0 <==> done == total
  {
    if total > 0 then
      Share(done, total);
      (done as real / total as real) * 100.0
    else 100.0
  }

  /** The experience share: `xp` over the requirement, times 100, capped at 100; 100 without a requirement. */
  function XpPercent(xp: int, requiredXp: int): (p: real)
    ensures p <= 100.0
    ensures xp >= 0 ==> p >= 0.0
    ensures p == 100.0 <==> requiredXp <= 0 || xp >= requiredXp
  {
    if requiredXp > 0 then
      var share := (xp as real / requiredXp as real) * 100.0;
      if share < 100.0 then share else 100.0
    else 100.0
  }

  /** `int(min(step_progress, xp_progress))` */
  function FinalPercent(steps: seq<RoadmapStep>, ev: Evidence, xp: int, requiredXp: int): (f: int)
    ensures f <= 100
    ensures xp >= 0 ==> f >= 0
  {
    var sp := StepPercent(MandatoryDone(steps, ev), Mandatory(steps));
    var xpp := XpPercent(xp, requiredXp);
    Trunc(if sp <= xpp then sp else xpp)
  }

  /**
   * The profession is reached exactly when every mandatory step is done and
   * the experience requirement is met.
   */
  lemma ReachedIffRequirementsMet(steps: seq<RoadmapStep>, ev: Evidence, xp: int, requiredXp: int)
    ensures FinalPercent(steps, ev, xp, requiredXp) >= 100
      <==> (forall k :: 0 <= k < |steps| && steps[k].isMandatory ==> StepDone(steps[k], ev))
           && (requiredXp <= 0 || xp >= requiredXp)
  {
    AllMandatoryDone(steps, ev);
  }

  /** More experience never lowers the progress. */
  lemma FinalPercentMonotoneInXp(steps: seq<RoadmapStep>, ev: Evidence, xp1: int, xp2: int, requiredXp: int)
    requires xp1 <= xp2
    ensures FinalPercent(steps, ev, xp1, requiredXp) <= FinalPercent(steps, ev, xp2, requiredXp)
  {
    var sp := StepPercent(MandatoryDone(steps, ev), Mandatory(steps));
    var a := XpPercent(xp1, requiredXp);
    var b := XpPercent(xp2, requiredXp);
    XpPercentMonotone(xp1, xp2, requiredXp);
    TruncMonotone(if sp <= a then sp else a, if sp <= b then sp else b);
  }

  lemma XpPercentMonotone(xp1: int, xp2: int, requiredXp: int)
    requires xp1 <= xp2
    ensures XpPercent(xp1, requiredXp) <= XpPercent(xp2, requiredXp)
  {
    if requiredXp > 0 {
      var r := requiredXp as real;
      assert xp2 as real / r - xp1 as real / r == (xp2 - xp1) as real / r;
    }
  }

  lemma TruncMonotone(x: real, y: real)
    requires x <= y
    ensures Trunc(x) <= Trunc(y)
  {
  }

  /**
   * The recomputation of `update_user_profession_progress` on the user's
   * row: a completed row, or a profession without steps, leaves it as it
   * is; otherwise the percentage is recomputed and the row completes when it
   * reaches 100.
   */
  function Recompute(row: ProgressRow, p: ProfessionRow, ev: Evidence, xp: int): (r: ProgressRow)
    ensures row.status == ProfessionCompleted || p.steps == [] ==> r == row
    ensures row.status == Following && p.steps != [] ==>
      r.percent == FinalPercent(p.steps, ev, xp, p.requiredXp)
      && (r.status == ProfessionCompleted <==> r.percent >= 100)
  {
    if row.status == ProfessionCompleted || p.steps == [] then row
    else
      var f := FinalPercent(p.steps, ev, xp, p.requiredXp);
      ProgressRow(if f >= 100 then ProfessionCompleted else row.status, f)
  }

  /**
   * The recomputation as the service is written against the declared
   * models: Profession has no `required_xp` column, so a following row of a
   * profession with roadmap steps raises AttributeError (`None` here) when
   * the experience requirement is read, if not already at a COMPETE step's
   * undeclared `olympiad`.
   */
  function RecomputeAsWritten(row: ProgressRow, p: ProfessionRow): (r: Option<ProgressRow>)
  {
    if row.status == ProfessionCompleted || p.steps == [] then Some(row) else None
  }

  /** As written, no call ever changes a row: a following row is never recomputed, so it never completes. */
  lemma AsWrittenNeverProgresses(row: ProgressRow, p: ProfessionRow)
    ensures RecomputeAsWritten(row, p) == Some(row) || RecomputeAsWritten(row, p) == None
    ensures row.status == Following && p.steps != [] ==> RecomputeAsWritten(row, p).None?
  {
  }

  /**
   * A profession with one optional step and no experience requirement: the
   * intended recomputation completes a new row at once, the code as written
   * raises.
   */
  lemma AsWrittenRaisesWhereIntendedCompletes()
    ensures var p := ProfessionRow(0, [RoadmapStep(Practice, None, None, false)]);
            RecomputeAsWritten(NewRow, p).None?
            && Recompute(NewRow, p, Evidence(map[], map[]), 0) == ProgressRow(ProfessionCompleted, 100)
  {
    var steps := [RoadmapStep(Practice, None, None, false)];
    assert steps[..0] == [];
    assert Mandatory(steps) == 0;
  }

  /** Recomputing twice with the same rows is recomputing once. */
  lemma RecomputeIdempotent(row: ProgressRow, p: ProfessionRow, ev: Evidence, xp: int)
    ensures Recompute(Recompute(row, p, ev, xp), p, ev, xp) == Recompute(row, p, ev, xp)
  {
  }

  /** The tables the service reads and writes. */
  class ProfessionStore {
    var progress: map<(UserId, ProfessionId), ProgressRow>
    var notifications: seq<(UserId, ProfessionId)>

    constructor()
      ensures progress == map[] && notifications == []
    {
      progress := map[];
      notifications := [];
    }

    /** The user's row, or what `get_or_create` would make. */
    function RowOf(uid: UserId, pid: ProfessionId): ProgressRow
      reads this
    {
      if (uid, pid) in progress then progress[(uid, pid)] else NewRow
    }

    /**
     * `update_user_profession_progress`: the row is fetched or created, then
     * recomputed; a row that completes now sends one achievement
     * notification.  Only this row changes.
     */
    method UpdateUserProfessionProgress(uid: UserId, pid: ProfessionId, p: ProfessionRow, ev: Evidence, xp: int)
      returns (row: ProgressRow)
      modifies this
      ensures row == Recompute(old(RowOf(uid, pid)), p, ev, xp)
      ensures progress == old(progress)[(uid, pid) := row]
      ensures notifications == old(notifications)
        + (if old(RowOf(uid, pid)).status == Following && row.status == ProfessionCompleted then [(uid, pid)] else [])
    {
      row := RowOf(uid, pid);
      progress := progress[(uid, pid) := row];
      if row.status == ProfessionCompleted {
        return;
      }
      if p.steps == [] {
        return;
      }
      var finalProgress := ComputeFinalPercent(p.steps, ev, xp, p.requiredXp);
      row := row.(percent := finalProgress);
      if finalProgress >= 100 && row.status != ProfessionCompleted {
        row := row.(status := ProfessionCompleted);
        progress := progress[(uid, pid) := row];
        notifications := notifications + [(uid, pid)];
      } else {
        progress := progress[(uid, pid) := row];
      }
    }

    /** The percentage part of `update_user_profession_progress`: the smaller of the step and experience shares, truncated. */
    static method ComputeFinalPercent(steps: seq<RoadmapStep>, ev: Evidence, xp: int, requiredXp: int) returns (f: int)
      ensures f == FinalPercent(steps, ev, xp, requiredXp)
    {
      var total := Mandatory(steps);
      var done := CountMandatoryDone(steps, ev);
      var stepProgress := if total > 0 then (done as real / total as real) * 100.0 else 100.0;
      var xpProgress := 100.0;
      if requiredXp > 0 {
        xpProgress := (xp as real / requiredXp as real) * 100.0;
        xpProgress := if 100.0 <= xpProgress then 100.0 else xpProgress;
      }
      f := Trunc(if stepProgress <= xpProgress then stepProgress else xpProgress);
    }

    /** The counting loop of `update_user_profession_progress`: the mandatory steps done, in step order. */
    static method CountMandatoryDone(steps: seq<RoadmapStep>, ev: Evidence) returns (done: nat)
      ensures done == MandatoryDone(steps, ev)
    {
      done := 0;
      var i := 0;
      while i < |steps|
        invariant 0 <= i <= |steps|
        invariant done == MandatoryDone(steps[..i], ev)
      {
        var step := steps[i];
        assert steps[..i + 1][..i] == steps[..i];
        if step.isMandatory {
          if step.stepType == Learn && step.course.Some? {
            if step.course.value in ev.enrollments && ev.enrollments[step.course.value] >= 100.0 {
              done := done + 1;
            }
          } else if step.stepType == Compete && step.olympiad.Some? {
            if step.olympiad.value in ev.results && ev.results[step.olympiad.value] == AttemptCompleted {
              done := done + 1;
            }
          }
        }
        i := i + 1;
      }
      assert steps[..|steps|] == steps;
    }

    /** The professions the user follows. */
    function FollowedBy(uid: UserId): set<ProfessionId>
      reads this
    {
      set key | key in progress && key.0 == uid && progress[key].status == Following :: key.1
    }

    /**
     * `update_all_active_professions`: every profession the user follows is
     * recomputed, in whatever order the rows come; rows of other users and
     * completed rows are untouched.
     */
    method UpdateAllActiveProfessions(uid: UserId, professions: map<ProfessionId, ProfessionRow>, ev: Evidence, xp: int)
      requires forall key :: key in progress && key.0 == uid ==> key.1 in professions
      modifies this
      ensures progress.Keys == old(progress.Keys)
      ensures forall key :: key in progress && !(key.0 == uid && old(progress[key]).status == Following) ==>
        progress[key] == old(progress[key])
      ensures forall key :: key in progress && key.0 == uid && old(progress[key]).status == Following ==>
        progress[key] == Recompute(old(progress[key]), professions[key.1], ev, xp)
    {
      var pending := FollowedBy(uid);
      ghost var start := progress;
      while pending != {}
        invariant progress.Keys == start.Keys
        invariant forall pid :: pid in pending ==> (uid, pid) in start && start[(uid, pid)].status == Following
        invariant forall key :: key in progress && !(key.0 == uid && start[key].status == Following) ==> progress[key] == start[key]
        invariant forall key :: key in progress && key.0 == uid && start[key].status == Following && key.1 !in pending ==>
          progress[key] == Recompute(start[key], professions[key.1], ev, xp)
        invariant forall pid :: pid in pending ==> progress[(uid, pid)] == start[(uid, pid)]
        decreases |pending|
      {
        if forall y :: y !in pending {
          assert false;
        }
        var next :| next in pending;
        assert RowOf(uid, next) == start[(uid, next)];
        var _ := UpdateUserProfessionProgress(uid, next, professions[next], ev, xp);
        pending := pending - {next};
      }
    }
  }
}
