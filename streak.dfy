/**
 * The daily learning streak: one stored row per user, advanced by each
 * recorded activity.  Dates are day numbers (the local calendar date as a
 * count of days), so "yesterday" is `today - 1` and a gap is a difference.
 */
module Streak {
  import opened Text
  import opened Models

  /** A `UserStreak` row; a fresh row has every counter at 0 and no date. */
  datatype StreakRow = StreakRow(current: int, maxStreak: int, lastDate: Option<int>, freezes: int)

  const FreshStreak := StreakRow(0, 0, None, 0)

  /** Which branch of the update ran; the source reports it as a message. */
  datatype StreakEvent = AlreadyActive | Extended | Started | Saved(used: int) | Reset

  /** One `ActivityLog` row. */
  datatype Activity = Activity(user: UserId, kind: string, description: string, points: int)

  /** What one recorded activity yields: the `updated` flag, the event, the new row. */
  datatype StreakOutcome = StreakOutcome(updated: bool, event: StreakEvent, freezeEarned: bool, row: StreakRow)

  /** The counters can never be negative and the best streak bounds the current one. */
  predicate WellFormed(s: StreakRow)
  {
    0 <= s.current <= s.maxStreak && 0 <= s.freezes
  }

  /** The streak after the day's branch, before the best streak and the reward. */
  function Branch(s: StreakRow, today: int): (r: (StreakEvent, StreakRow))
  {
    match s.lastDate
    case None => (Started, s.(current := 1))
    case Some(last) =>
      if last == today - 1 then (Extended, s.(current := s.current + 1))
      else
        var needed := (today - last) - 1;
        if 0 < needed <= s.freezes then (Saved(needed), s.(freezes := s.freezes - needed, current := s.current + 1))
        else (Reset, s.(current := 1))
  }

  /**
   * `StreakService.record_activity` on the user's row: a second activity on
   * the same day changes nothing; otherwise the branch runs, the best streak
   * catches up, the date becomes today, and a freeze is earned on every
   * multiple of seven.
   */
  function Record(s: StreakRow, today: int): (r: StreakOutcome)
    requires WellFormed(s)
    ensures WellFormed(r.row)
    ensures r.updated <==> s.lastDate != Some(today)
    ensures r.updated ==> r.row.lastDate == Some(today) && 1 <= r.row.current
    ensures r.updated ==> r.row.maxStreak == if r.row.current > s.maxStreak then r.row.current else s.maxStreak
  {
    if s.lastDate == Some(today) then StreakOutcome(false, AlreadyActive, false, s)
    else
      var (event, b) := Branch(s, today);
      var best := if b.current > b.maxStreak then b.current else b.maxStreak;
      var earned := b.current % 7 == 0;
      var row := b.(maxStreak := best, lastDate := Some(today), freezes := if earned then b.freezes + 1 else b.freezes);
      StreakOutcome(true, event, earned, row)
  }

  /** A second activity on the same day reports no update and changes nothing. */
  lemma SameDayIsIdempotent(s: StreakRow, today: int)
    requires WellFormed(s)
    ensures var once := Record(s, today).row;
      var twice := Record(once, today);
      !twice.updated && twice.row == once && twice.event == AlreadyActive
  {
  }

  /**
   * The day's branch: yesterday extends by one, a first activity starts at
   * one, a gap of d days spends d - 1 freezes and extends when there are
   * enough of them, and otherwise the streak restarts at one.
   */
  lemma RecordBranches(s: StreakRow, today: int)
    requires WellFormed(s) && s.lastDate != Some(today)
    ensures var r := Record(s, today);
      && (s.lastDate == Some(today - 1) ==> r.event == Extended && r.row.current == s.current + 1)
      && (s.lastDate == None ==> r.event == Started && r.row.current == 1)
      && (s.lastDate.Some? && s.lastDate.value != today - 1 ==>
            var needed := today - s.lastDate.value - 1;
            if 1 <= needed <= s.freezes
            then r.event == Saved(needed) && r.row.current == s.current + 1
            else r.event == Reset && r.row.current == 1)
  {
  }

  /**
   * Freezes: one is earned exactly when the new streak is a multiple of
   * seven, and a rescued gap consumes exactly the missed days.
   */
  lemma RecordFreezes(s: StreakRow, today: int)
    requires WellFormed(s) && s.lastDate != Some(today)
    ensures var r := Record(s, today);
      var spent := if r.event.Saved? then r.event.used else 0;
      && (r.freezeEarned <==> r.row.current % 7 == 0)
      && r.row.freezes == s.freezes - spent + (if r.freezeEarned then 1 else 0)
  {
  }

  /** The best streak never decreases, whatever the day. */
  lemma RecordKeepsBest(s: StreakRow, today: int)
    requires WellFormed(s)
    ensures s.maxStreak <= Record(s, today).row.maxStreak
  {
  }

  /** Activities on the given days, in order, starting from row `s`. */
  function Replay(s: StreakRow, days: seq<int>): (r: StreakRow)
    requires WellFormed(s)
    ensures WellFormed(r)
    decreases |days|
  {
    if days == [] then s else Replay(Record(s, days[0]).row, days[1..])
  }

  /** The days first + 1, ..., first + n. */
  function Run(first: int, n: nat): (days: seq<int>)
    ensures |days| == n && forall i :: 0 <= i < n ==> days[i] == first + 1 + i
  {
    seq(n, i => first + 1 + i)
  }

  /**
   * Activity on n consecutive days after the last active day extends the
   * streak by exactly n and leaves the last date on the final day.
   */
  lemma {:induction false} ConsecutiveDays(s: StreakRow, n: nat)
    requires WellFormed(s) && s.lastDate.Some?
    ensures var r := Replay(s, Run(s.lastDate.value, n));
      r.current == s.current + n && r.lastDate == Some(s.lastDate.value + n)
    decreases n
  {
    var last := s.lastDate.value;
    var days := Run(last, n);
    if n > 0 {
      var s1 := Record(s, last + 1).row;
      assert days[0] == last + 1;
      assert s1.current == s.current + 1 && s1.lastDate == Some(last + 1);
      assert days[1..] == Run(last + 1, n - 1);
      ConsecutiveDays(s1, n - 1);
    }
  }

  /** The best streak of a replay is at least that of its start and of every step. */
  lemma {:induction false} ReplayKeepsBest(s: StreakRow, days: seq<int>)
    requires WellFormed(s)
    ensures s.maxStreak <= Replay(s, days).maxStreak
    ensures Replay(s, days).current <= Replay(s, days).maxStreak
    decreases |days|
  {
    if days != [] {
      RecordKeepsBest(s, days[0]);
      ReplayKeepsBest(Record(s, days[0]).row, days[1..]);
    }
  }

  /** The `UserStreak` and `ActivityLog` tables. */
  /** Every stored row is well formed. */
  ghost predicate AllWellFormed(streaks: map<UserId, StreakRow>)
  {
    forall u :: u in streaks ==> WellFormed(streaks[u])
  }

  /** `get_user_streak`: the stored row, or a fresh one for a user without a row. */
  function RowOf(streaks: map<UserId, StreakRow>, uid: UserId): (s: StreakRow)
    ensures uid !in streaks ==> s == FreshStreak
    ensures AllWellFormed(streaks) ==> WellFormed(s)
  {
    if uid in streaks then streaks[uid] else FreshStreak
  }

  class StreakStore {
    var streaks: map<UserId, StreakRow>
    var log: seq<Activity>

    /** Every stored row is well formed. */
    ghost predicate Valid()
      reads this
    {
      AllWellFormed(streaks)
    }

    constructor()
      ensures streaks == map[] && log == [] && Valid()
    {
      streaks := map[];
      log := [];
    }

    /**
     * `record_activity`: log the activity, then advance the user's row
     * (created on first use) exactly as `Record` says.
     */
    method RecordActivity(uid: UserId, kind: string, description: string, points: int, today: int)
      returns (updated: bool, event: StreakEvent, streak: int)
      requires Valid()
      modifies this
      ensures Valid()
      ensures log == old(log) + [Activity(uid, kind, description, points)]
      ensures var r := Record(RowOf(old(streaks), uid), today);
        && streaks == old(streaks)[uid := r.row]
        && updated == r.updated && event == r.event && streak == r.row.current
    {
      log := log + [Activity(uid, kind, description, points)];
      var row := RowOf(streaks, uid);
      streaks := streaks[uid := row];
      if row.lastDate == Some(today) {
        return false, AlreadyActive, row.current;
      }
      var current := row.current;
      var freezes := row.freezes;
      if row.lastDate == Some(today - 1) {
        current := current + 1;
        event := Extended;
      } else if row.lastDate == None {
        current := 1;
        event := Started;
      } else {
        var needed := (today - row.lastDate.value) - 1;
        if 0 < needed <= freezes {
          freezes := freezes - needed;
          current := current + 1;
          event := Saved(needed);
        } else {
          current := 1;
          event := Reset;
        }
      }
      var best := row.maxStreak;
      if current > best {
        best := current;
      }
      if current % 7 == 0 {
        freezes := freezes + 1;
      }
      streaks := streaks[uid := StreakRow(current, best, Some(today), freezes)];
      updated := true;
      streak := current;
    }
  }
}
