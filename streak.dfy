/** The streak tracker: how many consecutive calendar days (Asia/Ho_Chi_Minh) the student
    has answered at least one question. Days are whole numbers and "yesterday" is
    `today - 1`; the stored empty date string of a student who never studied is `None`. */
module Streak {
  import opened Wrappers

  datatype StreakData = StreakData(currentStreak: nat, longestStreak: nat, lastActiveDate: Option<int>)

  /** What getData returns when nothing is stored. */
  const Initial := StreakData(0, 0, None)

  /** recordActivity on the stored record: a second call on the same day changes nothing;
      otherwise the streak goes up by one after yesterday's activity and restarts at one
      after a gap or on the very first day, the longest streak follows it, and today
      becomes the last active day. */
  function Recorded(d: StreakData, today: int): (r: StreakData)
    ensures d.lastActiveDate == Some(today) ==> r == d
    ensures d.lastActiveDate != Some(today) ==>
      && r.currentStreak == (if d.lastActiveDate == Some(today - 1) then d.currentStreak + 1 else 1)
      && r.longestStreak == (if d.longestStreak >= r.currentStreak then d.longestStreak else r.currentStreak)
      && r.lastActiveDate == Some(today)
  {
    if d.lastActiveDate == Some(today) then d
    else
      var current := if d.lastActiveDate == Some(today - 1) then d.currentStreak + 1 else 1;
      StreakData(current, if d.longestStreak >= current then d.longestStreak else current, Some(today))
  }

  /** Recording twice on the same day is the same as recording once. */
  lemma RecordIdempotent(d: StreakData, today: int)
    ensures Recorded(Recorded(d, today), today) == Recorded(d, today)
  {}

  /** The longest streak never decreases, and after recording it covers the current one. */
  lemma RecordKeepsLongest(d: StreakData, today: int)
    ensures Recorded(d, today).longestStreak >= d.longestStreak
    ensures d.longestStreak >= d.currentStreak ==>
            Recorded(d, today).longestStreak >= Recorded(d, today).currentStreak
  {}

  /** getStreak on the stored record: a streak whose last day is neither today nor
      yesterday reads as 0; the longest streak and the date are reported as stored. */
  function Reported(d: StreakData, today: int): (r: StreakData)
    ensures r.longestStreak == d.longestStreak && r.lastActiveDate == d.lastActiveDate
    ensures r.currentStreak == (if d.lastActiveDate == Some(today) || d.lastActiveDate == Some(today - 1)
                                then d.currentStreak else 0)
  {
    if d.lastActiveDate != Some(today) && d.lastActiveDate != Some(today - 1) then d.(currentStreak := 0)
    else d
  }

  /** Studying on n consecutive days from a fresh start gives a streak of n. */
  function StudyRun(d: StreakData, first: int, n: nat): StreakData
    decreases n
  {
    if n == 0 then d else Recorded(StudyRun(d, first, n - 1), first + n - 1)
  }

  lemma {:induction false} ConsecutiveDays(first: int, n: nat)
    requires n >= 1
    ensures StudyRun(Initial, first, n) == StreakData(n, n, Some(first + n - 1))
  {
    if n > 1 {
      ConsecutiveDays(first, n - 1);
    }
  }

  /** A day's gap resets the streak to 1 but keeps the longest, and is read as 0 before
      the student studies again. */
  lemma GapResets(d: StreakData, today: int)
    requires d.lastActiveDate.Some? && d.lastActiveDate.value < today - 1
    ensures Reported(d, today).currentStreak == 0
    ensures Recorded(d, today).currentStreak == 1
    ensures Recorded(d, today).longestStreak == if d.longestStreak >= 1 then d.longestStreak else 1
  {}

  /** The stored streak record. */
  class StreakStore {
    var currentStreak: nat
    var longestStreak: nat
    var lastActiveDate: Option<int>

    function Data(): StreakData
      reads this
    {
      StreakData(currentStreak, longestStreak, lastActiveDate)
    }

    constructor ()
      ensures Data() == Initial
    {
      currentStreak, longestStreak, lastActiveDate := 0, 0, None;
    }

    /** recordActivity. */
    method RecordActivity(today: int)
      modifies this
      ensures Data() == Recorded(old(Data()), today)
    {
      if lastActiveDate == Some(today) {
        return;
      }
      if lastActiveDate == Some(today - 1) {
        currentStreak := currentStreak + 1;
      } else if lastActiveDate == None {
        currentStreak := 1;
      } else {
        currentStreak := 1;
      }
      longestStreak := if longestStreak >= currentStreak then longestStreak else currentStreak;
      lastActiveDate := Some(today);
    }

    /** getStreak: reads without writing. */
    function GetStreak(today: int): (r: StreakData)
      reads this
      ensures r == Reported(Data(), today)
    {
      if lastActiveDate != Some(today) && lastActiveDate != Some(today - 1) then Data().(currentStreak := 0)
      else Data()
    }

    /** resetStreak. */
    method ResetStreak()
      modifies this
      ensures Data() == Initial
    {
      currentStreak, longestStreak, lastActiveDate := 0, 0, None;
    }
  }
}
