/**
 * The habit tracker: adding a habit, ticking a day on or off, deleting a
 * habit, and asking whether a habit was done on a day.
 */
module HabitTracker {
  import opened Common
  import opened Seqs
  import opened Entities
  import opened Helpers

  /** The identity key, for filtering days by value. */
  function DayOf(d: Day): Day { d }

  /** `isCompleted`: the day is among the habit's completed days. */
  predicate IsCompleted(h: Habit, date: Day)
    ensures IsCompleted(h, date) <==> multiset(h.completedDates)[date] > 0
  {
    date in h.completedDates
  }

  /**
   * `addHabit`: a blank name changes nothing; otherwise a habit with that
   * name, the fresh id and no completed days goes at the end.
   */
  function AddHabit(habits: seq<Habit>, name: string, freshId: Id): (r: seq<Habit>)
    ensures IsBlank(name) ==> r == habits
    ensures !IsBlank(name) ==>
      |r| == |habits| + 1 && r[..|habits|] == habits
      && r[|habits|].id == freshId && r[|habits|].name == name
      && forall d :: !IsCompleted(r[|habits|], d)
  {
    if IsBlank(name) then habits else habits + [Habit(freshId, name, [])]
  }

  /**
   * The completed days once `date` is toggled: when present, every copy of
   * it goes and the rest keep their order; when absent, it goes at the end.
   */
  function ToggleDates(dates: seq<Day>, date: Day): (r: seq<Day>)
    ensures date in r <==> date !in dates
    ensures forall d :: d != date ==> (d in r <==> d in dates)
    ensures date !in dates ==> r == dates + [date]
    ensures date in dates ==> |r| < |dates|
    ensures date in dates ==> multiset(r) == multiset(dates)[date := 0]
  {
    if date in dates then
      WhereWithoutSplit(dates, DayOf, date);
      assert date in Where(dates, DayOf, date);
      WithoutDayCounts(dates, date);
      Without(dates, DayOf, date)
    else
      dates + [date]
  }

  /** Removing a day keeps every other day as often as it was recorded, and no copy of the removed one. */
  lemma {:induction false} WithoutDayCounts(dates: seq<Day>, date: Day)
    ensures multiset(Without(dates, DayOf, date)) == multiset(dates)[date := 0]
  {
    if dates != [] {
      WithoutDayCounts(dates[1..], date);
      assert dates == [dates[0]] + dates[1..];
    }
  }

  /** `toggleDay`: only the habits with the given id change, and only on that day. */
  function ToggleDay(habits: seq<Habit>, habitId: Id, date: Day): (r: seq<Habit>)
    ensures |r| == |habits|
    ensures forall i :: 0 <= i < |habits| && habits[i].id != habitId ==> r[i] == habits[i]
    ensures forall i :: 0 <= i < |habits| && habits[i].id == habitId ==>
      r[i] == habits[i].(completedDates := ToggleDates(habits[i].completedDates, date))
    ensures forall i :: 0 <= i < |habits| && habits[i].id == habitId ==>
      r[i].id == habitId && r[i].name == habits[i].name
      && (IsCompleted(r[i], date) <==> !IsCompleted(habits[i], date))
      && (forall d :: d != date ==> (IsCompleted(r[i], d) <==> IsCompleted(habits[i], d)))
  {
    seq(|habits|, i requires 0 <= i < |habits| =>
      if habits[i].id != habitId then habits[i]
      else habits[i].(completedDates := ToggleDates(habits[i].completedDates, date)))
  }

  /** `deleteHabit` once confirmed: every habit with the id goes, the rest keep their order. */
  function DeleteHabit(habits: seq<Habit>, id: Id): (r: seq<Habit>)
    ensures |r| <= |habits|
    ensures forall i :: 0 <= i < |r| ==> r[i] in habits && r[i].id != id
    ensures forall i :: 0 <= i < |habits| && habits[i].id != id ==> habits[i] in r
  {
    Without(habits, HabitId, id)
  }

  /** Ticking a day that was not ticked and then unticking it restores the days. */
  lemma ToggleDatesTwice(dates: seq<Day>, date: Day)
    requires date !in dates
    ensures ToggleDates(ToggleDates(dates, date), date) == dates
  {
    WithoutConcat(dates, [date], DayOf, date);
    WithoutNothing(dates, DayOf, date);
    assert Without([date], DayOf, date) == [];
  }

  /** Toggling the same day twice on a habit list, from unticked, is the identity. */
  lemma ToggleDayTwice(habits: seq<Habit>, habitId: Id, date: Day)
    requires forall i :: 0 <= i < |habits| && habits[i].id == habitId ==> !IsCompleted(habits[i], date)
    ensures ToggleDay(ToggleDay(habits, habitId, date), habitId, date) == habits
  {
    var once := ToggleDay(habits, habitId, date);
    var twice := ToggleDay(once, habitId, date);
    forall i | 0 <= i < |habits| ensures twice[i] == habits[i] {
      if habits[i].id == habitId {
        ToggleDatesTwice(habits[i].completedDates, date);
      }
    }
  }

  /** Adding a habit under a fresh id keeps the ids unique. */
  lemma AddHabitKeepsIdsUnique(habits: seq<Habit>, name: string, freshId: Id)
    requires UniqueBy(habits, HabitId)
    requires forall i :: 0 <= i < |habits| ==> habits[i].id != freshId
    ensures UniqueBy(AddHabit(habits, name, freshId), HabitId)
  {
    if !IsBlank(name) {
      AppendKeepsUnique(habits, Habit(freshId, name, []), HabitId);
    }
  }

  /** With unique ids, deleting a listed habit removes exactly that one. */
  lemma DeleteHabitRemovesOne(habits: seq<Habit>, k: nat)
    requires UniqueBy(habits, HabitId) && k < |habits|
    ensures DeleteHabit(habits, habits[k].id) == habits[..k] + habits[k + 1..]
    ensures UniqueBy(DeleteHabit(habits, habits[k].id), HabitId)
  {
    WithoutRemovesOne(habits, HabitId, k);
    WithoutKeepsUnique(habits, HabitId, habits[k].id);
  }

  /** The streak shown beside a habit: `calculateStreak(habit.completedDates)` on day `today`. */
  function ShownStreak(h: Habit, today: Day): (streak: nat)
    ensures streak <= |h.completedDates|
  {
    StreakOf(h.completedDates, today)
  }

  /**
   * Ticking today on a habit whose run ends yesterday, with the two days
   * before the run missing, lengthens the shown streak by exactly one.
   */
  lemma TickTodayExtendsStreak(h: Habit, today: Day, n: nat, older: seq<Day>)
    requires h.completedDates == Range(today - 1, n) + older
    requires forall i :: 0 <= i < |older| ==> older[i] < today - 2 - n
    ensures !IsCompleted(h, today)
    ensures ShownStreak(h.(completedDates := ToggleDates(h.completedDates, today)), today) == n + 1
  {
    TodayNotInRun(today, n, older);
    TickedRun(today, n, older);
    var ticked := ToggleDates(h.completedDates, today);
    StreakOrderIndependent(ticked, Range(today, n + 1) + older, today);
    StreakStopsAfterTwoMissingDays(today, n + 1, older);
  }

  lemma TodayNotInRun(today: Day, n: nat, older: seq<Day>)
    requires forall i :: 0 <= i < |older| ==> older[i] < today - 2 - n
    ensures today !in Range(today - 1, n) + older
  {
    var dates := Range(today - 1, n) + older;
    forall i | 0 <= i < |dates| ensures dates[i] != today {
      if i >= n {
        assert dates[i] == older[i - n];
      }
    }
  }

  lemma TickedRun(today: Day, n: nat, older: seq<Day>)
    ensures multiset(Range(today - 1, n) + older + [today]) == multiset(Range(today, n + 1) + older)
  {
    assert Range(today, n + 1) == [today] + Range(today - 1, n);
  }
}
