/**
 * The derived statistics of the dashboard: weighted grade average, project
 * progress, habit streak and the Monday-based week of the habit grid.
 * "Today" and the date the week is built around are parameters.
 */
module Helpers {
  import opened Common
  import opened Seqs
  import opened Entities

  // ---- Weighted grade average ------------------------------------------

  /** `e.status === 'passed' && e.grade`: a passed exam with a non-zero grade. */
  function Qualifies(e: Exam): bool
  {
    e.status == Passed && e.grade.Some? && e.grade.value != 0
  }

  /** grade · cfu of an exam (0 when ungraded; only qualifying exams are summed). */
  function GradePoints(e: Exam): int
  {
    if e.grade.Some? then e.grade.value * e.cfu else 0
  }

  /**
   * calculateWeightedAverage, in hundredths of a grade point:
   * Σ(grade·cfu) / Σ(cfu) over the qualifying exams, rounded to two decimals,
   * and 0 when no exam qualifies or their credits do not add up to a positive total.
   */
  function WeightedAverage(exams: seq<Exam>): (hundredths: int)
    ensures (forall i :: 0 <= i < |exams| ==> !Qualifies(exams[i])) ==> hundredths == 0
  {
    var passed := Where(exams, Qualifies, true);
    if |passed| == 0 then 0
    else
      var totalWeighted := SumOf(passed, GradePoints);
      var totalCfu := SumOf(passed, ExamCfu);
      if totalCfu > 0 then RoundDiv(100 * totalWeighted, totalCfu) else 0
  }

  /** An exam that is pending or ungraded does not move the average when added. */
  lemma WeightedAverageIgnores(exams: seq<Exam>, e: Exam)
    requires !Qualifies(e)
    ensures WeightedAverage(exams + [e]) == WeightedAverage(exams)
  {
    WhereConcat(exams, [e], Qualifies, true);
    assert Where([e], Qualifies, true) == [] by {
      assert [e][1..] == [];
    }
    assert Where(exams, Qualifies, true) + [] == Where(exams, Qualifies, true);
  }

  lemma ScaledBetween(g: int, c: int, lo: int, hi: int)
    requires c > 0 && lo <= g <= hi
    ensures lo * c <= g * c <= hi * c
  {
    assert (g - lo) * c >= 0 && (hi - g) * c >= 0;
  }

  lemma Times100(x: int, c: int)
    ensures (100 * x) * c == 100 * (x * c)
  {
  }

  lemma BoundsAdd(lo: int, hi: int, c1: int, w1: int, c2: int, w2: int)
    requires lo * c1 <= w1 <= hi * c1 && lo * c2 <= w2 <= hi * c2
    ensures lo * (c1 + c2) <= w1 + w2 <= hi * (c1 + c2)
  {
    assert lo * (c1 + c2) == lo * c1 + lo * c2;
    assert hi * (c1 + c2) == hi * c1 + hi * c2;
  }

  /** Sums over exams whose grades lie in [lo, hi] and whose credits are positive. */
  lemma {:induction false} GradePointsBetween(s: seq<Exam>, lo: int, hi: int)
    requires forall i :: 0 <= i < |s| ==> s[i].grade.Some? && s[i].cfu > 0 && lo <= s[i].grade.value <= hi
    ensures lo * SumOf(s, ExamCfu) <= SumOf(s, GradePoints) <= hi * SumOf(s, ExamCfu)
    ensures s != [] ==> SumOf(s, ExamCfu) > 0
  {
    if s != [] {
      GradePointsBetween(s[1..], lo, hi);
      var g, c := s[0].grade.value, s[0].cfu;
      ScaledBetween(g, c, lo, hi);
      assert SumOf(s, ExamCfu) == c + SumOf(s[1..], ExamCfu);
      assert SumOf(s, GradePoints) == g * c + SumOf(s[1..], GradePoints);
      BoundsAdd(lo, hi, c, g * c, SumOf(s[1..], ExamCfu), SumOf(s[1..], GradePoints));
    }
  }

  /**
   * With positive credits, the average lies between the lowest and the highest
   * qualifying grade.
   */
  lemma WeightedAverageBetween(exams: seq<Exam>, lo: int, hi: int)
    requires exists i :: 0 <= i < |exams| && Qualifies(exams[i])
    requires forall i :: 0 <= i < |exams| && Qualifies(exams[i]) ==> exams[i].cfu > 0 && lo <= exams[i].grade.value <= hi
    ensures 100 * lo <= WeightedAverage(exams) <= 100 * hi
  {
    var passed := Where(exams, Qualifies, true);
    var k :| 0 <= k < |exams| && Qualifies(exams[k]);
    assert exams[k] in passed;
    forall i | 0 <= i < |passed|
      ensures passed[i].grade.Some? && passed[i].cfu > 0 && lo <= passed[i].grade.value <= hi
    {
      assert passed[i] in exams;
    }
    GradePointsBetween(passed, lo, hi);
    var w, c := SumOf(passed, GradePoints), SumOf(passed, ExamCfu);
    Times100(lo, c);
    Times100(hi, c);
    RoundDivBetween(100 * w, c, 100 * lo, 100 * hi);
  }

  /** When every qualifying exam has grade g, the average is exactly g. */
  lemma WeightedAverageUniform(exams: seq<Exam>, g: int)
    requires exists i :: 0 <= i < |exams| && Qualifies(exams[i])
    requires forall i :: 0 <= i < |exams| && Qualifies(exams[i]) ==> exams[i].cfu > 0 && exams[i].grade.value == g
    ensures WeightedAverage(exams) == 100 * g
  {
    WeightedAverageBetween(exams, g, g);
  }

  /** 30 on 6 credits and 24 on 9 credits, plus a pending exam: (180 + 216) / 15 = 26.40. */
  lemma WeightedAverageExample()
    ensures WeightedAverage([
      Exam("a", "Analisi", 6, None, Some(30), Passed),
      Exam("b", "Fisica", 9, None, Some(24), Passed),
      Exam("c", "Chimica", 6, None, None, Pending)]) == 2640
  {
    var a := Exam("a", "Analisi", 6, None, Some(30), Passed);
    var b := Exam("b", "Fisica", 9, None, Some(24), Passed);
    var c := Exam("c", "Chimica", 6, None, None, Pending);
    ExamplePassed(a, b, c);
    ExampleSums(a, b);
    RoundDivUnique(39600, 15, 2640);
  }

  lemma ExamplePassed(a: Exam, b: Exam, c: Exam)
    requires Qualifies(a) && Qualifies(b) && !Qualifies(c)
    ensures Where([a, b, c], Qualifies, true) == [a, b]
  {
    assert [a, b, c][1..] == [b, c] && [b, c][1..] == [c] && [c][1..] == [];
    assert Where([c], Qualifies, true) == [];
    assert Where([b, c], Qualifies, true) == [b] + [];
    assert Where([a, b, c], Qualifies, true) == [a] + [b];
  }

  lemma ExampleSums(a: Exam, b: Exam)
    requires a.grade == Some(30) && a.cfu == 6 && b.grade == Some(24) && b.cfu == 9
    ensures SumOf([a, b], GradePoints) == 396 && SumOf([a, b], ExamCfu) == 15
  {
    assert [a, b][1..] == [b] && [b][1..] == [];
    assert SumOf([b], GradePoints) == 216 + SumOf([], GradePoints);
    assert SumOf([b], ExamCfu) == 9 + SumOf([], ExamCfu);
  }

  // ---- Project progress ------------------------------------------------

  function CompletedCount(tasks: seq<Task>): nat
  {
    |Where(tasks, TaskDone, true)|
  }

  /**
   * calculateProjectProgress: the rounded percentage of completed tasks,
   * 0 for a missing or empty task list.
   */
  function ProjectProgress(tasks: Option<seq<Task>>): (percent: int)
    ensures 0 <= percent <= 100
    ensures tasks.None? || tasks.value == [] ==> percent == 0
  {
    if tasks.None? || |tasks.value| == 0 then 0
    else
      var n := |tasks.value|;
      RoundDivBetween(100 * CompletedCount(tasks.value), n, 0, 100);
      RoundDiv(100 * CompletedCount(tasks.value), n)
  }

  /** A non-empty list whose tasks are all completed is at 100%. */
  lemma ProgressAllDone(tasks: seq<Task>)
    requires tasks != [] && forall i :: 0 <= i < |tasks| ==> tasks[i].completed
    ensures ProjectProgress(Some(tasks)) == 100
  {
    WhereEverything(tasks, TaskDone, true);
    RoundDivBetween(100 * |tasks|, |tasks|, 100, 100);
  }

  /** A list with no completed task is at 0%. */
  lemma ProgressNoneDone(tasks: seq<Task>)
    requires forall i :: 0 <= i < |tasks| ==> !tasks[i].completed
    ensures ProjectProgress(Some(tasks)) == 0
  {
  }

  /** Below 200 tasks, 100% is reached only when every task is completed. */
  lemma ProgressFullMeansAllDone(tasks: seq<Task>)
    requires |tasks| < 200 && ProjectProgress(Some(tasks)) == 100
    ensures forall i :: 0 <= i < |tasks| ==> tasks[i].completed
  {
    var n, c := |tasks|, CompletedCount(tasks);
    if exists k :: 0 <= k < n && !tasks[k].completed {
      WhereWithoutSplit(tasks, TaskDone, true);
      assert false;
    }
  }

  /** From 200 tasks up, one unfinished task still rounds to 100%. */
  lemma ProgressRoundsUpToFull(tasks: seq<Task>)
    requires |tasks| >= 200 && CompletedCount(tasks) == |tasks| - 1
    ensures ProjectProgress(Some(tasks)) == 100
  {
    var n := |tasks|;
    RoundDivUnique(100 * (n - 1), n, 100);
  }

  // ---- Habit streak ----------------------------------------------------

  /** The comparator `(a, b) => b - a` is positive: b is the later day. */
  function Later(a: Day, b: Day): bool { b - a > 0 }

  function AtLeast(a: Day, b: Day): bool { a >= b }

  /** The dates sorted newest first, as calculateStreak sorts them. */
  function SortDescending(dates: seq<Day>): (sorted: seq<Day>)
    ensures multiset(sorted) == multiset(dates)
    ensures SortedBy(sorted, AtLeast)
  {
    SortWithSorted(dates, Later, AtLeast);
    SortWith(dates, Later)
  }

  /**
   * The count the streak loop makes over `sorted` with check date `check`:
   * a date equal to the check date, or one day before it, adds one and moves
   * the check date past it; any other date ends the loop.
   */
  function Run(sorted: seq<Day>, check: Day): (count: nat)
    ensures count <= |sorted|
  {
    if sorted == [] then 0
    else if sorted[0] == check then 1 + Run(sorted[1..], check - 1)
    else if sorted[0] == check - 1 then 1 + Run(sorted[1..], check - 2)
    else 0
  }

  /** calculateStreak(completedDates) evaluated on day `today`. */
  function StreakOf(dates: seq<Day>, today: Day): (streak: nat)
    ensures streak <= |dates|
  {
    if |dates| == 0 then 0 else Run(SortDescending(dates), today)
  }

  /** One step of the streak loop: what the date at position i does to the count. */
  lemma RunAt(sorted: seq<Day>, i: nat, check: Day)
    requires i < |sorted|
    ensures Run(sorted[i..], check) ==
      if sorted[i] == check then 1 + Run(sorted[i + 1..], check - 1)
      else if sorted[i] == check - 1 then 1 + Run(sorted[i + 1..], check - 2)
      else 0
  {
    assert sorted[i..][0] == sorted[i] && sorted[i..][1..] == sorted[i + 1..];
  }

  /** calculateStreak: sort newest first, then walk back from today. */
  method Streak(completedDates: seq<Day>, today: Day) returns (streak: nat)
    ensures streak == StreakOf(completedDates, today)
    ensures streak <= |completedDates|
  {
    if |completedDates| == 0 {
      return 0;
    }
    var sorted := SortDescending(completedDates);
    streak := 0;
    var checkDate := today;
    for i := 0 to |sorted|
      invariant streak + Run(sorted[i..], checkDate) == Run(sorted, today)
    {
      var date := sorted[i];
      RunAt(sorted, i, checkDate);
      if date == checkDate {
        streak := streak + 1;
        checkDate := checkDate - 1;
      } else if date == checkDate - 1 {
        checkDate := checkDate - 1;
        streak := streak + 1;
        checkDate := checkDate - 1;
      } else {
        break;
      }
    }
    assert sorted[|sorted|..] == [];
  }

  /** The first day of a newest-first list is its latest. */
  lemma HeadIsLatest(s: seq<Day>, x: Day)
    requires SortedBy(s, AtLeast) && x in s
    ensures s[0] >= x
  {
    var i :| 0 <= i < |s| && s[i] == x;
    if i > 0 {
      assert AtLeast(s[0], s[i]);
    }
  }

  /** Dropping the first day of a newest-first list leaves a newest-first list of the other days. */
  lemma DescendingTail(a: seq<Day>)
    requires SortedBy(a, AtLeast) && a != []
    ensures SortedBy(a[1..], AtLeast)
    ensures multiset(a[1..]) == multiset(a) - multiset{a[0]}
  {
    assert a == [a[0]] + a[1..];
    forall i, j | 0 <= i < j < |a| - 1 ensures AtLeast(a[1..][i], a[1..][j]) {
      assert a[1..][i] == a[i + 1] && a[1..][j] == a[j + 1];
    }
  }

  /** Two newest-first lists of the same days are the same list. */
  lemma {:induction false} DescendingUnique(a: seq<Day>, b: seq<Day>)
    requires SortedBy(a, AtLeast) && SortedBy(b, AtLeast) && multiset(a) == multiset(b)
    ensures a == b
  {
    assert |a| == |multiset(a)| == |multiset(b)| == |b|;
    if a != [] {
      assert a[0] in multiset(b) && b[0] in multiset(a);
      HeadIsLatest(b, a[0]);
      HeadIsLatest(a, b[0]);
      assert a[0] == b[0];
      DescendingTail(a);
      DescendingTail(b);
      DescendingUnique(a[1..], b[1..]);
      assert a == [a[0]] + a[1..] && b == [b[0]] + b[1..];
    }
  }

  /** The streak depends only on which days are recorded, not on their order. */
  lemma StreakOrderIndependent(a: seq<Day>, b: seq<Day>, today: Day)
    requires multiset(a) == multiset(b)
    ensures StreakOf(a, today) == StreakOf(b, today)
  {
    assert |a| == |multiset(a)| == |b|;
    DescendingUnique(SortDescending(a), SortDescending(b));
  }

  /** A date later than today (the week grid lets one tick a future day) makes the streak 0. */
  lemma StreakZeroWithFutureDate(dates: seq<Day>, today: Day, k: nat)
    requires k < |dates| && dates[k] > today
    ensures StreakOf(dates, today) == 0
  {
    var sorted := SortDescending(dates);
    assert dates[k] in multiset(sorted);
    var i :| 0 <= i < |sorted| && sorted[i] == dates[k];
    assert AtLeast(sorted[0], sorted[i]) || i == 0;
  }

  /** The days from, from − 1, …, from − n + 1, newest first. */
  function Range(from: Day, n: nat): (days: seq<Day>)
    ensures |days| == n
    ensures forall i :: 0 <= i < n ==> days[i] == from - i
    decreases n
  {
    if n == 0 then [] else [from] + Range(from - 1, n - 1)
  }

  lemma RangeUncons(from: Day, n: nat, rest: seq<Day>)
    requires n > 0
    ensures (Range(from, n) + rest)[0] == from
    ensures (Range(from, n) + rest)[1..] == Range(from - 1, n - 1) + rest
  {
    assert Range(from, n) == [from] + Range(from - 1, n - 1);
  }

  /** A run of consecutive days starting at the check date is counted in full. */
  lemma {:induction false} RunOverRange(from: Day, n: nat, rest: seq<Day>)
    ensures Run(Range(from, n) + rest, from) == n + Run(rest, from - n)
    decreases n
  {
    if n > 0 {
      RangeUncons(from, n, rest);
      RunOverRange(from - 1, n - 1, rest);
    } else {
      assert Range(from, n) + rest == rest;
    }
  }

  /** A run of days followed by strictly older days is already newest first. */
  lemma RangeThenOlderSorted(from: Day, n: nat, older: seq<Day>)
    requires SortedBy(older, AtLeast)
    requires forall i :: 0 <= i < |older| ==> older[i] <= from - n
    ensures SortedBy(Range(from, n) + older, AtLeast)
  {
    var all := Range(from, n) + older;
    forall i, j | 0 <= i < j < |all| ensures AtLeast(all[i], all[j]) {
      if j >= n && i < n {
        assert all[j] == older[j - n];
      } else if i >= n {
        assert all[i] == older[i - n] && all[j] == older[j - n];
      }
    }
  }

  /** Sorting a run followed by days older than the run keeps the run in front. */
  lemma SortRangeThenOlder(from: Day, n: nat, older: seq<Day>)
    requires forall i :: 0 <= i < |older| ==> older[i] <= from - n
    ensures SortDescending(Range(from, n) + older) == Range(from, n) + SortDescending(older)
  {
    var sortedOlder := SortDescending(older);
    forall i | 0 <= i < |sortedOlder| ensures sortedOlder[i] <= from - n {
      assert sortedOlder[i] in multiset(older);
    }
    RangeThenOlderSorted(from, n, sortedOlder);
    DescendingUnique(SortDescending(Range(from, n) + older), Range(from, n) + sortedOlder);
  }

  /**
   * A run of n days ending today counts n when the two days before the run
   * are both missing.
   */
  lemma StreakStopsAfterTwoMissingDays(today: Day, n: nat, older: seq<Day>)
    requires forall i :: 0 <= i < |older| ==> older[i] < today - n - 1
    ensures StreakOf(Range(today, n) + older, today) == n
  {
    SortRangeThenOlder(today, n, older);
    RunOverRange(today, n, SortDescending(older));
    var s := SortDescending(older);
    if s != [] {
      assert s[0] in multiset(older);
    }
    if n == 0 && older == [] {
      assert Range(today, n) + older == [];
    }
  }

  /** With no day today or yesterday the streak is 0. */
  lemma StreakZeroWhenStale(dates: seq<Day>, today: Day)
    requires forall i :: 0 <= i < |dates| ==> dates[i] < today - 1
    ensures StreakOf(dates, today) == 0
  {
    assert Range(today, 0) + dates == dates;
    StreakStopsAfterTwoMissingDays(today, 0, dates);
  }

  lemma RangeSorted(from: Day, n: nat)
    ensures SortedBy(Range(from, n), AtLeast)
  {
  }

  /** A run of m days starting the day before the check date counts m. */
  lemma RunAfterGap(check: Day, m: nat)
    ensures Run(Range(check - 1, m), check) == m
  {
    if m > 0 {
      assert Range(check - 1, m) + [] == Range(check - 1, m);
      RangeUncons(check - 1, m, []);
      RunOverRange(check - 2, m - 1, []);
    }
  }

  /** Two runs with a one-day gap between them are already newest first. */
  lemma BridgeSorted(today: Day, n: nat, m: nat)
    ensures SortDescending(Range(today, n) + Range(today - n - 1, m)) == Range(today, n) + Range(today - n - 1, m)
  {
    var second := Range(today - n - 1, m);
    RangeSorted(today - n - 1, m);
    RangeThenOlderSorted(today, n, second);
    DescendingUnique(SortDescending(Range(today, n) + second), Range(today, n) + second);
  }

  /**
   * A single missing day is bridged wherever it falls: a run of n days ending
   * today, a gap of one day, then a run of m days counts n + m.
   */
  lemma StreakBridgesOneMissingDay(today: Day, n: nat, m: nat)
    ensures StreakOf(Range(today, n) + Range(today - n - 1, m), today) == n + m
  {
    var second := Range(today - n - 1, m);
    var all := Range(today, n) + second;
    assert Run(all, today) == n + m by {
      RunOverRange(today, n, second);
      RunAfterGap(today - n, m);
    }
    BridgeSorted(today, n, m);
  }

  /** Today and the day before yesterday: streak 2. */
  lemma StreakExampleTodayAndTwoDaysAgo(today: Day)
    ensures StreakOf([today, today - 2], today) == 2
  {
    StreakBridgesOneMissingDay(today, 1, 1);
    assert Range(today, 1) + Range(today - 2, 1) == [today, today - 2];
  }

  /** Days 10, 9, 8 and 6 seen on day 10: streak 4, the gap on day 7 is bridged. */
  lemma StreakExampleGapBridged(today: Day)
    ensures StreakOf([today, today - 1, today - 2, today - 4], today) == 4
  {
    StreakBridgesOneMissingDay(today, 3, 1);
    assert Range(today, 3) + Range(today - 4, 1) == [today, today - 1, today - 2, today - 4];
  }

  // ---- The streak as evidently intended --------------------------------

  /** The number of days check, check − 1, … present at the front of `sorted`. */
  function Consecutive(sorted: seq<Day>, check: Day): (count: nat)
    ensures count <= |sorted|
  {
    if sorted != [] && sorted[0] == check then 1 + Consecutive(sorted[1..], check - 1) else 0
  }

  /**
   * The usual streak: the consecutive run ending today, or ending yesterday
   * when today is not ticked, stopping at the first missing day.
   */
  function StrictStreak(dates: seq<Day>, today: Day): (streak: nat)
    ensures streak <= |dates|
  {
    var sorted := SortDescending(dates);
    if sorted != [] && sorted[0] == today - 1 then Consecutive(sorted, today - 1)
    else Consecutive(sorted, today)
  }

  /** Like the code's streak, the corrected one depends only on which days are recorded. */
  lemma StrictStreakOrderIndependent(a: seq<Day>, b: seq<Day>, today: Day)
    requires multiset(a) == multiset(b)
    ensures StrictStreak(a, today) == StrictStreak(b, today)
  {
    DescendingUnique(SortDescending(a), SortDescending(b));
  }

  lemma {:induction false} ConsecutiveOverRange(from: Day, n: nat, rest: seq<Day>)
    ensures Consecutive(Range(from, n) + rest, from) == n + Consecutive(rest, from - n)
    decreases n
  {
    if n > 0 {
      RangeUncons(from, n, rest);
      ConsecutiveOverRange(from - 1, n - 1, rest);
    } else {
      assert Range(from, n) + rest == rest;
    }
  }

  /** A run of n days ending today counts exactly n once the day before it is missing. */
  lemma StrictStreakStopsAtGap(today: Day, n: nat, older: seq<Day>)
    requires n > 0
    requires forall i :: 0 <= i < |older| ==> older[i] < today - n
    ensures StrictStreak(Range(today, n) + older, today) == n
  {
    SortRangeThenOlder(today, n, older);
    var s := SortDescending(older);
    ConsecutiveOverRange(today, n, s);
    if s != [] {
      assert s[0] in multiset(older);
    }
  }

  /** A run of n days ending yesterday, with the day before it missing, counts exactly n. */
  lemma StrictStreakFromYesterday(today: Day, n: nat, older: seq<Day>)
    requires n > 0
    requires forall i :: 0 <= i < |older| ==> older[i] < today - 1 - n
    ensures StrictStreak(Range(today - 1, n) + older, today) == n
  {
    SortRangeThenOlder(today - 1, n, older);
    var s := SortDescending(older);
    ConsecutiveOverRange(today - 1, n, s);
    if s != [] {
      assert s[0] in multiset(older);
    }
  }

  /** On days 10, 9, 8 and 6 the code counts 4 where the documented streak is 3. */
  lemma StreakBridgeDiffersFromStrict(today: Day)
    ensures StreakOf([today, today - 1, today - 2, today - 4], today) == 4
    ensures StrictStreak([today, today - 1, today - 2, today - 4], today) == 3
  {
    StreakExampleGapBridged(today);
    GapExampleDays(today);
    StrictStreakStopsAtGap(today, 3, [today - 4]);
  }

  lemma GapExampleDays(today: Day)
    ensures Range(today, 3) + [today - 4] == [today, today - 1, today - 2, today - 4]
  {
  }

  // ---- The Monday-based week -------------------------------------------

  /** `getDay()`: 0 for Sunday … 6 for Saturday; day 0 (1970-01-01) was a Thursday. */
  function WeekDay(d: Day): int
  {
    (d + 4) % 7
  }

  /**
   * getWeekDates: seven consecutive days from date − getDay() + 1. That is the
   * Monday of the date's week, except on a Sunday, where it is the next day.
   */
  method WeekDates(date: Day) returns (week: seq<Day>)
    ensures |week| == 7
    ensures forall i :: 0 <= i < 6 ==> week[i + 1] == week[i] + 1
    ensures WeekDay(week[0]) == 1
    ensures WeekDay(date) == 0 ==> week[0] == date + 1
    ensures WeekDay(date) != 0 ==> week[0] <= date <= week[6]
  {
    var start := date - WeekDay(date) + 1;
    week := [];
    for i := 0 to 7
      invariant |week| == i
      invariant forall k :: 0 <= k < i ==> week[k] == start + k
    {
      week := week + [start + i];
    }
    var q := (date + 4) / 7;
    assert date + 4 == 7 * q + WeekDay(date);
    assert start + 4 == 7 * q + 1;
  }
}
