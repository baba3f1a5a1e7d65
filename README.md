# Life dashboard — a Dafny model

This project models the core of a personal productivity dashboard, a single-page React application. It keeps five
collections and one number in the browser's local storage:

- exams, with credits (CFU), an optional grade and a pending/passed status;
- projects, each with a task list;
- habits, each with its completed days;
- goals, with a target and a current value;
- transactions, income or expense in a category;
- a monthly budget.

The model covers:

- **the statistics helpers** (`src/utils/helpers.js`): the credit-weighted grade average, project progress, the
  habit streak and the Monday-based week;
- **the section components**: how each one changes its collection (add, edit, toggle, delete) and the views it
  derives (filters, sort orders, counts, percentages, the monthly budget figures and the per-category breakdown);
- **the application store** (`src/App.jsx`): the six persisted slots, the JSON backup export and the import merge.

Units and conventions:

- Day values are day numbers counted from 1970-01-01. Transactions carry a calendar date, so that "this month" is
  a comparison of year and month.
- Money is in integer cents. The weighted average is in hundredths of a grade point.
- `Math.round(p / q)` is computed exactly, as `Common.RoundDiv`.
- JavaScript's `Array.prototype.sort` is modelled as a stable insertion sort driven by the same comparator.
- Fresh ids, "today" and the export time are parameters.

Modules follow the source files:

- `Helpers` — `helpers.js`;
- `HabitTracker`, `GoalProgress` — the habit components;
- `TaskList`, `ProjectsSection`, `ProjectCard` — the project components;
- `ExamList`, `GradeStats` — the study components;
- `TransactionList`, `BudgetOverview` — the finance components;
- `App` — `App.jsx`.

`Common`, `Seqs` and `Entities` hold the shared definitions. The code is imperative in a few places, and there the
model is too:

- `Helpers.Streak`, `Helpers.WeekDates` and `BudgetOverview.ExpensesByCategory` are methods with loops. Each is
  proved against a specification function.
- `App.Store` is a class whose `Import` updates the slots in place.

The rest is functional: every collection update in the components is a `map`/`filter`/spread expression, and the
model states it as a function.

The usual streak is the consecutive run ending today or yesterday, stopping at the first missing day: for the days
2024-06-10, 09, 08 and 06, seen on 2024-06-10, it is 3. `calculateStreak` gives 4 there, and the model follows the
code. See Findings: `Helpers.StreakOf` and `Helpers.Streak` model the code as written, and so
does the streak the habit list shows (`HabitTracker.ShownStreak`), since the page displays `calculateStreak`'s count.
The corrected `Helpers.StrictStreak` stands beside it with its own proved properties.

## Model

| member | source | states |
|---|---|---|
| Helpers.WeightedAverage | src/utils/helpers.js:47-55 | the average is 0 when no exam is passed with a non-zero grade |
| Helpers.WeightedAverageIgnores | src/utils/helpers.js:48 | adding a pending or ungraded exam never changes the average |
| Helpers.WeightedAverageBetween | src/utils/helpers.js:47-55 | with positive credits, the average lies between the lowest and the highest qualifying grade |
| Helpers.WeightedAverageUniform | src/utils/helpers.js:47-55 | when every qualifying exam has grade g, the average is exactly g |
| Helpers.WeightedAverageExample | src/utils/helpers.js:47-55 | 30 on 6 CFU, 24 on 9 CFU and a pending exam average 26.40 |
| Helpers.ProjectProgress | src/utils/helpers.js:57-61 | progress lies in 0..100 and is 0 for a missing or empty task list |
| Helpers.ProgressAllDone | src/utils/helpers.js:57-61 | a non-empty list whose tasks are all done is at 100% |
| Helpers.ProgressNoneDone | src/utils/helpers.js:57-61 | a list with no done task is at 0% |
| Helpers.ProgressFullMeansAllDone | src/utils/helpers.js:57-61 | with fewer than 200 tasks, 100% means every task is done |
| Helpers.ProgressRoundsUpToFull | src/utils/helpers.js:60 | from 200 tasks up, one open task still rounds to 100% |
| Helpers.SortDescending | src/utils/helpers.js:66-68 | the days sorted newest first are a permutation of the input and in non-increasing order |
| Helpers.StreakOf | src/utils/helpers.js:63-87 | calculateStreak as written, never more than the number of recorded days; Streak is proved equal to it, and the order, stop, bridge and example lemmas below fix its value |
| Helpers.Streak | src/utils/helpers.js:63-87 | the loop's count equals the streak function StreakOf and never exceeds the number of dates |
| Helpers.DescendingUnique | src/utils/helpers.js:66-68 | two newest-first orderings of the same days are identical |
| Helpers.StreakOrderIndependent | src/utils/helpers.js:63-87 | the streak depends only on the multiset of days, not on their stored order |
| Helpers.StreakZeroWithFutureDate | src/utils/helpers.js:73-84 | a recorded day later than today makes the streak 0 |
| Helpers.StreakStopsAfterTwoMissingDays | src/utils/helpers.js:73-84 | a run of n days ending today counts exactly n when the two days before it are missing |
| Helpers.StreakZeroWhenStale | src/utils/helpers.js:64-84 | with neither today nor yesterday recorded the streak is 0 |
| Helpers.StreakBridgesOneMissingDay | src/utils/helpers.js:77-80 | a run of n days ending today, one missing day, then a run of m days counts n + m |
| Helpers.StreakExampleTodayAndTwoDaysAgo | src/utils/helpers.js:73-84 | today and the day before yesterday give a streak of 2 |
| Helpers.StreakExampleGapBridged | src/utils/helpers.js:73-84 | days 10, 9, 8 and 6 seen on day 10 give a streak of 4 |
| Helpers.StrictStreakStopsAtGap | src/utils/helpers.js:63-87 | the corrected streak of a run of n days ending today is exactly n when the day before the run is missing |
| Helpers.StrictStreakFromYesterday | src/utils/helpers.js:63-87 | the corrected streak of a run of n days ending yesterday is exactly n when the day before the run is missing |
| Helpers.StrictStreakOrderIndependent | src/utils/helpers.js:63-87 | the corrected streak, too, depends only on the multiset of days |
| Helpers.StreakBridgeDiffersFromStrict | src/utils/helpers.js:77-80 | on days 10, 9, 8 and 6 the code counts 4 where the corrected streak is 3 |
| Helpers.WeekDates | src/utils/helpers.js:27-37 | seven consecutive days starting on a Monday that contain the date, except on a Sunday, where the week starts the next day |
| HabitTracker.IsCompleted | src/components/Habits/HabitTracker.jsx:42-45 | a day shows ticked exactly when it occurs in the habit's completed days at least once; ToggleDates flips exactly this |
| HabitTracker.AddHabit | src/components/Habits/HabitTracker.jsx:11-20 | a blank name leaves the list unchanged; otherwise the list gains one habit at the end with the fresh id, the name and no completed day |
| HabitTracker.ToggleDates | src/components/Habits/HabitTracker.jsx:26-31 | the toggled day's membership flips, all other days keep theirs, an absent day is appended, and a present day loses every copy while every other day keeps its multiplicity |
| HabitTracker.ToggleDay | src/components/Habits/HabitTracker.jsx:22-34 | only habits with the id change; each of them becomes the habit with its days toggled by ToggleDates, so only the given day flips and the id and name stay |
| HabitTracker.DeleteHabit | src/components/Habits/HabitTracker.jsx:36-40 | the result holds exactly the habits whose id differs, drawn from the list |
| HabitTracker.ToggleDatesTwice | src/components/Habits/HabitTracker.jsx:26-31 | ticking an unticked day and unticking it restores the list of days |
| HabitTracker.ToggleDayTwice | src/components/Habits/HabitTracker.jsx:22-34 | toggling the same unticked day twice restores the habit list |
| HabitTracker.ShownStreak | src/components/Habits/HabitTracker.jsx:72 | the streak beside a habit is calculateStreak's count as written and never exceeds its number of recorded days |
| HabitTracker.TickTodayExtendsStreak | src/components/Habits/HabitTracker.jsx:22-34 | on a habit whose run ends yesterday and whose two days before the run are missing, today is unticked, and ticking it lengthens the shown streak by exactly one |
| HabitTracker.AddHabitKeepsIdsUnique | src/components/Habits/HabitTracker.jsx:11-20 | adding under a fresh id keeps habit ids unique |
| HabitTracker.DeleteHabitRemovesOne | src/components/Habits/HabitTracker.jsx:36-40 | with unique ids, deleting a listed habit removes exactly that one and ids stay unique |
| GoalProgress.AddGoal | src/components/Habits/GoalProgress.jsx:14-19 | the list gains one goal at the end carrying the form's name, target, current value, unit and deadline and the fresh id |
| GoalProgress.Clamp | src/components/Habits/GoalProgress.jsx:23 | the new value lies in 0..target, equals the request inside that range, the target above it and 0 below it |
| GoalProgress.UpdateProgress | src/components/Habits/GoalProgress.jsx:21-25 | goals with the id get the clamped value, every other goal is unchanged |
| GoalProgress.DeleteGoal | src/components/Habits/GoalProgress.jsx:27-31 | the result holds exactly the goals whose id differs, drawn from the list |
| GoalProgress.GoalPercent | src/components/Habits/GoalProgress.jsx:47 | the percentage is absent (no finite number) exactly when the target is 0 |
| GoalProgress.GoalCompleted | src/components/Habits/GoalProgress.jsx:49 | a goal at or past a positive target shows completed, and one with nothing done under a non-negative target never does; CompletedIff gives the exact threshold |
| GoalProgress.PercentBetween | src/components/Habits/GoalProgress.jsx:47 | a goal within 0..target of a positive target shows 0 to 100 percent |
| GoalProgress.PercentAtTarget | src/components/Habits/GoalProgress.jsx:47 | a goal at its positive target shows exactly 100 percent |
| GoalProgress.CompletedIff | src/components/Habits/GoalProgress.jsx:47-49 | with a positive target, a goal shows completed exactly when 200·current ≥ 199·target |
| GoalProgress.RoundsToHundredIff | src/components/Habits/GoalProgress.jsx:47-49 | the rounded percentage reaches 100 exactly when current/target is at least 0.995 |
| GoalProgress.CompletedSmallTarget | src/components/Habits/GoalProgress.jsx:47-49 | for targets below 200, a goal within range shows completed exactly when current equals target |
| GoalProgress.UpdateKeepsInRange | src/components/Habits/GoalProgress.jsx:85-99 | any update from the card keeps every goal's value within 0..target |
| GoalProgress.DecrementAtZero | src/components/Habits/GoalProgress.jsx:85-90 | the "-" button at 0 leaves the goal at 0 |
| GoalProgress.DefaultGoalNotCompleted | src/components/Habits/GoalProgress.jsx:6-19 | a goal created from the reset form starts at 0 of 100 and is not completed |
| GoalProgress.AddGoalKeepsIdsUnique | src/components/Habits/GoalProgress.jsx:14-19 | adding under a fresh id keeps goal ids unique |
| GoalProgress.DeleteGoalRemovesOne | src/components/Habits/GoalProgress.jsx:27-31 | with unique ids, deleting a listed goal removes exactly that one |
| TaskList.AddTask | src/components/Projects/TaskList.jsx:7-12 | a blank text leaves the list unchanged; otherwise one open task with the fresh id and text goes at the end |
| TaskList.ToggleTask | src/components/Projects/TaskList.jsx:14-18 | ids and texts are kept; a task's completed flag flips exactly when its id matches |
| TaskList.DeleteTask | src/components/Projects/TaskList.jsx:20-22 | the result holds exactly the tasks whose id differs, drawn from the list |
| TaskList.ToggleTaskTwice | src/components/Projects/TaskList.jsx:14-18 | toggling the same id twice restores the list |
| TaskList.CompletedCountSingle | src/utils/helpers.js:59 | a one-task list counts one completed task exactly when that task is done |
| TaskList.ToggleTaskCount | src/components/Projects/TaskList.jsx:14-18 | with unique ids, toggling a listed task moves the completed count up by one when it was open, down by one when it was done |
| TaskList.AddTaskKeepsIdsUnique | src/components/Projects/TaskList.jsx:7-12 | adding under a fresh id keeps task ids unique |
| TaskList.DeleteTaskRemovesOne | src/components/Projects/TaskList.jsx:20-22 | with unique ids, deleting a listed task removes exactly that one |
| ProjectsSection.CreateProject | src/components/Projects/ProjectsSection.jsx:14-22 | one project goes at the end with the form's fields, the fresh id and an empty task list (progress 0) |
| ProjectsSection.UpdateProject | src/components/Projects/ProjectsSection.jsx:24-28 | every project with the updated one's id is replaced by it, the others stay |
| ProjectsSection.DeleteProject | src/components/Projects/ProjectsSection.jsx:30-34 | the result holds exactly the projects whose id differs, drawn from the list |
| ProjectsSection.FilteredProjects | src/components/Projects/ProjectsSection.jsx:36-38 | "all" lists every project; a status tab lists exactly the projects with that status |
| ProjectsSection.CountProjects | src/components/Projects/ProjectsSection.jsx:40-45 | "all" counts every project and the three status counts add up to it |
| ProjectsSection.TabCount | src/components/Projects/ProjectsSection.jsx:58 | with counts that add up, no tab shows more than the "all" tab; TabCountMatchesList ties each count to its list |
| ProjectsSection.StatusCountsAddUp | src/components/Projects/ProjectsSection.jsx:40-45 | every project is counted under exactly one status |
| ProjectsSection.TabCountMatchesList | src/components/Projects/ProjectsSection.jsx:36-58 | the count on each tab is the length of the list the tab shows |
| ProjectsSection.FilterAppend | src/components/Projects/ProjectsSection.jsx:14-38 | a new project shows at the end of every tab it belongs to, and no tab is reordered |
| ProjectsSection.CreateProjectKeepsIdsUnique | src/components/Projects/ProjectsSection.jsx:14-22 | creating under a fresh id keeps project ids unique |
| ProjectsSection.UpdateProjectReplacesOne | src/components/Projects/ProjectsSection.jsx:24-28 | with unique ids, replacing project k changes slot k alone and ids stay unique |
| ProjectsSection.DeleteProjectRemovesOne | src/components/Projects/ProjectsSection.jsx:30-34 | with unique ids, deleting a listed project removes exactly that one |
| ProjectCard.CardProgress | src/components/Projects/ProjectCard.jsx:7 | the card's progress lies in 0..100 and is 0 when the project has no task list |
| ProjectCard.ShowsComplete | src/components/Projects/ProjectCard.jsx:46 | a green bar needs a present, non-empty task list; AllDoneShowsComplete and CompleteMeansAllDone give the converse |
| ProjectCard.UpdateTasks | src/components/Projects/ProjectCard.jsx:9-11 | the project keeps its id, name, description and status and takes the new task list |
| ProjectCard.CardEditReplacesOne | src/components/Projects/ProjectCard.jsx:9-11 | a task edit on card k replaces project k's task list and nothing else |
| ProjectCard.FirstTaskOnMissingList | src/components/Projects/ProjectCard.jsx:55 | on a project without a task list, the first added task creates a list holding just that task |
| ProjectCard.AllDoneShowsComplete | src/components/Projects/ProjectCard.jsx:46 | a non-empty, fully ticked task list turns the bar green |
| ProjectCard.CompleteMeansAllDone | src/components/Projects/ProjectCard.jsx:46 | with fewer than 200 tasks a green bar means every task is ticked |
| ProjectCard.EmptyCardNotComplete | src/components/Projects/ProjectCard.jsx:46 | a card without tasks is never green |
| ExamList.OpenEdit | src/components/Study/ExamList.jsx:33-37 | the dialog edits the exam's id and its form rebuilds the exam exactly |
| ExamList.SubmitExam | src/components/Study/ExamList.jsx:15-31 | an edit rewrites the exams with that id from the form keeping their ids; a new exam goes at the end; the dialog closes and resets |
| ExamList.DeleteExam | src/components/Study/ExamList.jsx:39-43 | the result holds exactly the exams whose id differs, drawn from the list |
| ExamList.UnchangedEditKeepsExams | src/components/Study/ExamList.jsx:15-37 | with unique ids, saving an edit dialog without changes leaves the exams unchanged |
| ExamList.SubmitKeepsIdsUnique | src/components/Study/ExamList.jsx:15-25 | submitting keeps exam ids unique when a new exam gets a fresh id |
| ExamList.DeleteExamRemovesOne | src/components/Study/ExamList.jsx:39-43 | with unique ids, deleting a listed exam removes exactly that one |
| ExamList.ExamCompare | src/components/Study/ExamList.jsx:45-49 | a pending exam compares before a passed one, and within one status two dated exams compare by date |
| ExamList.ExamCompareAntisymmetric | src/components/Study/ExamList.jsx:45-49 | swapping the two exams negates the comparison, so the comparator is consistent in both directions |
| ExamList.SortedExams | src/components/Study/ExamList.jsx:45-49 | the table lists a permutation of the exams |
| ExamList.SortedExamsPendingFirst | src/components/Study/ExamList.jsx:45-49 | no passed exam is listed above a pending one |
| ExamList.SortedExamsByDate | src/components/Study/ExamList.jsx:45-49 | when every exam is dated, each status group is in ascending date order |
| GradeStats.PassedExams | src/components/Study/GradeStats.jsx:4 | exactly the passed exams, drawn from the list |
| GradeStats.TotalCfu | src/components/Study/GradeStats.jsx:5 | the credits of the passed exams, never negative when no exam has negative credits |
| GradeStats.PendingExams | src/components/Study/GradeStats.jsx:6 | exactly the pending exams, drawn from the list |
| GradeStats.PendingCfu | src/components/Study/GradeStats.jsx:7 | the credits still to earn, never negative when no exam has negative credits |
| GradeStats.PassedPendingCount | src/components/Study/GradeStats.jsx:4-7 | every exam is counted as exactly one of passed or pending |
| GradeStats.PassedPendingCfu | src/components/Study/GradeStats.jsx:4-7 | earned and pending credits add up to the credits of all exams |
| GradeStats.EstimatedGraduation | src/components/Study/GradeStats.jsx:10-12 | the estimate is 0 without a positive average and lies in 0..110 for an average up to 30 |
| GradeStats.EstimateMonotone | src/components/Study/GradeStats.jsx:10-12 | a higher average never lowers the estimate |
| GradeStats.AllThirtiesEstimate110 | src/components/Study/GradeStats.jsx:8-12 | exams all graded 30 estimate a final grade of 110 |
| GradeStats.EstimateExample | src/components/Study/GradeStats.jsx:10-12 | an average of 26.40 estimates 97 |
| TransactionList.EmptyTransactionForm | src/components/Finance/TransactionList.jsx:19-25 | the form opens as an expense in "other", dated today, with no description or amount |
| TransactionList.SubmitTransaction | src/components/Finance/TransactionList.jsx:27-41 | the new transaction goes in front of the unchanged list and the form resets to today |
| TransactionList.DeleteTransaction | src/components/Finance/TransactionList.jsx:43-47 | the result holds exactly the transactions whose id differs, drawn from the list |
| TransactionList.FilteredTransactions | src/components/Finance/TransactionList.jsx:49-51 | "all" lists everything; a type tab lists exactly the transactions of that type |
| TransactionList.OlderThan | src/components/Finance/TransactionList.jsx:53-55 | the comparator puts a after b exactly when a is strictly older, agreeing with the newest-first order the sorted list is proved to follow |
| TransactionList.SortedTransactions | src/components/Finance/TransactionList.jsx:53-55 | the shown list is a permutation of the filtered list, newest date first |
| TransactionList.OrdinalFollowsCalendar | src/components/Finance/TransactionList.jsx:53-55 | the sort key follows calendar order of valid dates |
| TransactionList.SubmittedIsListed | src/components/Finance/TransactionList.jsx:27-55 | a recorded transaction appears under "all" and under its own type |
| TransactionList.SubmitKeepsIdsUnique | src/components/Finance/TransactionList.jsx:27-41 | recording under a fresh id keeps transaction ids unique |
| TransactionList.DeleteTransactionRemovesOne | src/components/Finance/TransactionList.jsx:43-47 | with unique ids, deleting a listed transaction removes exactly that one |
| BudgetOverview.CurrentMonth | src/components/Finance/BudgetOverview.jsx:26 | a transaction is in the current month exactly when its year and month are today's |
| BudgetOverview.MonthlyTransactions | src/components/Finance/BudgetOverview.jsx:26-30 | exactly the transactions dated in the month, drawn from the list |
| BudgetOverview.MonthlyOfType | src/components/Finance/BudgetOverview.jsx:32-38 | exactly the transactions of the month and of the type, drawn from the list |
| BudgetOverview.MonthlyIncome | src/components/Finance/BudgetOverview.jsx:32-34 | the month's income, never negative when no amount is; RecordedTransactionEffect fixes how a new transaction moves it |
| BudgetOverview.MonthlyExpenses | src/components/Finance/BudgetOverview.jsx:36-38 | the month's expenses, never negative when no amount is; RecordedTransactionEffect fixes how a new transaction moves it |
| BudgetOverview.Balance | src/components/Finance/BudgetOverview.jsx:40 | the balance never exceeds the income when no amount is negative |
| BudgetOverview.MonthlyOfTypeSingle | src/components/Finance/BudgetOverview.jsx:28-38 | a single transaction is counted for a month and type exactly when both match |
| BudgetOverview.RecordedTransactionEffect | src/components/Finance/BudgetOverview.jsx:32-40 | recording another month's transaction changes nothing; an expense raises expenses and lowers the balance by its amount; an income raises income and the balance by its amount |
| BudgetOverview.ExpensesNonNegative | src/components/Finance/BudgetOverview.jsx:36-38 | with non-negative amounts the month's expenses are non-negative |
| BudgetOverview.BudgetUsed | src/components/Finance/BudgetOverview.jsx:41 | without a positive budget the usage is 0 |
| BudgetOverview.Level | src/components/Finance/BudgetOverview.jsx:80 | the badge is red exactly above 100 percent, green exactly up to 80 percent, and amber in between |
| BudgetOverview.BudgetUsedBetween | src/components/Finance/BudgetOverview.jsx:41 | spending from nothing up to the budget uses 0 to 100 percent |
| BudgetOverview.OverBudgetIff | src/components/Finance/BudgetOverview.jsx:80 | the badge turns red exactly when 200·expenses ≥ 201·budget |
| BudgetOverview.Remaining | src/components/Finance/BudgetOverview.jsx:86 | what is left is never negative and is either 0 or budget minus expenses |
| BudgetOverview.BudgetExample | src/components/Finance/BudgetOverview.jsx:41-90 | 650 euro of 1000 is 65% used, 350 euro left, and shown as within budget |
| BudgetOverview.CategoryTotalAppend | src/components/Finance/BudgetOverview.jsx:45-47 | one more transaction adds its amount to its own category's total only |
| BudgetOverview.FirstSeen | src/components/Finance/BudgetOverview.jsx:43-50 | the categories of a list each once, in the order their first transaction occurs |
| BudgetOverview.FirstSeenPrefix | src/components/Finance/BudgetOverview.jsx:43-50 | the key order of a prefix is a prefix of the key order: a later transaction only adds keys at the end |
| BudgetOverview.FirstSeenExample | src/components/Finance/BudgetOverview.jsx:43-50 | a Food expense followed by a Bills expense lists Food before Bills |
| BudgetOverview.ExpensesByCategory | src/components/Finance/BudgetOverview.jsx:43-48 | the keys are exactly the categories of the month's expenses, each listed once, in first-seen order (FirstSeen of the month's expenses); each total is that category's sum; the totals add up to the month's expenses |
| BudgetOverview.Entries | src/components/Finance/BudgetOverview.jsx:50 | one entry per key, in key order, carrying that key's total |
| BudgetOverview.SortedCategories | src/components/Finance/BudgetOverview.jsx:50-51 | the rows are a permutation of the entries, largest amount first |
| BudgetOverview.SortedCategoriesOnce | src/components/Finance/BudgetOverview.jsx:50-51 | when the keys are distinct, each category is listed once |
| BudgetOverview.SortedCategoriesSum | src/components/Finance/BudgetOverview.jsx:43-51 | the rows' amounts add up to the sum of the totals |
| BudgetOverview.CategoryPercent | src/components/Finance/BudgetOverview.jsx:105 | the percentage is absent (no finite number) exactly when expenses are 0 |
| BudgetOverview.CategoryPercentBetween | src/components/Finance/BudgetOverview.jsx:105 | a category's share of positive expenses lies in 0..100 percent |
| BudgetOverview.PercentagesNearHundred | src/components/Finance/BudgetOverview.jsx:105 | the rounded percentages of k rows add up to within k/2 of 100 |
| BudgetOverview.PercentagesExample | src/components/Finance/BudgetOverview.jsx:105 | two equal halves show 50% each |
| App.ExportOf | src/App.jsx:69-79 | the backup document carries the export time it is given |
| App.Parsed | src/App.jsx:81-88 | a written backup read back has every slot present (empty arrays are truthy) |
| App.Merge | src/App.jsx:81-88 | each slot the document carries replaces the current one, and every other slot keeps its value |
| App.ExportImportRoundTrip | src/App.jsx:69-88 | importing an exported backup restores exactly the exported slots, whatever the store held |
| App.ImportIdempotent | src/App.jsx:81-88 | importing the same document twice equals importing it once |
| App.EmptyImportKeepsSlots | src/App.jsx:81-88 | a document without any slot changes nothing |
| App.ZeroBudgetApplied | src/App.jsx:87 | a budget of 0 in the document is applied, not skipped |
| App.Store.constructor | src/App.jsx:62-67 | every slot starts empty and the budget at 0 |
| App.Store.Export | src/App.jsx:69-79 | the document copies the six slots and the export time |
| App.Store.Import | src/App.jsx:81-88 | the new slots are the merge of the old slots with the document |
| App.Store.SetExams | src/App.jsx:62 | only the exams slot changes, to the given list |
| App.Store.SetProjects | src/App.jsx:63 | only the projects slot changes, to the given list |
| App.Store.SetHabits | src/App.jsx:64 | only the habits slot changes, to the given list |
| App.Store.SetGoals | src/App.jsx:65 | only the goals slot changes, to the given list |
| App.Store.SetTransactions | src/App.jsx:66 | only the transactions slot changes, to the given list |
| App.Store.SetBudget | src/App.jsx:67 | only the budget slot changes, to the given amount |
| App.Restore | src/App.jsx:69-88 | exporting from one store and importing into another makes the second a copy of the first and leaves the first unchanged |

## Left out

- Local storage, file download and upload, `JSON.parse`/`JSON.stringify`, `confirm` dialogs and `alert`s are I/O. The model starts from parsed values and treats a confirmed delete as the delete itself.
- `generateId`, the clock (`new Date()`) and `toISOString` are not modelled. Fresh ids, "today" and the export time are parameters. Id uniqueness is proved under the assumption that the fresh id is unused.
- Time zones are not modelled: every date is a day number or a calendar date. The UTC/local mismatch between `toISOString` and `toDateString` is outside the model.
- Floating point is not modelled. Amounts are integer cents, the average is in hundredths, and `toFixed(2)` and `Math.round` are exact half-up rounding. Binary rounding of decimal values and `parseFloat`/`parseInt` of form strings (including `NaN`) are not captured.
- Helpers.WeightedAverage: returns the number of hundredths rather than the string `toFixed(2)` yields.
- GradeStats.EstimatedGraduation: rounds `average · 110 / 30` exactly, where the source rounds a floating-point value.
- ExamList.ExamCompare: a comparison involving an undated exam (`NaN` in the source) is treated as 0. The order an engine produces for such an inconsistent comparator is not modelled beyond the stable sort. SortedExamsByDate therefore requires every exam to be dated.
- TransactionList.SortedTransactions, BudgetOverview.SortedCategories and ExamList.SortedExams: ties keep their input order (stable sort), as ECMAScript 2019 requires.
- App.Merge: an import whose `budget` key is present but `null` is not distinguished from a missing key. Non-array truthy values in the list slots are not modelled: a list slot is either a list or absent.
- `isSameDay`, `formatDate`, `formatCurrency`, `getDaysUntil` (goal and exam deadlines), the category colours and labels, and the streak badge are presentation only.
- The header clock, the sidebar navigation and the section switch in `App.jsx` are presentation only.
- The budget input of the finance section (`parseFloat(newBudget) || 0`) and the file reading of the settings section are form and I/O handling. Only the slot update they end in (`App.Store.SetBudget`, `App.Store.Import`) is modelled.
- Concurrency between browser tabs sharing local storage is not modelled.

## Findings

| source | as written | input that shows it | evidently intended | confidence | as-written member | corrected member |
|---|---|---|---|---|---|---|
| src/utils/helpers.js:77-80 | the "one day before the check date" branch moves the check date back two days at every step, so a single missing day is bridged anywhere in the run, not only when today is missing | days 2024-06-10, 09, 08 and 06 on 2024-06-10: streak 4 | the run ends today or yesterday and stops at the first gap: streak 3 | medium, not executed | Helpers.StreakBridgeDiffersFromStrict | Helpers.StrictStreakStopsAtGap |
