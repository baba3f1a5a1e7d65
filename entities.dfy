/**
 * The records kept in the dashboard's six store slots. Every record carries
 * an id that is unique within its collection.
 */
module Entities {
  import opened Common

  // ---- Study ----------------------------------------------------------

  datatype ExamStatus = Pending | Passed

  /**
   * An exam. `date` is absent when the form's date field was left empty;
   * `grade` is absent when the grade field was empty.
   */
  datatype Exam = Exam(id: Id, name: string, cfu: int, date: Option<Day>, grade: Option<int>, status: ExamStatus)

  function ExamId(e: Exam): Id { e.id }
  function ExamStatusOf(e: Exam): ExamStatus { e.status }
  function ExamCfu(e: Exam): int { e.cfu }

  // ---- Projects -------------------------------------------------------

  datatype ProjectStatus = Active | Paused | Completed

  datatype Task = Task(id: Id, text: string, completed: bool)

  /** A project; `tasks` is absent for a record that never had the field. */
  datatype Project = Project(id: Id, name: string, description: string, status: ProjectStatus, tasks: Option<seq<Task>>)

  function TaskId(t: Task): Id { t.id }
  function TaskDone(t: Task): bool { t.completed }
  function ProjectId(p: Project): Id { p.id }
  function ProjectStatusOf(p: Project): ProjectStatus { p.status }

  /** `project.tasks || []`. */
  function TasksOf(p: Project): (tasks: seq<Task>)
    ensures p.tasks.None? ==> tasks == []
    ensures p.tasks.Some? ==> tasks == p.tasks.value
  {
    if p.tasks.Some? then p.tasks.value else []
  }

  // ---- Habits and goals -----------------------------------------------

  /** A habit and the days on which it was done, in the order they were ticked. */
  datatype Habit = Habit(id: Id, name: string, completedDates: seq<Day>)

  datatype Goal = Goal(id: Id, name: string, target: int, current: int, unit: string, deadline: string)

  function HabitId(h: Habit): Id { h.id }
  function GoalId(g: Goal): Id { g.id }

  // ---- Finance --------------------------------------------------------

  datatype TransactionType = Income | Expense

  datatype Category = Food | Transport | Entertainment | Bills | Shopping | Health | Education | Salary | Other

  /** The `YYYY-MM-DD` date string of a transaction. */
  datatype CalendarDate = CalendarDate(year: int, month: int, day: int)

  /** The `YYYY-MM` prefix of a date string. */
  datatype YearMonth = YearMonth(year: int, month: int)

  datatype Transaction = Transaction(id: Id, description: string, amount: Money, kind: TransactionType, category: Category, date: CalendarDate)

  function TransactionId(t: Transaction): Id { t.id }
  function TransactionKind(t: Transaction): TransactionType { t.kind }
  function TransactionCategory(t: Transaction): Category { t.category }
  function TransactionAmount(t: Transaction): Money { t.amount }

  /** `date.startsWith(month)` for a well-formed date string is a year-and-month match. */
  function TransactionMonth(t: Transaction): YearMonth { YearMonth(t.date.year, t.date.month) }

  /**
   * A number that orders well-formed dates (month 1..12, day 1..31) as the
   * calendar does, standing in for the millisecond value of `new Date(date)`.
   */
  function DateOrdinal(d: CalendarDate): int { d.year * 372 + (d.month - 1) * 31 + (d.day - 1) }
}
