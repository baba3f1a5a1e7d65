/**
 * The application store: the six persisted slots, exporting them as one
 * backup document and merging an imported document back into them.
 */
module App {
  import opened Common
  import opened Entities

  /** The six slots, as one value. */
  datatype Slots = Slots(
    exams: seq<Exam>, projects: seq<Project>, habits: seq<Habit>,
    goals: seq<Goal>, transactions: seq<Transaction>, budget: Money)

  /** Every slot at its initial value: empty lists and a zero budget. */
  const InitialSlots: Slots := Slots([], [], [], [], [], 0)

  /** The backup document `handleExport` writes. */
  datatype ExportDocument = ExportDocument(
    exams: seq<Exam>, projects: seq<Project>, habits: seq<Habit>,
    goals: seq<Goal>, transactions: seq<Transaction>, budget: Money, exportedAt: string)

  /**
   * A parsed backup document. A list field is absent when the key is missing
   * or its value is falsy; `budget` is absent only when the key is missing.
   */
  datatype ImportDocument = ImportDocument(
    exams: Option<seq<Exam>>, projects: Option<seq<Project>>, habits: Option<seq<Habit>>,
    goals: Option<seq<Goal>>, transactions: Option<seq<Transaction>>, budget: Option<Money>,
    exportedAt: Option<string>)

  /** `handleExport`'s document for the slots, stamped with the export time. */
  function ExportOf(s: Slots, at: string): (doc: ExportDocument)
    ensures doc.exportedAt == at
  {
    ExportDocument(s.exams, s.projects, s.habits, s.goals, s.transactions, s.budget, at)
  }

  /**
   * What reading back a written backup gives: every key present. An empty
   * list is still an array, and arrays are truthy.
   */
  function Parsed(doc: ExportDocument): (data: ImportDocument)
    ensures data.exams.Some? && data.projects.Some? && data.habits.Some?
    ensures data.goals.Some? && data.transactions.Some? && data.budget.Some?
  {
    ImportDocument(Some(doc.exams), Some(doc.projects), Some(doc.habits),
                   Some(doc.goals), Some(doc.transactions), Some(doc.budget), Some(doc.exportedAt))
  }

  function Pick<T>(current: T, incoming: Option<T>): (r: T)
    ensures incoming.None? ==> r == current
    ensures incoming.Some? ==> r == incoming.value
  {
    if incoming.Some? then incoming.value else current
  }

  /**
   * `handleImport` as a function of the slots: each field the document
   * carries replaces its slot, each other slot keeps its value, and the
   * export time is ignored.
   */
  function Merge(s: Slots, data: ImportDocument): (r: Slots)
    ensures data.exams.Some? ==> r.exams == data.exams.value
    ensures data.exams.None? ==> r.exams == s.exams
    ensures data.projects.Some? ==> r.projects == data.projects.value
    ensures data.projects.None? ==> r.projects == s.projects
    ensures data.habits.Some? ==> r.habits == data.habits.value
    ensures data.habits.None? ==> r.habits == s.habits
    ensures data.goals.Some? ==> r.goals == data.goals.value
    ensures data.goals.None? ==> r.goals == s.goals
    ensures data.transactions.Some? ==> r.transactions == data.transactions.value
    ensures data.transactions.None? ==> r.transactions == s.transactions
    ensures data.budget.Some? ==> r.budget == data.budget.value
    ensures data.budget.None? ==> r.budget == s.budget
  {
    Slots(Pick(s.exams, data.exams), Pick(s.projects, data.projects), Pick(s.habits, data.habits),
          Pick(s.goals, data.goals), Pick(s.transactions, data.transactions), Pick(s.budget, data.budget))
  }

  /** Importing a backup restores exactly the slots it was exported from, whatever was there. */
  lemma ExportImportRoundTrip(s: Slots, current: Slots, at: string)
    ensures Merge(current, Parsed(ExportOf(s, at))) == s
  {
  }

  /** Importing the same document twice is the same as importing it once. */
  lemma ImportIdempotent(s: Slots, data: ImportDocument)
    ensures Merge(Merge(s, data), data) == Merge(s, data)
  {
  }

  /** A document without any slot changes nothing. */
  lemma EmptyImportKeepsSlots(s: Slots, at: Option<string>)
    ensures Merge(s, ImportDocument(None, None, None, None, None, None, at)) == s
  {
  }

  /** A zero budget in the document is applied, not ignored. */
  lemma ZeroBudgetApplied(s: Slots, data: ImportDocument)
    requires data.budget == Some(0)
    ensures Merge(s, data).budget == 0
  {
  }

  /** The store behind the dashboard: one field per persisted slot. */
  class Store {
    var exams: seq<Exam>
    var projects: seq<Project>
    var habits: seq<Habit>
    var goals: seq<Goal>
    var transactions: seq<Transaction>
    var budget: Money

    /** Every slot starts at its initial value. */
    constructor()
      ensures Snapshot() == InitialSlots
    {
      exams, projects, habits := [], [], [];
      goals, transactions, budget := [], [], 0;
    }

    /** The store's slots as one value. */
    function Snapshot(): Slots
      reads this
    {
      Slots(exams, projects, habits, goals, transactions, budget)
    }

    /** `handleExport`: the document carries the six slots unchanged. */
    function Export(at: string): (doc: ExportDocument)
      reads this
      ensures doc.exams == exams && doc.projects == projects && doc.habits == habits
      ensures doc.goals == goals && doc.transactions == transactions && doc.budget == budget
      ensures doc.exportedAt == at
    {
      ExportOf(Snapshot(), at)
    }

    /** `handleImport`: one guarded write per slot. */
    method Import(data: ImportDocument)
      modifies this
      ensures Snapshot() == Merge(old(Snapshot()), data)
    {
      if data.exams.Some? { exams := data.exams.value; }
      if data.projects.Some? { projects := data.projects.value; }
      if data.habits.Some? { habits := data.habits.value; }
      if data.goals.Some? { goals := data.goals.value; }
      if data.transactions.Some? { transactions := data.transactions.value; }
      if data.budget.Some? { budget := data.budget.value; }
    }

    /** The exam section's write-back (`setExams`). */
    method SetExams(value: seq<Exam>)
      modifies this
      ensures Snapshot() == old(Snapshot()).(exams := value)
    {
      exams := value;
    }

    /** The projects section's write-back (`setProjects`). */
    method SetProjects(value: seq<Project>)
      modifies this
      ensures Snapshot() == old(Snapshot()).(projects := value)
    {
      projects := value;
    }

    /** The habit tracker's write-back (`setHabits`). */
    method SetHabits(value: seq<Habit>)
      modifies this
      ensures Snapshot() == old(Snapshot()).(habits := value)
    {
      habits := value;
    }

    /** The goals card's write-back (`setGoals`). */
    method SetGoals(value: seq<Goal>)
      modifies this
      ensures Snapshot() == old(Snapshot()).(goals := value)
    {
      goals := value;
    }

    /** The transaction list's write-back (`setTransactions`). */
    method SetTransactions(value: seq<Transaction>)
      modifies this
      ensures Snapshot() == old(Snapshot()).(transactions := value)
    {
      transactions := value;
    }

    /** The finance section's budget input (`setBudget`). */
    method SetBudget(value: Money)
      modifies this
      ensures Snapshot() == old(Snapshot()).(budget := value)
    {
      budget := value;
    }
  }

  /** Exporting from one store and importing into another makes the second a copy of the first. */
  method Restore(source: Store, target: Store, at: string)
    requires source != target
    modifies target
    ensures target.Snapshot() == source.Snapshot()
    ensures source.Snapshot() == old(source.Snapshot())
  {
    var doc := source.Export(at);
    target.Import(Parsed(doc));
    ExportImportRoundTrip(source.Snapshot(), old(target.Snapshot()), at);
  }
}
