/**
 * The exam list: the add/edit dialog, deleting an exam, and the order in
 * which the table lists exams (pending first, then by date).
 */
module ExamList {
  import opened Common
  import opened Seqs
  import opened Entities

  /** The dialog's form; an empty date or grade field is an absent value. */
  datatype ExamForm = ExamForm(name: string, cfu: int, date: Option<Day>, grade: Option<int>, status: ExamStatus)

  /** The form as it opens and as `closeModal` resets it. */
  const EmptyExamForm: ExamForm := ExamForm("", 6, None, None, Pending)

  /** The dialog: the id of the exam being edited, if any, and the form. */
  datatype Dialog = Dialog(editing: Option<Id>, form: ExamForm)

  /** `closeModal`: nothing is being edited and the form is reset. */
  const ClosedDialog: Dialog := Dialog(None, EmptyExamForm)

  /** `{ ...formData, id }`. */
  function ExamFromForm(form: ExamForm, id: Id): Exam
  {
    Exam(id, form.name, form.cfu, form.date, form.grade, form.status)
  }

  /** `openEdit`: the dialog edits the exam, its form filled from it. */
  function OpenEdit(e: Exam): (d: Dialog)
    ensures d.editing == Some(e.id)
    ensures ExamFromForm(d.form, e.id) == e
  {
    Dialog(Some(e.id), ExamForm(e.name, e.cfu, e.date, e.grade, e.status))
  }

  /**
   * `handleSubmit`: when editing, every exam with the edited id takes the
   * form's fields and keeps its id; otherwise the form becomes a new exam at
   * the end. Either way the dialog closes.
   */
  function SubmitExam(exams: seq<Exam>, dialog: Dialog, freshId: Id): (r: (seq<Exam>, Dialog))
    ensures r.1 == ClosedDialog
    ensures dialog.editing.None? ==> r.0 == exams + [ExamFromForm(dialog.form, freshId)]
    ensures dialog.editing.Some? ==> |r.0| == |exams|
    ensures dialog.editing.Some? ==> forall i :: 0 <= i < |exams| ==>
      r.0[i].id == exams[i].id
      && r.0[i] == (if exams[i].id == dialog.editing.value then ExamFromForm(dialog.form, exams[i].id) else exams[i])
  {
    var updated :=
      match dialog.editing
      case Some(id) =>
        seq(|exams|, i requires 0 <= i < |exams| =>
          if exams[i].id == id then ExamFromForm(dialog.form, exams[i].id) else exams[i])
      case None => exams + [ExamFromForm(dialog.form, freshId)];
    (updated, ClosedDialog)
  }

  /** `deleteExam` once confirmed. */
  function DeleteExam(exams: seq<Exam>, id: Id): (r: seq<Exam>)
    ensures |r| <= |exams|
    ensures forall i :: 0 <= i < |r| ==> r[i] in exams && r[i].id != id
    ensures forall i :: 0 <= i < |exams| && exams[i].id != id ==> exams[i] in r
  {
    Without(exams, ExamId, id)
  }

  /** With unique ids, saving an edit dialog left as opened changes nothing. */
  lemma UnchangedEditKeepsExams(exams: seq<Exam>, k: nat, freshId: Id)
    requires UniqueBy(exams, ExamId) && k < |exams|
    ensures SubmitExam(exams, OpenEdit(exams[k]), freshId).0 == exams
  {
    var r := SubmitExam(exams, OpenEdit(exams[k]), freshId).0;
    forall i | 0 <= i < |exams| && i != k ensures exams[i].id != exams[k].id {
      if i < k {
        assert ExamId(exams[i]) != ExamId(exams[k]);
      } else {
        assert ExamId(exams[k]) != ExamId(exams[i]);
      }
    }
    assert forall i :: 0 <= i < |exams| ==> r[i] == exams[i];
  }

  /** Submitting keeps the exam ids unique when a new exam gets a fresh id. */
  lemma SubmitKeepsIdsUnique(exams: seq<Exam>, dialog: Dialog, freshId: Id)
    requires UniqueBy(exams, ExamId)
    requires forall i :: 0 <= i < |exams| ==> exams[i].id != freshId
    ensures UniqueBy(SubmitExam(exams, dialog, freshId).0, ExamId)
  {
    if dialog.editing.None? {
      AppendKeepsUnique(exams, ExamFromForm(dialog.form, freshId), ExamId);
    }
  }

  /** With unique ids, deleting a listed exam removes exactly that one. */
  lemma DeleteExamRemovesOne(exams: seq<Exam>, k: nat)
    requires UniqueBy(exams, ExamId) && k < |exams|
    ensures DeleteExam(exams, exams[k].id) == exams[..k] + exams[k + 1..]
  {
    WithoutRemovesOne(exams, ExamId, k);
  }

  // ---- Table order ----------------------------------------------------

  function Rank(s: ExamStatus): int
  {
    if s == Pending then 0 else 1
  }

  /** The day number `new Date(date)` stands for; an undated exam has none. */
  function DateValue(e: Exam): int
  {
    if e.date.Some? then e.date.value else 0
  }

  /**
   * The table's comparator: pending before passed, otherwise the difference
   * of the dates. With an undated exam the difference is NaN, which the sort
   * treats as 0.
   */
  function ExamCompare(a: Exam, b: Exam): (c: int)
    ensures a.status == Pending && b.status == Passed ==> c < 0
    ensures a.status == b.status && a.date.Some? && b.date.Some? ==> (c < 0 <==> a.date.value < b.date.value)
  {
    if a.status == Pending && b.status == Passed then -1
    else if a.status == Passed && b.status == Pending then 1
    else if a.date.Some? && b.date.Some? then a.date.value - b.date.value
    else 0
  }

  /** Swapping the two exams negates the comparison. */
  lemma ExamCompareAntisymmetric(a: Exam, b: Exam)
    ensures ExamCompare(b, a) == -ExamCompare(a, b)
  {
  }

  function ExamAfter(a: Exam, b: Exam): bool
  {
    ExamCompare(a, b) > 0
  }

  /** `sortedExams`: a reordering of the exams. */
  function SortedExams(exams: seq<Exam>): (r: seq<Exam>)
    ensures |r| == |exams| && multiset(r) == multiset(exams)
  {
    SortWith(exams, ExamAfter)
  }

  function StatusOrder(a: Exam, b: Exam): bool
  {
    Rank(a.status) <= Rank(b.status)
  }

  function StatusThenDate(a: Exam, b: Exam): bool
  {
    Rank(a.status) < Rank(b.status) || (Rank(a.status) == Rank(b.status) && DateValue(a) <= DateValue(b))
  }

  /** The table never lists a passed exam above a pending one. */
  lemma SortedExamsPendingFirst(exams: seq<Exam>)
    ensures var r := SortedExams(exams);
      forall i, j :: 0 <= i < j < |r| ==> !(r[i].status == Passed && r[j].status == Pending)
  {
    SortWithSorted(exams, ExamAfter, StatusOrder);
  }

  /** When every exam is dated, each status group is listed by ascending date. */
  lemma SortedExamsByDate(exams: seq<Exam>)
    requires forall i :: 0 <= i < |exams| ==> exams[i].date.Some?
    ensures var r := SortedExams(exams);
      forall i, j :: 0 <= i < j < |r| && r[i].status == r[j].status ==> DateValue(r[i]) <= DateValue(r[j])
  {
    SortWithSorted(exams, ExamAfter, StatusThenDate);
  }
}
