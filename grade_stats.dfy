/** The study statistics cards: credits, exam counts and the estimated final grade. */
module GradeStats {
  import opened Common
  import opened Seqs
  import opened Entities
  import opened Helpers

  /** `passedExams`. */
  function PassedExams(exams: seq<Exam>): (passed: seq<Exam>)
    ensures forall i :: 0 <= i < |passed| ==> passed[i] in exams && passed[i].status == Passed
    ensures forall i :: 0 <= i < |exams| && exams[i].status == Passed ==> exams[i] in passed
  {
    Where(exams, ExamStatusOf, Passed)
  }

  /** `pendingExams`. */
  function PendingExams(exams: seq<Exam>): (pending: seq<Exam>)
    ensures forall i :: 0 <= i < |pending| ==> pending[i] in exams && pending[i].status == Pending
    ensures forall i :: 0 <= i < |exams| && exams[i].status == Pending ==> exams[i] in pending
  {
    Where(exams, ExamStatusOf, Pending)
  }

  /** `totalCfu`: credits of the passed exams, graded or not. */
  function TotalCfu(exams: seq<Exam>): (cfu: int)
    ensures (forall i :: 0 <= i < |exams| ==> exams[i].cfu >= 0) ==> cfu >= 0
  {
    CreditsNonNegative(exams, PassedExams(exams));
    SumOf(PassedExams(exams), ExamCfu)
  }

  /** `pendingCfu`: credits still to earn. */
  function PendingCfu(exams: seq<Exam>): (cfu: int)
    ensures (forall i :: 0 <= i < |exams| ==> exams[i].cfu >= 0) ==> cfu >= 0
  {
    CreditsNonNegative(exams, PendingExams(exams));
    SumOf(PendingExams(exams), ExamCfu)
  }

  /** Exams drawn from a list without negative credits add up to a non-negative total. */
  lemma CreditsNonNegative(exams: seq<Exam>, part: seq<Exam>)
    requires forall i :: 0 <= i < |part| ==> part[i] in exams
    ensures (forall i :: 0 <= i < |exams| ==> exams[i].cfu >= 0) ==> SumOf(part, ExamCfu) >= 0
  {
    if forall i :: 0 <= i < |exams| ==> exams[i].cfu >= 0 {
      SumOfNonNegative(part, ExamCfu);
    }
  }

  /** Every exam is counted on exactly one of the two cards. */
  lemma {:induction false} PassedPendingCount(exams: seq<Exam>)
    ensures |PassedExams(exams)| + |PendingExams(exams)| == |exams|
  {
    if exams != [] {
      var init, last := exams[..|exams| - 1], exams[|exams| - 1];
      assert exams == init + [last];
      PassedPendingCount(init);
      WhereConcat(init, [last], ExamStatusOf, Passed);
      WhereConcat(init, [last], ExamStatusOf, Pending);
      WhereSingle(last, ExamStatusOf, Passed);
      WhereSingle(last, ExamStatusOf, Pending);
      if last.status == Passed {
        assert |Where([last], ExamStatusOf, Passed)| == 1;
      } else {
        assert |Where([last], ExamStatusOf, Pending)| == 1;
      }
    }
  }

  /** The credits of one exam land on exactly one of the two credit cards. */
  lemma SplitLast(last: Exam)
    ensures SumOf(Where([last], ExamStatusOf, Passed), ExamCfu)
          + SumOf(Where([last], ExamStatusOf, Pending), ExamCfu) == last.cfu
  {
    WhereSingle(last, ExamStatusOf, Passed);
    WhereSingle(last, ExamStatusOf, Pending);
    assert [last][1..] == [];
    assert SumOf([last], ExamCfu) == last.cfu;
    assert SumOf([], ExamCfu) == 0;
    match last.status
    case Passed =>
    case Pending =>
  }

  /** Earned and missing credits add up to the credits of all exams. */
  lemma {:induction false} PassedPendingCfu(exams: seq<Exam>)
    ensures TotalCfu(exams) + PendingCfu(exams) == SumOf(exams, ExamCfu)
  {
    if exams != [] {
      var init, last := exams[..|exams| - 1], exams[|exams| - 1];
      assert exams == init + [last];
      PassedPendingCfu(init);
      WhereConcat(init, [last], ExamStatusOf, Passed);
      WhereConcat(init, [last], ExamStatusOf, Pending);
      SumOfConcat(init, [last], ExamCfu);
      SumOfConcat(PassedExams(init), Where([last], ExamStatusOf, Passed), ExamCfu);
      SumOfConcat(PendingExams(init), Where([last], ExamStatusOf, Pending), ExamCfu);
      SplitLast(last);
      assert SumOf([last], ExamCfu) == last.cfu by {
        assert [last][1..] == [];
      }
    }
  }

  /**
   * `estimatedGraduation`: the average (given in hundredths) scaled from
   * thirtieths to the 110-point final grade and rounded; 0 when there is no
   * positive average.
   */
  function EstimatedGraduation(average: int): (grade: int)
    ensures average <= 0 ==> grade == 0
    ensures 0 < average <= 3000 ==> 0 <= grade <= 110
  {
    if average > 0 then
      RoundDivBounds(average);
      RoundDiv(110 * average, 3000)
    else 0
  }

  lemma RoundDivBounds(average: int)
    requires average > 0
    ensures 0 <= RoundDiv(110 * average, 3000)
    ensures average <= 3000 ==> RoundDiv(110 * average, 3000) <= 110
  {
    RoundDivBetween(110 * average, 3000, 0, 110 * average);
    if average <= 3000 {
      RoundDivBetween(110 * average, 3000, 0, 110);
    }
  }

  /** A better average never lowers the estimate. */
  lemma EstimateMonotone(a1: int, a2: int)
    requires a1 <= a2
    ensures EstimatedGraduation(a1) <= EstimatedGraduation(a2)
  {
    if a1 > 0 {
      RoundDivMonotone(110 * a1, 110 * a2, 3000);
    } else if a2 > 0 {
      RoundDivBounds(a2);
    }
  }

  /** The average of exams all graded 30 (with positive credits) estimates 110. */
  lemma AllThirtiesEstimate110(exams: seq<Exam>)
    requires exists i :: 0 <= i < |exams| && Qualifies(exams[i])
    requires forall i :: 0 <= i < |exams| && Qualifies(exams[i]) ==> exams[i].cfu > 0 && exams[i].grade.value == 30
    ensures EstimatedGraduation(WeightedAverage(exams)) == 110
  {
    WeightedAverageBetween(exams, 30, 30);
    RoundDivUnique(110 * 3000, 3000, 110);
  }

  /** A worked example: an average of 26.40 estimates 97. */
  lemma EstimateExample()
    ensures EstimatedGraduation(2640) == 97
  {
    RoundDivUnique(110 * 2640, 3000, 97);
  }
}
