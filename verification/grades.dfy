/** GRADE_POINTS and calculate_sgpa: the credit-weighted grade-point
    average of one transcript's subjects. */
module Grades {
  import opened Subjects
  import opened Rounding

  /** GRADE_POINTS: letter grade to grade points. */
  const GradeTable: map<string, int> :=
    map["O" := 10, "A+" := 9, "A" := 8, "B+" := 7, "B" := 6, "C" := 5, "U" := 0]

  /** GRADE_POINTS.get(grade, 0): a grade missing from the table is worth 0. */
  function GradePoints(grade: string): (p: int)
    ensures 0 <= p <= 10
    ensures grade !in GradeTable ==> p == 0
  {
    if grade in GradeTable then GradeTable[grade] else 0
  }

  /** Σ grade points × credit, summed from the first subject to the last. */
  function TotalPoints(subjects: seq<Subject>): (t: int)
    ensures 0 <= t <= 10 * TotalCredits(subjects)
  {
    if subjects == [] then 0
    else
      var last := subjects[|subjects| - 1];
      var p := GradePoints(last.grade);
      assert 0 <= p * last.credit <= 10 * last.credit;
      TotalPoints(subjects[..|subjects| - 1]) + p * last.credit
  }

  /** Σ credit: no subject's credit exceeds it. */
  function TotalCredits(subjects: seq<Subject>): (c: nat)
    ensures forall i | 0 <= i < |subjects| :: subjects[i].credit <= c
  {
    if subjects == [] then 0 else TotalCredits(subjects[..|subjects| - 1]) + subjects[|subjects| - 1].credit
  }

  /** The credits sum to 0 exactly when every subject carries credit 0. */
  lemma {:induction false} NoCreditsIff(subjects: seq<Subject>)
    ensures TotalCredits(subjects) == 0 <==> forall i | 0 <= i < |subjects| :: subjects[i].credit == 0
  {
    if subjects != [] {
      var init := subjects[..|subjects| - 1];
      NoCreditsIff(init);
      assert forall i | 0 <= i < |init| :: init[i] == subjects[i];
    }
  }

  /** The SGPA calculate_sgpa reports: 0 when there are no credits, the
      weighted mean rounded to 2 places otherwise. */
  function Sgpa(subjects: seq<Subject>): (r: real)
    ensures TotalCredits(subjects) == 0 ==> r == 0.0
    ensures 0.0 <= r <= 10.0
  {
    RoundedMeanBetween(TotalPoints(subjects) as real, TotalCredits(subjects));
    RoundedMean(TotalPoints(subjects) as real, TotalCredits(subjects))
  }

  /** The SGPA is a whole number of hundredths within 0.005 of the exact
      credit-weighted mean of the grade points. */
  lemma SgpaNearMean(subjects: seq<Subject>)
    ensures IsHundredth(Sgpa(subjects))
    ensures TotalCredits(subjects) > 0 ==>
      -0.005 <= Sgpa(subjects) - TotalPoints(subjects) as real / TotalCredits(subjects) as real <= 0.005
  {
  }

  /** calculate_sgpa: (rounded SGPA, total credits), or (0, 0) when the
      credits sum to 0. */
  method CalculateSgpa(subjects: seq<Subject>) returns (sgpa: real, credits: nat)
    ensures credits == TotalCredits(subjects)
    ensures sgpa == Sgpa(subjects)
  {
    var totalPoints, totalCredits := 0, 0;
    for i := 0 to |subjects|
      invariant totalPoints == TotalPoints(subjects[..i])
      invariant totalCredits == TotalCredits(subjects[..i])
    {
      var s := subjects[i];
      assert subjects[..i + 1][..i] == subjects[..i];
      totalPoints := totalPoints + GradePoints(s.grade) * s.credit;
      totalCredits := totalCredits + s.credit;
    }
    assert subjects[..|subjects|] == subjects;
    if totalCredits != 0 {
      sgpa, credits := Round2(totalPoints as real / totalCredits as real), totalCredits;
    } else {
      sgpa, credits := 0.0, 0;
    }
  }

  /** Both totals add up over a concatenation. */
  lemma {:induction false} TotalsConcat(a: seq<Subject>, b: seq<Subject>)
    ensures TotalPoints(a + b) == TotalPoints(a) + TotalPoints(b)
    ensures TotalCredits(a + b) == TotalCredits(a) + TotalCredits(b)
    decreases |b|
  {
    if b == [] {
      assert a + b == a;
    } else {
      var init := b[..|b| - 1];
      assert (a + b)[..|a + b| - 1] == a + init;
      TotalsConcat(a, init);
    }
  }

  /** A subject with credit 0 changes neither total, so not the SGPA either. */
  lemma ZeroCreditIgnored(a: seq<Subject>, x: Subject, b: seq<Subject>)
    requires x.credit == 0
    ensures TotalPoints(a + [x] + b) == TotalPoints(a + b)
    ensures TotalCredits(a + [x] + b) == TotalCredits(a + b)
    ensures Sgpa(a + [x] + b) == Sgpa(a + b)
  {
    TotalsConcat(a, [x]);
    TotalsConcat(a + [x], b);
    TotalsConcat(a, b);
    assert TotalPoints([x]) == TotalPoints([]) + 0;
  }

  /** A grade missing from the table (O+ or C+, say, which the row pattern
      accepts) earns no points but its credits still count. */
  lemma UnknownGradeEarnsNothing(a: seq<Subject>, x: Subject, b: seq<Subject>)
    requires x.grade !in GradeTable
    ensures TotalPoints(a + [x] + b) == TotalPoints(a + b)
    ensures TotalCredits(a + [x] + b) == TotalCredits(a + b) + x.credit
  {
    TotalsConcat(a, [x]);
    TotalsConcat(a + [x], b);
    TotalsConcat(a, b);
    assert [x][..0] == [];
  }

  /** Of the grades the row pattern captures, exactly O+ and C+ are missing
      from the table; U is in the table but can never be captured. */
  lemma CapturedGrades(g: string)
    requires g in GradeTokens
    ensures g !in GradeTable <==> g == "O+" || g == "C+"
    ensures g != "U"
  {
  }

  /** The worked example: O with 3 credits and A with 4 give 62 points over
      7 credits, an SGPA of 8.86. */
  lemma SgpaExample()
    ensures var s := [Subject("CS101", "X", 3, "O"), Subject("MA102", "Y", 4, "A")];
      TotalPoints(s) == 62 && TotalCredits(s) == 7 && Sgpa(s) == 8.86
  {
    var s := [Subject("CS101", "X", 3, "O"), Subject("MA102", "Y", 4, "A")];
    assert s[..1][..0] == [];
    assert s[..1] == [s[0]];
    var y := 62.0 / 7.0 * 100.0;
    assert 885.0 <= y < 886.0;
    assert y.Floor == 885;
  }
}
