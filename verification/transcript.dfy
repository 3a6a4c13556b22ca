/** The accumulation loop of the generate route: one semester per uploaded
    transcript, in upload order, and the CGPA over all of them. */
module Transcript {
  import opened Rounding
  import opened Subjects
  import opened Grades
  import opened Identity

  /** One entry of the semesters list. */
  datatype Semester = Semester(no: nat, sgpa: real, subjects: seq<Subject>)

  /** What generate hands to the certificate renderer. */
  datatype Certificate = Certificate(name: string, reg: string, cgpa: real, semesters: seq<Semester>)

  /** The entry made for the transcript uploaded in position no. */
  function SemesterOf(no: nat, subjects: seq<Subject>): Semester {
    Semester(no, Sgpa(subjects), subjects)
  }

  /** The subject lists of the transcripts, in upload order. */
  function SubjectLists(texts: seq<string>): (terms: seq<seq<Subject>>)
    ensures |terms| == |texts|
  {
    if texts == [] then [] else SubjectLists(texts[..|texts| - 1]) + [SubjectsOf(texts[|texts| - 1])]
  }

  /** The semesters list generate builds from the subject lists: entry i
      for transcript i. */
  function Semesters(terms: seq<seq<Subject>>): (sems: seq<Semester>)
    ensures |sems| == |terms|
  {
    if terms == [] then []
    else Semesters(terms[..|terms| - 1]) + [SemesterOf(|terms|, terms[|terms| - 1])]
  }

  /** Entry i of the subject lists is the subject list of transcript i. */
  lemma SubjectListsByPosition(texts: seq<string>)
    ensures forall i | 0 <= i < |texts| :: SubjectLists(texts)[i] == SubjectsOf(texts[i])
  {
    forall i | 0 <= i < |texts| ensures SubjectLists(texts)[i] == SubjectsOf(texts[i]) {
      SubjectListAt(texts, i);
    }
  }

  /** SubjectListsByPosition for one position i. */
  lemma {:induction false} SubjectListAt(texts: seq<string>, i: nat)
    requires i < |texts|
    ensures SubjectLists(texts)[i] == SubjectsOf(texts[i])
    decreases |texts|
  {
    var init := texts[..|texts| - 1];
    if i < |init| {
      SubjectListAt(init, i);
      assert init[i] == texts[i];
    }
  }

  /** Entry i of the semesters list comes from subject list i alone and is
      numbered i + 1: the semesters are numbered 1, 2, ... in upload order. */
  lemma {:induction false} SemestersByPosition(terms: seq<seq<Subject>>)
    ensures forall i | 0 <= i < |terms| :: Semesters(terms)[i] == SemesterOf(i + 1, terms[i])
  {
    if terms != [] {
      var init := terms[..|terms| - 1];
      SemestersByPosition(init);
      assert forall i | 0 <= i < |init| :: init[i] == terms[i];
    }
  }

  /** generate makes exactly one semester per uploaded transcript, even one
      without subjects: entry i is numbered i + 1 and holds the subjects and
      the SGPA of transcript i. */
  lemma SemesterPerTranscript(texts: seq<string>)
    ensures |Semesters(SubjectLists(texts))| == |texts|
    ensures forall i | 0 <= i < |texts| ::
      Semesters(SubjectLists(texts))[i] == SemesterOf(i + 1, SubjectsOf(texts[i]))
  {
    SubjectListsByPosition(texts);
    SemestersByPosition(SubjectLists(texts));
  }

  /** Σ credits over the transcripts. */
  function CreditSum(terms: seq<seq<Subject>>): nat {
    if terms == [] then 0 else CreditSum(terms[..|terms| - 1]) + TotalCredits(terms[|terms| - 1])
  }

  /** sgpa × credits, as generate adds it to the running total. */
  function Scale(sgpa: real, credits: nat): real {
    sgpa * credits as real
  }

  /** Scaling an SGPA between lo and hi by the credits keeps it between the
      scaled bounds. */
  lemma ScaleBetween(sgpa: real, credits: nat, lo: real, hi: real)
    requires lo <= sgpa <= hi
    ensures lo * credits as real <= Scale(sgpa, credits) <= hi * credits as real
  {
    ProductBetween(sgpa, credits as real, lo, hi);
  }

  /** sgpa × credits for one transcript, with its SGPA already rounded. */
  function Weighted(subjects: seq<Subject>): (t: real)
    ensures 0.0 <= t <= 10.0 * TotalCredits(subjects) as real
  {
    ScaleBetween(Sgpa(subjects), TotalCredits(subjects), 0.0, 10.0);
    Scale(Sgpa(subjects), TotalCredits(subjects))
  }

  /** Σ sgpa × credits over the transcripts. */
  function WeightedSum(terms: seq<seq<Subject>>): (t: real)
    ensures 0.0 <= t <= 10.0 * CreditSum(terms) as real
  {
    if terms == [] then 0.0 else WeightedSum(terms[..|terms| - 1]) + Weighted(terms[|terms| - 1])
  }

  /** The CGPA generate reports: 0 without credits, otherwise the
      credit-weighted mean of the rounded SGPAs, rounded to 2 places. */
  function Cgpa(terms: seq<seq<Subject>>): (r: real)
    ensures CreditSum(terms) == 0 ==> r == 0.0
    ensures 0.0 <= r <= 10.0
  {
    RoundedMeanBetween(WeightedSum(terms), CreditSum(terms));
    RoundedMean(WeightedSum(terms), CreditSum(terms))
  }

  /** The accumulation loop of generate: every transcript becomes semester
      number 1, 2, ... in upload order, the name and register number of the
      last transcript win, and the CGPA weighs each SGPA by its credits. */
  method Generate(texts: seq<string>) returns (cert: Certificate)
    ensures cert.semesters == Semesters(SubjectLists(texts))
    ensures cert.name == if texts == [] then DefaultName else ExtractName(texts[|texts| - 1])
    ensures cert.reg == if texts == [] then DefaultReg else ExtractReg(texts[|texts| - 1])
    ensures cert.cgpa == Cgpa(SubjectLists(texts))
  {
    var semesters: seq<Semester> := [];
    var totalPoints: real, totalCredits: nat := 0.0, 0;
    var studentName, regNo := DefaultName, DefaultReg;
    ghost var terms: seq<seq<Subject>> := [];
    for no := 1 to |texts| + 1
      invariant terms == SubjectLists(texts[..no - 1])
      invariant semesters == Semesters(terms)
      invariant totalPoints == WeightedSum(terms)
      invariant totalCredits == CreditSum(terms)
      invariant studentName == if no == 1 then DefaultName else ExtractName(texts[no - 2])
      invariant regNo == if no == 1 then DefaultReg else ExtractReg(texts[no - 2])
    {
      var text := texts[no - 1];
      SubjectListsStep(texts, no);
      AddTerm(terms, SubjectsOf(text));
      semesters, totalPoints, totalCredits, studentName, regNo :=
        AddTranscript(text, no, semesters, totalPoints, totalCredits);
      terms := terms + [SubjectsOf(text)];
    }
    assert texts[..|texts|] == texts;
    var cgpa := RoundedMean(totalPoints, totalCredits);
    cert := Certificate(studentName, regNo, cgpa, semesters);
  }

  /** The body of generate's loop for the transcript uploaded in position
      no: its details overwrite the name and register number, its semester
      is appended, and its sgpa × credits and its credits are added to the
      running totals. */
  method AddTranscript(text: string, no: nat, semesters: seq<Semester>, totalPoints: real, totalCredits: nat)
    returns (semesters': seq<Semester>, totalPoints': real, totalCredits': nat, studentName: string, regNo: string)
    ensures semesters' == semesters + [SemesterOf(no, SubjectsOf(text))]
    ensures totalPoints' == totalPoints + Weighted(SubjectsOf(text))
    ensures totalCredits' == totalCredits + TotalCredits(SubjectsOf(text))
    ensures studentName == ExtractName(text) && regNo == ExtractReg(text)
  {
    var details := ExtractStudentDetails(text);
    studentName, regNo := details.name, details.reg;
    var subjects := ExtractSubjects(text);
    var sgpa, credits := CalculateSgpa(subjects);
    semesters' := semesters + [Semester(no, sgpa, subjects)];
    totalPoints' := totalPoints + Scale(sgpa, credits);
    totalCredits' := totalCredits + credits;
  }

  /** The subject lists of the first no transcripts extend those of the
      first no - 1 by the subjects of transcript no. */
  lemma SubjectListsStep(texts: seq<string>, no: nat)
    requires 1 <= no <= |texts|
    ensures SubjectLists(texts[..no]) == SubjectLists(texts[..no - 1]) + [SubjectsOf(texts[no - 1])]
  {
    assert texts[..no][..no - 1] == texts[..no - 1];
  }

  /** Appending one more subject list appends its semester and adds its
      sgpa × credits and its credits to the totals. */
  lemma AddTerm(terms: seq<seq<Subject>>, x: seq<Subject>)
    ensures Semesters(terms + [x]) == Semesters(terms) + [SemesterOf(|terms| + 1, x)]
    ensures WeightedSum(terms + [x]) == WeightedSum(terms) + Weighted(x)
    ensures CreditSum(terms + [x]) == CreditSum(terms) + TotalCredits(x)
  {
    assert (terms + [x])[..|terms|] == terms;
  }

  /** With a single transcript that carries credits, the CGPA is its SGPA:
      re-rounding a rounded SGPA changes nothing. */
  lemma CgpaOfOneTranscript(subjects: seq<Subject>)
    requires TotalCredits(subjects) > 0
    ensures Cgpa([subjects]) == Sgpa(subjects)
  {
    var sgpa := Sgpa(subjects);
    var c := TotalCredits(subjects);
    assert [subjects][..0] == [];
    assert CreditSum([subjects]) == c;
    assert WeightedSum([subjects]) == Scale(sgpa, c);
    ScaleDivide(sgpa, c);
    SgpaNearMean(subjects);
    Round2Exact(sgpa);
  }

  /** Dividing sgpa × credits by the credits gives the SGPA back. */
  lemma ScaleDivide(sgpa: real, credits: nat)
    requires credits > 0
    ensures Scale(sgpa, credits) / credits as real == sgpa
  {
  }

  /** Σ of the unrounded grade-point totals over the transcripts. */
  function PointSum(terms: seq<seq<Subject>>): int {
    if terms == [] then 0 else PointSum(terms[..|terms| - 1]) + TotalPoints(terms[|terms| - 1])
  }

  /** One transcript's rounded SGPA, weighted by its credits, is off the
      exact grade-point total by at most 0.005 per credit. */
  lemma WeightedNearPoints(subjects: seq<Subject>)
    ensures -0.005 * TotalCredits(subjects) as real <= Weighted(subjects) - TotalPoints(subjects) as real
                                                    <= 0.005 * TotalCredits(subjects) as real
  {
    var c := TotalCredits(subjects);
    if c > 0 {
      SgpaNearMean(subjects);
      ScaleNear(Sgpa(subjects), TotalPoints(subjects), c);
    }
  }

  /** An SGPA within 0.005 of the mean n / credits is, once scaled, within
      0.005 × credits of n. */
  lemma ScaleNear(sgpa: real, n: int, credits: nat)
    requires credits > 0 && -0.005 <= sgpa - n as real / credits as real <= 0.005
    ensures -0.005 * credits as real <= Scale(sgpa, credits) - n as real <= 0.005 * credits as real
  {
    ScaledError(sgpa, n as real, credits as real, 0.005);
  }

  /** Summed over the transcripts, the rounded SGPAs are off the exact
      grade-point total by at most 0.005 per credit. */
  lemma {:induction false} WeightedSumNearPoints(terms: seq<seq<Subject>>)
    ensures -0.005 * CreditSum(terms) as real <= WeightedSum(terms) - PointSum(terms) as real
                                              <= 0.005 * CreditSum(terms) as real
  {
    if terms != [] {
      WeightedSumNearPoints(terms[..|terms| - 1]);
      WeightedNearPoints(terms[|terms| - 1]);
    }
  }

  /** The reported CGPA is within 0.01 of the subject-weighted mean of all
      grade points, the figure one gets without rounding each SGPA first. */
  lemma CgpaNearSubjectMean(terms: seq<seq<Subject>>)
    requires CreditSum(terms) > 0
    ensures -0.01 <= Cgpa(terms) - PointSum(terms) as real / CreditSum(terms) as real <= 0.01
  {
    WeightedSumNearPoints(terms);
    RoundedMeanNear(WeightedSum(terms), PointSum(terms) as real, CreditSum(terms) as real);
  }

  /** A total within 0.005 per credit of another gives, divided by the
      credits and rounded to hundredths, a value within 0.01 of the other's
      mean. */
  lemma RoundedMeanNear(w: real, p: real, c: real)
    requires c > 0.0 && -0.005 * c <= w - p <= 0.005 * c
    ensures -0.01 <= Round2(w / c) - p / c <= 0.01
  {
    QuotientBetween(w - p, c, -0.005, 0.005);
    assert (w - p) / c == w / c - p / c;
  }
}
