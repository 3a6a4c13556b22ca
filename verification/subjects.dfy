/** extract_subjects: the subject-row pattern
      ([A-Z]{2}\d{3})\s+([A-Za-z0-9 &()\-]+?)\s+(\d)\s+([OABC][+]?)
    run by re.findall over the text of one transcript, and the records built
    from its matches. */
module Subjects {
  import opened Scan

  /** One subject record: the dictionary extract_subjects appends. */
  datatype Subject = Subject(code: string, name: string, credit: nat, grade: string)

  /** One match of the row pattern: where it starts and ends in the text, and
      its four groups as re.findall hands them out. */
  datatype Row = Row(start: nat, end: nat, code: string, name: string, credit: char, grade: string)

  /** What follows a matched name: `\s+(\d)\s+([OABC][+]?)`. */
  datatype Tail = Tail(credit: char, grade: string, end: nat)

  /** What follows the code's whitespace: the name group and the tail. */
  datatype AfterCode = AfterCode(name: string, tail: Tail)

  /** The characters of `[A-Za-z0-9 &()\-]`. */
  predicate IsSubjectNameChar(c: char) {
    IsAlnum(c) || c == ' ' || c == '&' || c == '(' || c == ')' || c == '-'
  }

  predicate IsGradeLetter(c: char) { c == 'O' || c == 'A' || c == 'B' || c == 'C' }

  /** The grades the pattern can capture. */
  const GradeTokens: set<string> := {"O", "A", "B", "C", "O+", "A+", "B+", "C+"}

  /** `[A-Z]{2}\d{3}` at position p. */
  predicate CodeAt(s: string, p: nat)
    ensures CodeAt(s, p) ==> p + 5 <= |s| && All(s[p..p + 5], IsAlnum)
  {
    p + 5 <= |s| && IsUpper(s[p]) && IsUpper(s[p + 1])
    && IsDigit(s[p + 2]) && IsDigit(s[p + 3]) && IsDigit(s[p + 4])
  }

  /** `\s+(\d)\s+([OABC][+]?)` at position e. Each `\s+` is followed by a
      character that is not whitespace, so only its longest run can succeed,
      and the optional `+` is taken whenever it is there. */
  function TailAt(s: string, e: nat): (r: Option<Tail>)
    ensures r.Some? ==> e < r.value.end <= |s| && IsDigit(r.value.credit) && r.value.grade in GradeTokens
  {
    if e > |s| then None
    else
      var m1 := Run(s, e, IsSpace);
      var d := e + m1;
      if m1 == 0 || d == |s| || !IsDigit(s[d]) then None
      else
        var m2 := Run(s, d + 1, IsSpace);
        var g := d + 1 + m2;
        if m2 == 0 || g == |s| || !IsGradeLetter(s[g]) then None
        else if g + 1 < |s| && s[g + 1] == '+' then
          assert s[g..g + 2] == [s[g], '+'];
          Some(Tail(s[d], s[g..g + 2], g + 2))
        else
          assert s[g..g + 1] == [s[g]];
          Some(Tail(s[d], s[g..g + 1], g + 1))
  }

  /** The lazy name group `[A-Za-z0-9 &()\-]+?` starting at `start`,
      followed by a tail: the shortest name after which the tail matches. */
  function AfterCodeAt(s: string, start: nat): (r: Option<AfterCode>)
    ensures r.Some? ==> 1 <= |r.value.name| && All(r.value.name, IsSubjectNameChar)
    ensures r.Some? ==> start + |r.value.name| < r.value.tail.end <= |s|
    ensures r.Some? ==> IsDigit(r.value.tail.credit) && r.value.tail.grade in GradeTokens
  {
    if start > |s| then None
    else
      var len := Run(s, start, IsSubjectNameChar);
      var f: nat -> Option<Tail> := (j: nat) => TailAt(s, start + j);
      match FirstUp(1, len, f)
      case None => None
      case Some((j, t)) =>
        assert f(j) == TailAt(s, start + j);
        assert All(s[start..start + j], IsSubjectNameChar);
        Some(AfterCode(s[start..start + j], t))
  }

  /** The row pattern matched at position p, with Python's backtracking:
      the `\s+` after the code first takes its longest run and gives back
      one character at a time while the rest fails. */
  function RowAt(s: string, p: nat): (r: Option<Row>)
    ensures r.Some? ==> r.value.start == p && p + 5 < r.value.end <= |s|
    ensures r.Some? ==> r.value.code == s[p..p + 5] && CodeAt(s, p)
    ensures r.Some? ==> 1 <= |r.value.name| && All(r.value.name, IsSubjectNameChar)
    ensures r.Some? ==> IsDigit(r.value.credit) && r.value.grade in GradeTokens
    ensures !CodeAt(s, p) ==> r.None?
  {
    if !CodeAt(s, p) then None
    else
      var q := p + 5;
      var w := Run(s, q, IsSpace);
      var f: nat -> Option<AfterCode> := (k: nat) => AfterCodeAt(s, q + k);
      match FirstDown(1, w, f)
      case None => None
      case Some((k, a)) =>
        assert f(k) == AfterCodeAt(s, q + k);
        Some(Row(p, a.tail.end, s[p..q], a.name, a.tail.credit, a.tail.grade))
  }

  /** re.findall from position pos: match at the earliest position, then
      resume at the end of that match. */
  function FindAll(s: string, pos: nat): (rows: seq<Row>)
    ensures forall i | 0 <= i < |rows| :: pos <= rows[i].start < rows[i].end <= |s|
    ensures forall i | 0 <= i < |rows| - 1 :: rows[i].end <= rows[i + 1].start
    ensures forall i | 0 <= i < |rows| :: IsDigit(rows[i].credit)
    decreases |s| + 1 - pos
  {
    if pos > |s| then []
    else match RowAt(s, pos)
      case Some(r) => [r] + FindAll(s, r.end)
      case None => FindAll(s, pos + 1)
  }

  /** Every reported row is a match of the pattern at its start. */
  lemma {:induction false} FindAllSound(s: string, pos: nat, i: nat)
    requires i < |FindAll(s, pos)|
    ensures RowAt(s, FindAll(s, pos)[i].start) == Some(FindAll(s, pos)[i])
    decreases |s| + 1 - pos
  {
    match RowAt(s, pos)
    case Some(r) =>
      if i > 0 {
        FindAllSound(s, r.end, i - 1);
      }
    case None =>
      FindAllSound(s, pos + 1, i);
  }

  /** No row is missed: every position from pos on at which the pattern
      matches is the start of a reported row or lies inside one, so the rows
      are exactly the leftmost non-overlapping matches. */
  lemma {:induction false} FindAllComplete(s: string, pos: nat, p: nat)
    requires pos <= p <= |s| && RowAt(s, p).Some?
    ensures Covered(FindAll(s, pos), p)
    decreases |s| + 1 - pos
  {
    var rows := FindAll(s, pos);
    match RowAt(s, pos)
    case Some(r) =>
      if p < r.end {
        assert rows[0].start <= p < rows[0].end;
      } else {
        FindAllComplete(s, r.end, p);
        var rest := FindAll(s, r.end);
        var i :| 0 <= i < |rest| && rest[i].start <= p < rest[i].end;
        assert rows[i + 1] == rest[i];
      }
    case None =>
      if p == pos {
      } else {
        FindAllComplete(s, pos + 1, p);
      }
  }

  /** p lies inside one of the rows (its start included). */
  ghost predicate Covered(rows: seq<Row>, p: nat) {
    exists i | 0 <= i < |rows| :: rows[i].start <= p < rows[i].end
  }

  /** The record built from one match: the name stripped, the credit as int. */
  function ToSubject(r: Row): (x: Subject)
    requires IsDigit(r.credit)
    ensures x.code == r.code && x.grade == r.grade
    ensures x.name == Strip(r.name)
    ensures x.credit <= 9
  {
    Subject(r.code, Strip(r.name), r.credit as int - '0' as int, r.grade)
  }

  /** The shape every extracted record has. */
  predicate WellShaped(x: Subject) {
    && |x.code| == 5 && IsUpper(x.code[0]) && IsUpper(x.code[1])
    && IsDigit(x.code[2]) && IsDigit(x.code[3]) && IsDigit(x.code[4])
    && All(x.name, IsSubjectNameChar)
    && (x.name == [] || (x.name[0] != ' ' && x.name[|x.name| - 1] != ' '))
    && x.credit <= 9
    && x.grade in GradeTokens
  }

  /** The records extract_subjects returns for a text. */
  function SubjectsOf(text: string): (xs: seq<Subject>)
    ensures |xs| == |FindAll(text, 0)|
  {
    var rows := FindAll(text, 0);
    seq(|rows|, i requires 0 <= i < |rows| => ToSubject(rows[i]))
  }

  lemma ToSubjectWellShaped(s: string, r: Row)
    requires RowAt(s, r.start) == Some(r)
    ensures IsDigit(r.credit) && WellShaped(ToSubject(r))
  {
    StripKeeps(r.name, IsSubjectNameChar);
  }

  /** extract_subjects: one record per match, in text order. */
  method ExtractSubjects(text: string) returns (subjects: seq<Subject>)
    ensures subjects == SubjectsOf(text)
  {
    var matches := FindAll(text, 0);
    subjects := [];
    for i := 0 to |matches|
      invariant |subjects| == i
      invariant forall k | 0 <= k < i :: subjects[k] == ToSubject(matches[k])
    {
      subjects := subjects + [ToSubject(matches[i])];
    }
  }

  /** Every record extract_subjects returns is well shaped. */
  lemma SubjectsWellShaped(text: string)
    ensures forall i | 0 <= i < |SubjectsOf(text)| :: WellShaped(SubjectsOf(text)[i])
  {
    var rows := FindAll(text, 0);
    forall i | 0 <= i < |rows| ensures WellShaped(SubjectsOf(text)[i]) {
      FindAllSound(text, 0, i);
      ToSubjectWellShaped(text, rows[i]);
    }
  }
}
