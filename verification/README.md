# cgpa-shyne: grade extraction and grade-point averages

This project models the computational core of the cgpa-shyne web
application (`app.py`). The application reads semester mark-sheets and
produces a consolidated grade certificate. Once a mark-sheet's text is in
hand, the core:

- finds the candidate's name and register number with two case-insensitive
  regular-expression searches, falling back to "Student Name" and
  "Register No" (`extract_student_details`);
- scans the text for subject rows (code, name, credit, grade) with
  `re.findall` and builds one record per row (`extract_subjects`);
- computes a transcript's SGPA: the credit-weighted mean of the grade
  points, rounded to two places (`GRADE_POINTS`, `calculate_sgpa`);
- folds the uploaded transcripts into numbered semesters and a CGPA
  (the loop inside the `generate` route).

The model is split into modules that follow that structure:

- `scan.dfy` (`Scan`): character classes, `str.strip`, and the two
  orders in which a backtracking regex engine tries alternatives. A greedy
  repetition tries its longest length first (`FirstDown`). A lazy repetition
  and `re.search`'s start positions try the shortest or leftmost first
  (`FirstUp`, `Search`).
- `rounding.dfy` (`Rounding`): `round(x, 2)` over exact reals, with
  round-half-to-even on ties.
- `subjects.dfy` (`Subjects`): the subject-row pattern, `re.findall`, and
  the `extract_subjects` loop as a method.
- `grades.dfy` (`Grades`): the grade table, the totals, the SGPA, and the
  `calculate_sgpa` loop as a method.
- `identity.dfy` (`Identity`): the name and register-number searches.
- `transcript.dfy` (`Transcript`): the accumulation loop of `generate` as a
  method (`Generate`, with one pass of its body as `AddTranscript`), and the
  CGPA.

The regular expressions are written out as scanners with Python's
backtracking order. A match is therefore exactly the one Python's `re`
would report, not just some substring of the right shape. For example:

- a name group can come out empty after `strip()`, when the label is
  followed by two spaces and a newline;
- the whitespace after the name label may include line breaks, so the name
  can be taken from the line after the label; the name itself never spans a
  line break, since it holds only letters and spaces;
- a longer run of capitals before a code contributes only its last two
  letters.

Some plain facts about the code that the model keeps:

- a semester is numbered by its upload position;
- duplicate uploads give duplicate semesters;
- subject codes are kept whole, as matched;
- the CGPA is computed from the rounded SGPAs, each weighted by its
  credits.

## Model

| member | source | states |
|---|---|---|
| Scan.Strip | app.py:64 | the stripped name drops exactly the leading and trailing whitespace: the result is the input cut after its leading whitespace run, what is cut off on either side is whitespace, and the result neither starts nor ends with whitespace |
| Scan.StripKeeps | app.py:49 | stripping keeps only characters the input had, so a stripped group keeps its pattern's character class |
| Scan.FirstUp | app.py:36 | the lazy `+?` tries lengths shortest first: the length returned is the least one at which the rest of the pattern matches, and none is returned only when no length works |
| Scan.FirstDown | app.py:36 | the greedy `\s+` gives back one character at a time: the count returned is the largest that lets the rest match, and none only when no count works |
| Scan.Search | app.py:35-39 | `re.search` reports the match at the leftmost position where the pattern matches, and nothing only when it matches nowhere |
| Rounding.Round2 | app.py:77 | `round(x, 2)` is a whole number of hundredths within 0.005 of x |
| Rounding.Round2Exact | app.py:208 | rounding a value that already has two decimals leaves it unchanged |
| Rounding.Round2Between | app.py:77 | rounding a value between two integers stays between them |
| Rounding.Round2HalfEven | app.py:77 | ties go to the even hundredth: 321 / 40 = 8.025 gives 8.02 and 8.035 gives 8.04 |
| Rounding.RoundedMean | app.py:77 | `round(total / credits, 2) if credits else 0` is 0 without credits and always a whole number of hundredths |
| Rounding.RoundedMeanBetween | app.py:77 | a total between 0 and 10 per credit gives a rounded mean in [0, 10] |
| Subjects.CodeAt | app.py:57 | a code `[A-Z]{2}\d{3}` is a 5-character alphanumeric token inside the text |
| Subjects.TailAt | app.py:57 | the credit-and-grade tail captures one digit and a grade from O, A, B, C with an optional `+` |
| Subjects.AfterCodeAt | app.py:57 | the lazy name group is non-empty, uses only `[A-Za-z0-9 &()\-]`, and ends before the tail |
| Subjects.RowAt | app.py:57 | a row match starts with a code of two capitals and three digits, taken verbatim from the text, then a non-empty name from the class, a digit credit and a grade from the eight capturable ones; with no code at the position there is no match |
| Subjects.FindAll | app.py:58 | `re.findall` reports matches in text order, inside the text, and without overlap |
| Subjects.FindAllSound | app.py:58 | every reported row is a match of the pattern at its start position |
| Subjects.FindAllComplete | app.py:58 | no match is missed: every position where the pattern matches starts a reported row or lies inside one |
| Subjects.ToSubjectWellShaped | app.py:61-66 | every record has a 5-character code (2 capitals, 3 digits), a stripped name over the name class, a credit in 0..9 and a grade from O, A, B, C, O+, A+, B+, C+ |
| Subjects.ToSubject | app.py:61-67 | a record keeps the matched code and grade verbatim, strips the name, and has a credit in 0..9 |
| Subjects.SubjectsOf | app.py:56-68 | the result of `extract_subjects` has one record per `findall` match |
| Subjects.ExtractSubjects | app.py:56-68 | `extract_subjects` returns one record per `findall` match, in order |
| Subjects.SubjectsWellShaped | app.py:56-68 | every record `extract_subjects` returns is well shaped: a code of 2 capitals and 3 digits, a stripped name over the name class, a digit credit and a capturable grade |
| Grades.GradePoints | app.py:15-18 | `GRADE_POINTS.get(grade, 0)` is between 0 and 10, and 0 for a grade missing from the table |
| Grades.TotalPoints | app.py:74-75 | the grade-point total lies between 0 and 10 times the credit total |
| Grades.TotalCredits | app.py:73-76 | the credit total counts every subject: no single credit exceeds it |
| Grades.NoCreditsIff | app.py:76-77 | the credit total is 0 exactly when every subject has credit 0 |
| Grades.Sgpa | app.py:77 | the SGPA is 0 without credits and always lies in [0, 10] |
| Grades.SgpaNearMean | app.py:77 | the SGPA has two decimals and lies within 0.005 of the exact credit-weighted mean |
| Grades.CalculateSgpa | app.py:71-77 | `calculate_sgpa` returns the credit total and the SGPA, so (0, 0) exactly when the credits sum to 0 |
| Grades.TotalsConcat | app.py:73-76 | both totals add up over concatenated subject lists |
| Grades.ZeroCreditIgnored | app.py:74-76 | a subject with credit 0 changes neither total nor the SGPA |
| Grades.UnknownGradeEarnsNothing | app.py:74-76 | a grade missing from the table adds no points but still adds its credits |
| Grades.CapturedGrades | app.py:15-18 | of the grades the row pattern captures, exactly O+ and C+ are missing from the table; U is never captured |
| Grades.SgpaExample | app.py:71-77 | O with 3 credits and A with 4 give 62 points over 7 credits, an SGPA of 8.86 |
| Identity.NameEndsAt | app.py:36 | the terminator (whitespace then Month, whitespace then Date, or a newline) can only match at a whitespace character inside the text |
| Identity.NameGroupAt | app.py:36 | the lazy name group is non-empty, letters and spaces only, and a terminator follows it |
| Identity.NameAt | app.py:36 | a name match needs the label (any case) at its position and captures a non-empty run of letters and spaces |
| Identity.RegAt | app.py:43 | a register match needs the label (any case) and captures a non-empty alphanumeric run |
| Identity.RegGroupAt | app.py:43 | the greedy group `([A-Z0-9]+)` fails exactly when no alphanumeric character starts there, and otherwise takes the whole alphanumeric run, verbatim, up to a non-alphanumeric character or the end |
| Identity.RegAfterLabel | app.py:43 | after the label, `\s+` gives back one character at a time while the group fails, and the group is a non-empty alphanumeric run |
| Identity.WholeRunAfterLabel | app.py:43 | the backtracking reading after the label equals the reference reading: the whole alphanumeric run after the whole whitespace run, and no match when either is empty |
| Identity.RegAtWholeRun | app.py:43 | at a position with the label, the register match is exactly that reference reading |
| Identity.ExtractName | app.py:30-49 | the name is letters and spaces only, with no leading or trailing space |
| Identity.ExtractReg | app.py:42-52 | the register number is the default or a non-empty alphanumeric string |
| Identity.ExtractStudentDetails | app.py:30-54 | `extract_student_details` returns the found or defaulted name and register number, each on its own: a name of letters and spaces, and the default or a non-empty alphanumeric register number |
| Identity.NameDefaultsWithoutMatch | app.py:31-49 | whenever the name pattern matches nowhere, the label present or not, the name is "Student Name"; in particular without the label |
| Identity.NameDefaultsAfterColon | app.py:35-49 | "Name of the Candidate: JO" followed by a newline gives the default name, since the `\s+` after the label finds a colon |
| Identity.RegDefaultsWithoutMatch | app.py:42-52 | the register number is "Register No" exactly when the pattern matches nowhere, and in particular without the label |
| Transcript.SubjectLists | app.py:193-196 | there is one subject list per uploaded transcript |
| Transcript.Semesters | app.py:199-203 | there is one semester entry per subject list |
| Transcript.SubjectListsByPosition | app.py:193-196 | subject list i is what `extract_subjects` finds in transcript i |
| Transcript.SubjectListAt | app.py:193-196 | subject list i, for one position i, is what `extract_subjects` finds in transcript i |
| Transcript.SemestersByPosition | app.py:189-203 | semester entry i is numbered i + 1 and holds subject list i and its SGPA |
| Transcript.SemesterPerTranscript | app.py:189-203 | exactly one semester per uploaded transcript, even one with no subjects, numbered 1..n in upload order |
| Transcript.Weighted | app.py:205 | a transcript's sgpa × credits lies between 0 and 10 times its credits |
| Transcript.WeightedSum | app.py:205 | the running total of sgpa × credits lies between 0 and 10 times the running credit total |
| Transcript.Cgpa | app.py:208 | the CGPA is 0 when the credits over all transcripts sum to 0, and always lies in [0, 10] |
| Transcript.Generate | app.py:184-208 | the loop builds one semester per transcript in upload order, the name and register number come from the last transcript (the defaults when there is none), and the CGPA is the rounded credit-weighted mean of the rounded SGPAs |
| Transcript.AddTranscript | app.py:193-206 | one pass of the loop overwrites the name and register number with the transcript's own, appends the semester numbered by its upload position with the transcript's subjects and SGPA, and adds its sgpa × credits and its credits to the running totals |
| Transcript.AddTerm | app.py:199-206 | the specification of the semesters list and of both running totals advances by exactly one transcript's entry, sgpa × credits and credits when one more subject list is appended |
| Transcript.CgpaOfOneTranscript | app.py:205-208 | with a single transcript that has credits, the CGPA equals its SGPA |
| Transcript.WeightedNearPoints | app.py:205 | one transcript's rounded SGPA times its credits is within 0.005 per credit of its exact grade-point total |
| Transcript.WeightedSumNearPoints | app.py:205-206 | over all transcripts, the total of sgpa × credits is within 0.005 per credit of the exact grade-point total |
| Transcript.CgpaNearSubjectMean | app.py:208 | the CGPA is within 0.01 of the credit-weighted mean over all subjects of all transcripts |

## Left out

- `extract_text` (app.py:22-28) reads a PDF through pdfplumber, which is
  foreign code doing I/O. Each transcript is given to the model as its text.
- `generate_certificate` (app.py:81-171) lays out the certificate with
  reportlab. It is rendering only, so the model stops at the `Certificate`
  value handed to it.
- The Flask routes, file saving, `send_file`, the upload folder and
  `app.run` are left out, because they are web plumbing and file-system I/O.
- Rounding.Round2: rounds the exact real quotient half to even, not the
  nearest binary float. At an exact tie x.xx5 that is not a binary fraction
  the two can differ by 0.01. For example 321 points over 40 credits is
  8.025: the model gives 8.02, while Python's `round` sees a float slightly
  above 8.025 and gives 8.03. The same holds for the CGPA.
- Transcript.Cgpa: `sgpa * credits` is exact real arithmetic, not float
  arithmetic.
- Grades.CalculateSgpa: returns the real 0.0 where Python returns the
  integer 0. The two compare equal.
- Transcript.Generate: likewise returns the real 0.0 where Python returns
  the integer 0.
- `\d` is modelled as the ASCII digits. Python's `\d` also accepts other
  Unicode decimal digits, and `int()` would convert them.
- `re.IGNORECASE` is modelled as ASCII case folding. Python also matches
  four non-ASCII letters against ASCII letters in the labels, in `[A-Z ]`
  and in `[A-Z0-9]`: the dotted capital İ, the dotless ı, the long s ſ and
  the Kelvin sign.
- `\s` and `strip()` use Python's set of whitespace characters for `str`.
- Identity.ExtractReg: the `.strip()` on the register group is kept in the
  model, although it has no effect, since the group holds no whitespace.
