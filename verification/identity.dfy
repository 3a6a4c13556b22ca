/** extract_student_details: the candidate's name and register number, each
    found by a case-insensitive re.search and defaulted when absent. */
module Identity {
  import opened Scan

  datatype Details = Details(name: string, reg: string)

  const DefaultName := "Student Name"
  const DefaultReg := "Register No"

  /** The labels, in lower case; they are compared ignoring case. */
  const NameLabel := "name of the candidate"
  const RegLabel := "register no"

  /** `[A-Z ]` under re.IGNORECASE. */
  predicate IsCandidateNameChar(c: char) { IsLetter(c) || c == ' ' }

  /** The terminator `(?:\s+Month|\s+Date|\n)` matches at position e. A
      `\s+` followed by a letter can only succeed with its longest run. */
  predicate NameEndsAt(s: string, e: nat)
    ensures NameEndsAt(s, e) ==> e < |s| && IsSpace(s[e])
  {
    e <= |s| &&
    var m := Run(s, e, IsSpace);
    || (m > 0 && (StartsWithCI(s, e + m, "month") || StartsWithCI(s, e + m, "date")))
    || (e < |s| && s[e] == '\n')
  }

  /** The lazy group `([A-Z ]+?)` at `start` followed by the terminator: the
      shortest run of name characters after which the terminator matches. */
  function NameGroupAt(s: string, start: nat): (r: Option<string>)
    ensures r.Some? ==> 1 <= |r.value| && All(r.value, IsCandidateNameChar)
    ensures r.Some? ==> start + |r.value| <= |s| && s[start..start + |r.value|] == r.value
    ensures r.Some? ==> NameEndsAt(s, start + |r.value|)
  {
    if start > |s| then None
    else
      var len := Run(s, start, IsCandidateNameChar);
      var f: nat -> Option<()> := (j: nat) => if NameEndsAt(s, start + j) then Some(()) else None;
      match FirstUp(1, len, f)
      case None => None
      case Some((j, _)) =>
        assert f(j).Some?;
        assert All(s[start..start + j], IsCandidateNameChar);
        Some(s[start..start + j])
  }

  /** The name pattern `Name of the Candidate\s+([A-Z ]+?)(?:...)` matched at
      position p: the `\s+` first takes its longest run and gives back one
      character at a time while the rest fails. */
  function NameAt(s: string, p: nat): (r: Option<string>)
    ensures r.Some? ==> StartsWithCI(s, p, NameLabel)
    ensures r.Some? ==> 1 <= |r.value| && All(r.value, IsCandidateNameChar)
  {
    if !StartsWithCI(s, p, NameLabel) then None
    else
      var q := p + |NameLabel|;
      var w := Run(s, q, IsSpace);
      var f: nat -> Option<string> := (k: nat) => NameGroupAt(s, q + k);
      match FirstDown(1, w, f)
      case None => None
      case Some((k, g)) =>
        assert f(k) == NameGroupAt(s, q + k);
        Some(g)
  }

  /** The alphanumeric group `([A-Z0-9]+)` at `start`, greedy: it takes the
      whole run and the pattern ends there. */
  function RegGroupAt(s: string, start: nat): (r: Option<string>)
    ensures r.None? <==> start >= |s| || !IsAlnum(s[start])
    ensures r.Some? ==> 1 <= |r.value| && All(r.value, IsAlnum)
    ensures r.Some? ==> var e := start + |r.value|;
      e <= |s| && s[start..e] == r.value && (e == |s| || !IsAlnum(s[e]))
  {
    if start > |s| then None
    else
      var n := Run(s, start, IsAlnum);
      if n == 0 then None
      else
        assert All(s[start..start + n], IsAlnum);
        Some(s[start..start + n])
  }

  /** `\s+([A-Z0-9]+)` at q, just after the register label: the `\s+` first
      takes its longest run and gives back one character at a time while the
      group fails. */
  function RegAfterLabel(s: string, q: nat): (r: Option<string>)
    requires q <= |s|
    ensures r.Some? ==> 1 <= |r.value| && All(r.value, IsAlnum)
  {
    var w := Run(s, q, IsSpace);
    var f: nat -> Option<string> := (k: nat) => RegGroupAt(s, q + k);
    match FirstDown(1, w, f)
    case None => None
    case Some((k, g)) =>
      assert f(k) == RegGroupAt(s, q + k);
      Some(g)
  }

  /** The register pattern `Register No\s+([A-Z0-9]+)` matched at position p. */
  function RegAt(s: string, p: nat): (r: Option<string>)
    ensures r.Some? ==> StartsWithCI(s, p, RegLabel)
    ensures r.Some? ==> 1 <= |r.value| && All(r.value, IsAlnum)
  {
    if !StartsWithCI(s, p, RegLabel) then None else RegAfterLabel(s, p + |RegLabel|)
  }

  /** The name extract_student_details reports: the first match of the name
      pattern, stripped, or the default when it matches nowhere. */
  function ExtractName(text: string): (name: string)
    ensures All(name, IsCandidateNameChar)
    ensures name == [] || (name[0] != ' ' && name[|name| - 1] != ' ')
  {
    match Search(text, NameAt)
    case Some((_, g)) => StripKeeps(g, IsCandidateNameChar); Strip(g)
    case None =>
      assert All(DefaultName, IsCandidateNameChar);
      DefaultName
  }

  /** The register number extract_student_details reports: the first match
      of the register pattern, or the default when it matches nowhere. */
  function ExtractReg(text: string): (reg: string)
    ensures reg == DefaultReg || (1 <= |reg| && All(reg, IsAlnum))
  {
    match Search(text, RegAt)
    case Some((_, g)) => StripKeeps(g, IsAlnum); Strip(g)
    case None => DefaultReg
  }

  /** extract_student_details: the name and the register number, each found
      or defaulted on its own. */
  function ExtractStudentDetails(text: string): (d: Details)
    ensures d.name == ExtractName(text) && d.reg == ExtractReg(text)
    ensures All(d.name, IsCandidateNameChar)
    ensures d.reg == DefaultReg || (1 <= |d.reg| && All(d.reg, IsAlnum))
  {
    Details(ExtractName(text), ExtractReg(text))
  }

  /** When the name pattern matches nowhere, the label present or not, the
      name is the default; in particular it is the default without the
      label. (The converse fails: a text can name a candidate "Student
      Name".) */
  lemma NameDefaultsWithoutMatch(text: string)
    ensures (forall p | 0 <= p <= |text| :: NameAt(text, p).None?) ==> ExtractName(text) == DefaultName
    ensures (forall p | 0 <= p <= |text| :: !StartsWithCI(text, p, NameLabel)) ==>
      ExtractName(text) == DefaultName
  {
    var r := Search(text, NameAt);
    if r.Some? {
      assert NameAt(text, r.value.0).Some?;
    }
  }

  /** The label followed by a colon: the `\s+` after the label finds no
      whitespace, so the pattern fails there and the name is the default. */
  lemma NameDefaultsAfterColon()
    ensures ExtractName("Name of the Candidate: JO\n") == DefaultName
  {
    var text := "Name of the Candidate: JO\n";
    forall p | 0 <= p <= |text| ensures NameAt(text, p).None? {
      if p == 0 {
        assert !IsSpace(text[|NameLabel|]);
      } else if p + |NameLabel| <= |text| {
        assert Lower(text[p]) != Lower(NameLabel[0]);
      }
    }
    NameDefaultsWithoutMatch(text);
  }

  /** The register number is the default exactly when its pattern matches
      nowhere; in particular it is the default without the label. */
  lemma RegDefaultsWithoutMatch(text: string)
    ensures ExtractReg(text) == DefaultReg <==>
      forall p | 0 <= p <= |text| :: RegAt(text, p).None?
    ensures (forall p | 0 <= p <= |text| :: !StartsWithCI(text, p, RegLabel)) ==>
      ExtractReg(text) == DefaultReg
  {
    var r := Search(text, RegAt);
    if r.Some? {
      var g := r.value.1;
      assert RegAt(text, r.value.0) == Some(g);
      StripKeeps(g, IsAlnum);
      assert !IsAlnum(DefaultReg[8]);
    }
  }

  /** The reference reading of `\s+([A-Z0-9]+)` at q: the whole
      alphanumeric run that follows the whole whitespace run, when both are
      non-empty. */
  function WholeRun(s: string, q: nat): (r: Option<string>)
    requires q <= |s|
  {
    var w := Run(s, q, IsSpace);
    if w >= 1 && q + w < |s| && IsAlnum(s[q + w])
    then Some(s[q + w..q + w + Run(s, q + w, IsAlnum)]) else None
  }

  /** The register group is the whole alphanumeric run that follows the
      longest whitespace run after the label: giving back whitespace never
      helps, since the group cannot start on a whitespace character. */
  lemma RegAtWholeRun(s: string, p: nat)
    requires StartsWithCI(s, p, RegLabel)
    ensures RegAt(s, p) == WholeRun(s, p + |RegLabel|)
  {
    WholeRunAfterLabel(s, p + |RegLabel|);
  }

  /** RegAtWholeRun for the part of the pattern after the label. */
  lemma WholeRunAfterLabel(s: string, q: nat)
    requires q <= |s|
    ensures RegAfterLabel(s, q) == WholeRun(s, q)
  {
    var w := Run(s, q, IsSpace);
    var f: nat -> Option<string> := (k: nat) => RegGroupAt(s, q + k);
    if w >= 1 {
      assert f(w) == RegGroupAt(s, q + w);
      if f(w).None? {
        forall k | 1 <= k < w ensures f(k).None? {
          NoRegGroupInSpace(s, q, k);
        }
      }
    }
  }

  /** Inside the whitespace run after the label the register group cannot
      start. */
  lemma NoRegGroupInSpace(s: string, q: nat, k: nat)
    requires q <= |s| && k < Run(s, q, IsSpace)
    ensures RegGroupAt(s, q + k).None?
  {
    assert IsSpace(s[q + k]);
  }
}
