/** Character classes, runs, stripping and the backtracking orders shared by
    the three regular expressions of the transcript reader. */
module Scan {

  datatype Option<T> = None | Some(value: T)

  /** Python's str.isspace(), which is also the `\s` class of a str pattern. */
  predicate IsSpace(c: char) {
    || c == ' '
    || ('\t' <= c <= '\r')
    || ('\U{1c}' <= c <= '\U{1f}')
    || c == '\U{85}' || c == '\U{a0}' || c == '\U{1680}'
    || ('\U{2000}' <= c <= '\U{200a}')
    || c == '\U{2028}' || c == '\U{2029}' || c == '\U{202f}' || c == '\U{205f}' || c == '\U{3000}'
  }

  predicate IsUpper(c: char) { 'A' <= c <= 'Z' }
  predicate IsLower(c: char) { 'a' <= c <= 'z' }
  predicate IsLetter(c: char) { IsUpper(c) || IsLower(c) }
  predicate IsDigit(c: char) { '0' <= c <= '9' }
  predicate IsAlnum(c: char) { IsLetter(c) || IsDigit(c) }

  /** ASCII case folding, as used for the case-insensitive labels. */
  function Lower(c: char): (d: char)
    ensures IsUpper(c) ==> IsLower(d) && d as int == c as int + 32
    ensures !IsUpper(c) ==> d == c
  {
    if IsUpper(c) then (c as int + 32) as char else c
  }

  /** s has the literal lit at position pos, ignoring ASCII case. */
  predicate StartsWithCI(s: string, pos: int, lit: string) {
    0 <= pos && pos + |lit| <= |s| && forall k | 0 <= k < |lit| :: Lower(s[pos + k]) == Lower(lit[k])
  }

  predicate All(s: string, p: char -> bool) {
    forall k | 0 <= k < |s| :: p(s[k])
  }

  /** Length of the longest run of characters satisfying p that starts at pos:
      what a greedy `[...]*` consumes there. */
  function Run(s: string, pos: nat, p: char -> bool): (n: nat)
    requires pos <= |s|
    ensures pos + n <= |s|
    ensures forall k | pos <= k < pos + n :: p(s[k])
    ensures pos + n == |s| || !p(s[pos + n])
    decreases |s| - pos
  {
    if pos == |s| || !p(s[pos]) then 0 else 1 + Run(s, pos + 1, p)
  }

  /** Length of the longest run of characters satisfying p at the end of s. */
  function BackRun(s: string, p: char -> bool): (n: nat)
    ensures n <= |s|
    ensures forall k | |s| - n <= k < |s| :: p(s[k])
    ensures n == |s| || !p(s[|s| - n - 1])
  {
    if s == [] || !p(s[|s| - 1]) then 0 else 1 + BackRun(s[..|s| - 1], p)
  }

  /** Python's str.strip() without arguments: the slice of s that remains once
      the whitespace at both ends is removed. */
  function Strip(s: string): (r: string)
    ensures r == [] || (!IsSpace(r[0]) && !IsSpace(r[|r| - 1]))
    ensures var i := Run(s, 0, IsSpace);
      i + |r| <= |s| && s[i..i + |r|] == r && All(s[..i], IsSpace) && All(s[i + |r|..], IsSpace)
  {
    var i := Run(s, 0, IsSpace);
    var n := BackRun(s[i..], IsSpace);
    var r := s[i..|s| - n];
    assert s[i..i + |r|] == r;
    assert All(s[..i], IsSpace);
    var tail := s[i + |r|..];
    assert All(tail, IsSpace) by {
      forall k | 0 <= k < |tail| ensures IsSpace(tail[k]) {
        assert tail[k] == s[i..][|s[i..]| - n + k];
      }
    }
    r
  }

  /** Stripping keeps only characters the input had. */
  lemma StripKeeps(s: string, p: char -> bool)
    requires All(s, p)
    ensures All(Strip(s), p)
  {
    var r := Strip(s);
    var i := Run(s, 0, IsSpace);
    forall k | 0 <= k < |r| ensures p(r[k]) {
      assert r[k] == s[i + k];
    }
  }

  /** Tries i = lo, lo + 1, ..., hi in turn and gives back the first i with
      f(i) == Some(x), together with x. This is the order in which a lazy
      repetition tries its lengths and re.search tries its start positions. */
  function FirstUp<T>(lo: nat, hi: nat, f: nat -> Option<T>): (r: Option<(nat, T)>)
    ensures r.Some? ==> lo <= r.value.0 <= hi && f(r.value.0) == Some(r.value.1)
    ensures r.Some? ==> forall i | lo <= i < r.value.0 :: f(i).None?
    ensures r.None? ==> forall i | lo <= i <= hi :: f(i).None?
    decreases hi - lo
  {
    if hi < lo then None
    else match f(lo)
      case Some(x) => Some((lo, x))
      case None => if lo == hi then None else FirstUp(lo + 1, hi, f)
  }

  /** Tries i = hi, hi - 1, ..., lo in turn and gives back the first i with
      f(i) == Some(x), together with x. This is the order in which a greedy
      repetition gives back characters when the rest of the pattern fails. */
  function FirstDown<T>(lo: nat, hi: nat, f: nat -> Option<T>): (r: Option<(nat, T)>)
    ensures r.Some? ==> lo <= r.value.0 <= hi && f(r.value.0) == Some(r.value.1)
    ensures r.Some? ==> forall i | r.value.0 < i <= hi :: f(i).None?
    ensures r.None? ==> forall i | lo <= i <= hi :: f(i).None?
    decreases hi
  {
    if hi < lo then None
    else match f(hi)
      case Some(x) => Some((hi, x))
      case None => if lo == hi then None else FirstDown(lo, hi - 1, f)
  }

  /** re.search: the leftmost start position 0..|s| at which `at` matches. */
  function Search<T>(s: string, at: (string, nat) -> Option<T>): (r: Option<(nat, T)>)
    ensures r.Some? ==> r.value.0 <= |s| && at(s, r.value.0) == Some(r.value.1)
    ensures r.Some? ==> forall p | 0 <= p < r.value.0 :: at(s, p).None?
    ensures r.None? ==> forall p | 0 <= p <= |s| :: at(s, p).None?
  {
    var f: nat -> Option<T> := (p: nat) => at(s, p);
    assert forall p: nat :: f(p) == at(s, p);
    FirstUp(0, |s|, f)
  }
}
