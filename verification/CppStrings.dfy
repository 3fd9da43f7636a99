/** The std::string searches that the string utilities build on. */
module CppStrings {

  /** std::string::npos on a 64-bit platform; every string is shorter. */
  const NPOS: nat := 0xFFFF_FFFF_FFFF_FFFF

  type size_t = n: int | 0 <= n <= NPOS

  /** Unsigned 64-bit addition: npos + 1 is 0. */
  function Add(a: size_t, b: size_t): (r: size_t)
    ensures (a + b - r) % 0x1_0000_0000_0000_0000 == 0
  {
    if a + b <= NPOS then a + b else a + b - NPOS - 1
  }

  /** Unsigned 64-bit subtraction. */
  function Sub(a: size_t, b: size_t): (r: size_t)
    ensures (a - b - r) % 0x1_0000_0000_0000_0000 == 0
  {
    if a >= b then a - b else a - b + NPOS + 1
  }

  /** A 32-bit int, and the conversion of a position to one, which keeps the low 32 bits: npos becomes -1. */
  const INT_MAX: int := 0x7FFF_FFFF

  type int32 = n: int | -INT_MAX - 1 <= n <= INT_MAX

  function ToInt(n: size_t): (r: int32)
    ensures (n - r) % 0x1_0000_0000 == 0
  {
    var low := n % 0x1_0000_0000;
    if low <= INT_MAX then low else low - 0x1_0000_0000
  }

  predicate OccursAt(s: string, sep: string, i: nat) {
    i + |sep| <= |s| && s[i..i + |sep|] == sep
  }

  ghost predicate IsFirst(s: string, sep: string, pos: nat, r: nat) {
    pos <= r && OccursAt(s, sep, r) && forall i | pos <= i < r :: !OccursAt(s, sep, i)
  }

  /** std::string::find: the leftmost occurrence of sep at or after pos. */
  ghost function Find(s: string, sep: string, pos: nat): (r: size_t)
    requires |s| < NPOS
    ensures r != NPOS ==> pos <= r && r + |sep| <= |s|
  {
    if r: nat :| IsFirst(s, sep, pos, r) then r else NPOS
  }

  lemma FindIs(s: string, sep: string, pos: nat, r: nat)
    requires |s| < NPOS && IsFirst(s, sep, pos, r)
    ensures Find(s, sep, pos) == r
  {
  }

  lemma {:induction false} FirstExists(s: string, sep: string, pos: nat, i: nat)
    requires pos <= i && OccursAt(s, sep, i)
    ensures exists r: nat :: IsFirst(s, sep, pos, r)
    decreases i
  {
    if j :| pos <= j < i && OccursAt(s, sep, j) {
      FirstExists(s, sep, pos, j);
    } else {
      assert IsFirst(s, sep, pos, i);
    }
  }

  /** Find finds the leftmost occurrence, and finds one if there is one. */
  lemma FindFinds(s: string, sep: string, pos: nat)
    requires |s| < NPOS
    ensures var r := Find(s, sep, pos);
      if r == NPOS then forall i: nat | pos <= i :: !OccursAt(s, sep, i) else IsFirst(s, sep, pos, r)
  {
    if Find(s, sep, pos) == NPOS {
      forall i: nat | pos <= i ensures !OccursAt(s, sep, i) {
        if OccursAt(s, sep, i) { FirstExists(s, sep, pos, i); }
      }
    }
  }

  method StdFind(s: string, sep: string, pos: nat) returns (r: size_t)
    requires |s| < NPOS
    ensures r == Find(s, sep, pos)
  {
    FindFinds(s, sep, pos);
    var i := pos;
    while i + |sep| <= |s|
      invariant pos <= i
      invariant forall k: nat | pos <= k < i :: !OccursAt(s, sep, k)
    {
      if s[i..i + |sep|] == sep {
        assert OccursAt(s, sep, i) && IsFirst(s, sep, pos, i);
        FindIs(s, sep, pos, i);
        return i;
      }
      assert !OccursAt(s, sep, i);
      i := i + 1;
    }
    return NPOS;
  }

  /** At most n characters from pos. */
  function Substr(s: string, pos: nat, n: nat): string
    requires pos <= |s|
  {
    if n < |s| - pos then s[pos..pos + n] else s[pos..]
  }

  /** find_first_not_of, from position i. */
  function FirstNotFrom(s: string, delimit: string, i: nat): (r: size_t)
    requires |s| < NPOS && i <= |s|
    ensures r != NPOS ==> i <= r < |s| && s[r] !in delimit && forall k | i <= k < r :: s[k] in delimit
    ensures r == NPOS ==> forall k | i <= k < |s| :: s[k] in delimit
    decreases |s| - i
  {
    if i == |s| then NPOS else if s[i] !in delimit then i else FirstNotFrom(s, delimit, i + 1)
  }

  function FirstNotOf(s: string, delimit: string): size_t
    requires |s| < NPOS
  {
    FirstNotFrom(s, delimit, 0)
  }

  /** find_last_not_of, among the first n characters. */
  function LastNotBefore(s: string, delimit: string, n: nat): (r: size_t)
    requires |s| < NPOS && n <= |s|
    ensures r != NPOS ==> r < n && s[r] !in delimit && forall k | r < k < n :: s[k] in delimit
    ensures r == NPOS ==> forall k | 0 <= k < n :: s[k] in delimit
  {
    if n == 0 then NPOS else if s[n - 1] !in delimit then n - 1 else LastNotBefore(s, delimit, n - 1)
  }

  function LastNotOf(s: string, delimit: string): size_t
    requires |s| < NPOS
  {
    LastNotBefore(s, delimit, |s|)
  }
}
