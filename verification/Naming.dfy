/** Decimal numerals and the names of intermediate and output files. */
module Naming {

  const DIGITS: string := "0123456789"

  /** The decimal numeral of a natural number, as %d and strconv.Itoa print it. */
  function Itoa(n: nat): (s: string)
    ensures |s| > 0
    ensures forall c | c in s :: c in DIGITS
  {
    if n < 10 then [DIGITS[n]] else Itoa(n / 10) + [DIGITS[n % 10]]
  }

  function ReduceName(mapIdx: nat, reduceIdx: nat): string {
    "mr-" + Itoa(mapIdx) + "-" + Itoa(reduceIdx)
  }

  function MergeName(reduceIdx: nat): string {
    "mr-out-" + Itoa(reduceIdx)
  }

  /** The last digit of a numeral, and what stands before it. */
  lemma ItoaEnds(n: nat)
    ensures var s := Itoa(n);
      && s[|s| - 1] == DIGITS[n % 10]
      && (n < 10 <==> |s| == 1) && (n >= 10 ==> s[..|s| - 1] == Itoa(n / 10))
  {
  }

  lemma DigitInjective(a: nat, b: nat)
    requires a < 10 && b < 10 && DIGITS[a] == DIGITS[b]
    ensures a == b
  {
  }

  lemma {:induction false} ItoaInjective(a: nat, b: nat)
    requires Itoa(a) == Itoa(b)
    ensures a == b
  {
    hide Itoa;
    ItoaEnds(a);
    ItoaEnds(b);
    DigitInjective(a % 10, b % 10);
    if a >= 10 { ItoaInjective(a / 10, b / 10); }
  }

  /** The number that a string of digits stands for. */
  function ReadNumeral(s: string): int {
    if s == [] then 0 else 10 * ReadNumeral(s[..|s| - 1]) + (s[|s| - 1] as int - '0' as int)
  }

  lemma DigitValue(d: nat)
    requires d < 10
    ensures DIGITS[d] as int - '0' as int == d
  {
  }

  /** A numeral stands for its number, is made of digits, and has no leading zero. */
  lemma {:induction false} ItoaReadsBack(n: nat)
    ensures ReadNumeral(Itoa(n)) == n
    ensures forall c | c in Itoa(n) :: '0' <= c <= '9'
    ensures n > 0 ==> Itoa(n)[0] != '0'
  {
    ItoaEnds(n);
    DigitValue(n % 10);
    var s := Itoa(n);
    if n < 10 {
      assert s[..0] == [];
    } else {
      ItoaReadsBack(n / 10);
      assert s == s[..|s| - 1] + [s[|s| - 1]];
    }
  }

  /** Names as they stand on the disk. */
  lemma NamesAsPrinted()
    ensures ReduceName(0, 0) == "mr-0-0" && ReduceName(12, 3) == "mr-12-3" && ReduceName(3, 12) == "mr-3-12"
    ensures MergeName(0) == "mr-out-0" && MergeName(12) == "mr-out-12"
  {
    assert Itoa(12) == Itoa(1) + Itoa(2) == "12";
  }

  /** A string is cut at its first dash in one way only. */
  lemma CutAtDash(a: string, b: string, x: string, y: string)
    requires a + "-" + b == x + "-" + y
    requires '-' !in a && '-' !in x
    ensures a == x && b == y
  {
    var s := a + "-" + b;
    assert forall i | 0 <= i < |a| :: s[i] == a[i] && a[i] in a;
    assert forall i | 0 <= i < |x| :: s[i] == x[i] && x[i] in x;
    assert s[|a|] == '-' && s[|x|] == '-';
    assert |a| == |x|;
    assert a == s[..|a|] == x;
    assert b == s[|a| + 1..] == y;
  }

  lemma ReduceNameInjective(m: nat, r: nat, m': nat, r': nat)
    requires ReduceName(m, r) == ReduceName(m', r')
    ensures m == m' && r == r'
  {
    hide Itoa;
    var a, b := Itoa(m) + "-" + Itoa(r), Itoa(m') + "-" + Itoa(r');
    assert ReduceName(m, r) == "mr-" + a && ReduceName(m', r') == "mr-" + b;
    assert a == ("mr-" + a)[3..] && b == ("mr-" + b)[3..];
    CutAtDash(Itoa(m), Itoa(r), Itoa(m'), Itoa(r'));
    ItoaInjective(m, m');
    ItoaInjective(r, r');
  }

  lemma MergeNameInjective(r: nat, r': nat)
    requires MergeName(r) == MergeName(r')
    ensures r == r'
  {
    assert Itoa(r) == MergeName(r)[7..] == MergeName(r')[7..] == Itoa(r');
    ItoaInjective(r, r');
  }

  lemma NamesDisjoint(m: nat, r: nat, r': nat)
    ensures ReduceName(m, r) != MergeName(r')
  {
    assert ReduceName(m, r)[3] == Itoa(m)[0];
    assert Itoa(m)[0] in DIGITS;
    assert MergeName(r')[3] == 'o';
  }

  /** No two files of a job share a name: for all natural numbers, equal names mean equal roles
      and equal indices. */
  lemma NamesNeverCollide(m: nat, r: nat, m': nat, r': nat)
    ensures ReduceName(m, r) == ReduceName(m', r') <==> m == m' && r == r'
    ensures MergeName(r) == MergeName(r') <==> r == r'
    ensures ReduceName(m, r) != MergeName(r')
  {
    if ReduceName(m, r) == ReduceName(m', r') { ReduceNameInjective(m, r, m', r'); }
    if MergeName(r) == MergeName(r') { MergeNameInjective(r, r'); }
    NamesDisjoint(m, r, r');
  }
}
