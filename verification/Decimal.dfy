/** Decimal printing of integers and its inverse, as `%d` and JSON numbers use it. */
module Decimal {
  import opened Bytes

  predicate IsDigit(b: byte) { 48 <= b <= 57 }

  function PrintNat(n: nat): (d: bytes)
    ensures |d| > 0 && forall i :: 0 <= i < |d| ==> IsDigit(d[i])
  {
    if n < 10 then [48 + n] else PrintNat(n / 10) + [48 + n % 10]
  }

  function Print(n: int): bytes {
    if n >= 0 then PrintNat(n) else [45] + PrintNat(-n)
  }

  function Value(d: bytes): nat
    requires forall i :: 0 <= i < |d| ==> IsDigit(d[i])
  {
    if d == [] then 0
    else
      assert IsDigit(d[|d| - 1]);
      Value(d[..|d| - 1]) * 10 + (d[|d| - 1] as int - 48)
  }

  lemma {:induction false} ValueInverts(n: nat)
    ensures Value(PrintNat(n)) == n
  {
    var d := PrintNat(n);
    if n < 10 {
      assert d[..0] == [];
    } else {
      ValueInverts(n / 10);
      assert d[..|d| - 1] == PrintNat(n / 10);
    }
  }

  lemma PrintInjective(a: int, b: int)
    requires Print(a) == Print(b)
    ensures a == b
  {
    assert Print(a)[0] == 45 <==> a < 0;
    assert Print(b)[0] == 45 <==> b < 0;
    if a >= 0 {
      ValueInverts(a);
      ValueInverts(b);
    } else {
      ValueInverts(-a);
      ValueInverts(-b);
      assert Print(a)[1..] == PrintNat(-a);
      assert Print(b)[1..] == PrintNat(-b);
    }
  }

  /** The longest run of digits at the front. */
  function DigitRun(s: bytes): (k: nat)
    ensures k <= |s| && forall i :: 0 <= i < k ==> IsDigit(s[i])
  {
    if s == [] || !IsDigit(s[0]) then 0 else 1 + DigitRun(s[1..])
  }

  lemma {:induction false} DigitRunStops(d: bytes, t: bytes)
    requires forall i :: 0 <= i < |d| ==> IsDigit(d[i])
    requires t == [] || !IsDigit(t[0])
    ensures DigitRun(d + t) == |d|
  {
    if d == [] {
      assert d + t == t;
    } else {
      assert (d + t)[1..] == d[1..] + t;
      DigitRunStops(d[1..], t);
    }
  }
}
