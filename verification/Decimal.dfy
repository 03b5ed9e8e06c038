/** Decimal integers as std::to_string writes them and std::from_chars reads them. */
module Decimal {

  import opened Common

  const MINUS: Byte := 45
  const ZERO: Byte := 48
  const INT64_MIN: int := -0x8000_0000_0000_0000
  const INT64_MAX: int := 0x7fff_ffff_ffff_ffff

  predicate IsDigit(b: Byte) { ZERO <= b <= ZERO + 9 }

  predicate AllDigits(s: seq<Byte>) { forall i | 0 <= i < |s| :: IsDigit(s[i]) }

  function Digits(n: nat): (s: seq<Byte>)
    ensures |s| > 0 && AllDigits(s)
  {
    if n < 10 then [ZERO + n] else Digits(n / 10) + [ZERO + n % 10]
  }

  function ToString(n: int): (s: seq<Byte>)
    ensures |s| > 0 && forall i | 0 <= i < |s| :: IsDigit(s[i]) || s[i] == MINUS
  {
    if n < 0 then [MINUS] + Digits(-n) else Digits(n)
  }

  function Value(s: seq<Byte>): int
    decreases |s|
  {
    if s == [] then 0 else Value(s[..|s| - 1]) * 10 + (s[|s| - 1] - ZERO)
  }

  // The whole input must be an optional minus and digits.
  function ParseInt(s: seq<Byte>): Option<int> {
    var negative := |s| > 0 && s[0] == MINUS;
    var digits := if negative then s[1..] else s;
    if digits == [] || !AllDigits(digits) then None
    else Some(if negative then -Value(digits) else Value(digits))
  }

  // The value must also fit a long long.
  function ParseLL(s: seq<Byte>): Option<int> {
    var v := ParseInt(s);
    if v.Some? && INT64_MIN <= v.value <= INT64_MAX then v else None
  }

  lemma {:induction false} ValueDigits(n: nat)
    ensures Value(Digits(n)) == n
  {
    if n < 10 {
      assert Digits(n)[..0] == [];
    } else {
      ValueDigits(n / 10);
      assert Digits(n)[..|Digits(n)| - 1] == Digits(n / 10);
    }
  }

  /** Reading back what was written. */
  lemma ParseToString(n: int)
    ensures ParseInt(ToString(n)) == Some(n)
    ensures INT64_MIN <= n <= INT64_MAX ==> ParseLL(ToString(n)) == Some(n)
  {
    ValueDigits(if n < 0 then -n else n);
    if n < 0 { assert ToString(n)[1..] == Digits(-n); }
  }
}
