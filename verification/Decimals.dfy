/** Decimal text of numbers. */
module Decimals {
  function Digit(d: nat): char
    requires d < 10
  {
    '0' + d as char
  }

  /** `std::to_string` of a non-negative number. */
  function ToString(n: nat): (s: string)
    ensures s != [] && forall k :: 0 <= k < |s| ==> '0' <= s[k] <= '9'
  {
    (if n < 10 then [] else ToString(n / 10)) + [Digit(n % 10)]
  }

  function ValueOf(s: string): int {
    if s == [] then 0 else 10 * ValueOf(s[..|s| - 1]) + (s[|s| - 1] as int - '0' as int)
  }

  /** No zeros in front. */
  lemma {:induction false} NoLeadingZero(n: nat)
    ensures if n == 0 then ToString(n) == "0" else ToString(n)[0] != '0'
  {
    if n >= 10 {
      NoLeadingZero(n / 10);
    }
  }

  lemma {:induction false} ToStringValue(n: nat)
    ensures ValueOf(ToString(n)) == n
  {
    var s := ToString(n);
    if n >= 10 {
      ToStringValue(n / 10);
      assert s[..|s| - 1] == ToString(n / 10);
    } else {
      assert s[..|s| - 1] == [];
    }
  }
}
