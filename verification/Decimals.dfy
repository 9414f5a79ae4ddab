/** Decimal numbers as characters. */
module Decimals {
  const ZERO := 48

  predicate IsDigit(c: int) {
    ZERO <= c <= 57
  }

  // The decimal digits of a number, as characters.
  function NatText(n: nat): seq<int> {
    if n < 10 then [n + ZERO] else NatText(n / 10) + [n % 10 + ZERO]
  }

  function DigitValue(s: seq<int>, acc: nat): nat {
    if s == [] || !IsDigit(s[0]) then acc else DigitValue(s[1..], acc * 10 + (s[0] - ZERO))
  }

  predicate AllDigits(s: seq<int>) {
    forall i :: 0 <= i < |s| ==> IsDigit(s[i])
  }

  lemma {:induction false} ValueAppend(s: seq<int>, d: int, acc: nat)
    requires AllDigits(s) && IsDigit(d)
    ensures DigitValue(s + [d], acc) == DigitValue(s, acc) * 10 + (d - ZERO)
    decreases |s|
  {
    if s == [] {
      assert [] + [d] == [d];
      assert DigitValue([d], acc) == DigitValue([d][1..], acc * 10 + (d - ZERO));
    } else {
      assert (s + [d])[1..] == s[1..] + [d];
      ValueAppend(s[1..], d, acc * 10 + (s[0] - ZERO));
    }
  }

  lemma {:induction false} NatBack(n: nat)
    ensures NatText(n) != [] && AllDigits(NatText(n)) && DigitValue(NatText(n), 0) == n
  {
    if n < 10 {
      assert DigitValue([n + ZERO], 0) == DigitValue([n + ZERO][1..], n);
    } else {
      NatBack(n / 10);
      ValueAppend(NatText(n / 10), n % 10 + ZERO, 0);
    }
  }
}
