/** What rows of decimal digits stand for: each digit times its power of ten. */
module PlaceValues {
  import opened Decimals

  predicate Digit(c: int) {
    48 <= c < 58
  }

  ghost predicate DigitsOf(q: seq<int>) {
    q != [] && forall i :: 0 <= i < |q| ==> Digit(q[i])
  }

  function Pow10(k: nat): nat {
    if k == 0 then 1 else 10 * Pow10(k - 1)
  }

  // The sum of the digits, each times its power of ten.
  function PlaceValue(q: seq<int>): int {
    if q == [] then 0 else (q[0] - 48) * Pow10(|q| - 1) + PlaceValue(q[1..])
  }

  lemma {:induction false} DigitsAdd(q: seq<int>, acc: nat)
    requires forall i :: 0 <= i < |q| ==> Digit(q[i])
    ensures DigitValue(q, acc) == acc * Pow10(|q|) + PlaceValue(q)
    decreases |q|
  {
    if q != [] {
      var p, d := Pow10(|q| - 1), q[0] - 48;
      DigitsAdd(q[1..], acc * 10 + d);
      Carry(acc, d, p);
    }
  }

  lemma Carry(acc: int, d: int, p: int)
    ensures (acc * 10 + d) * p == acc * (10 * p) + d * p
  {
    assert (acc * 10 + d) * p == acc * 10 * p + d * p;
    assert acc * 10 * p == acc * (10 * p);
  }
}
