/** sqrt: the integer square root, bit by bit. */
module SquareRoot {
  import opened WordBits

  // r is the integer part of the square root of n.
  predicate IsRoot(n: nat, r: nat) {
    r * r <= n < (r + 1) * (r + 1)
  }

  // r is the integer nearest to the square root of n, which lies between r - 1/2 and r + 1/2.
  predicate IsNearest(n: nat, r: nat) {
    4 * n < (2 * r + 1) * (2 * r + 1) && (r > 0 ==> (2 * r - 1) * (2 * r - 1) <= 4 * n)
  }

  lemma Square(a: int, b: int)
    ensures (a + b) * (a + b) == a * a + 2 * (a * b) + b * b
  {
    Distribute(a + b, a, b);
    Distribute(a, a, b);
    Distribute(b, a, b);
  }

  // Before the bit k is tried: root has only higher bits and its square is off n; what is missing to
  // the true root is less than 2^(k + 1), unless all bits from the top on have been taken.
  ghost predicate Trying(top: nat, whole: nat, k: nat, root: nat, n: nat, r: nat, m: nat) {
    && k < top && n + root * root == whole && r == root * P(k + 1) && m == P(k) * P(k) && root + P(k + 1) <= P(top)
    && (whole < (root + P(k + 1)) * (root + P(k + 1)) || root + P(k + 1) == P(top))
  }

  // After the bit 0.
  ghost predicate Tried(top: nat, whole: nat, n: nat, r: nat) {
    n + r * r == whole && r + 1 <= P(top) && (whole < (r + 1) * (r + 1) || r + 1 == P(top))
  }

  // What the turn of the loop for the bit k makes of n, r and m.
  function NextN(n: nat, r: nat, m: nat): int {
    if r + m > n then n else n - (r + m)
  }

  function NextR(n: nat, r: nat, m: nat): nat {
    Quotient(if r + m > n then r else r + m + m, 2)
  }

  lemma {:induction false} TryBit(top: nat, whole: nat, k: nat, root: nat, n: nat, r: nat, m: nat) returns (root': nat)
    requires Trying(top, whole, k, root, n, r, m)
    ensures NextN(n, r, m) >= 0
    ensures k > 0 ==> Trying(top, whole, k - 1, root', NextN(n, r, m), NextR(n, r, m), m / 4) && m / 4 > 0
    ensures k == 0 ==> Tried(top, whole, NextN(n, r, m), NextR(n, r, m)) && m / 4 == 0
  {
    var b := P(k);
    root' := if r + m > n then root else root + b;
    Products(root, b);
    Square(root, b);
    DivUnique(root' * (2 * b), 2, root' * b, 0);
    Assoc(2, root', b);
    if k > 0 {
      var h := P(k - 1);
      Products(root', h);
      DivUnique(m, 4, h * h, 0);
      Square(h, h);
    }
  }

  lemma Products(root: nat, b: nat)
    ensures root * (2 * b) == 2 * (root * b) && (root + b) * (2 * b) == root * (2 * b) + 2 * (b * b)
    ensures (root + b) + b == root + 2 * b
  {
    Assoc(root, 2, b);
    Distribute(2 * b, root, b);
  }

  lemma {:induction false} StartTrying(w: nat, whole: nat)
    requires w >= 8 && w % 2 == 0
    ensures (var top := w / 2 - 1; Trying(top, whole, top - 1, 0, whole, 0, P(w - 4)) && P(w - 4) > 0
                                   && P(top) * P(top) == P(w - 2))
  {
    var top := w / 2 - 1;
    PAdd(top - 1, top - 1);
    PAdd(top, top);
  }

  // Below 2^(w - 2) the loop leaves the integer root; from there on it leaves the greatest number that
  // it can, which is less.
  lemma {:induction false} TriedMeans(top: nat, whole: nat, n: nat, r: nat)
    requires Tried(top, whole, n, r)
    ensures IsRoot(whole, r) <==> whole < P(top) * P(top)
    ensures n == whole - r * r
  {
    if r + 1 < P(top) {
      MulGap(r + 1, r + 1, P(top));
      MulGap(P(top), r + 1, P(top));
    }
  }

  // Rounding up when the remainder exceeds the root gives the nearest integer.
  lemma {:induction false} Rounded(whole: nat, r: nat)
    requires IsRoot(whole, r)
    ensures IsNearest(whole, if whole - r * r > r then r + 1 else r)
  {
    OddSquares(r);
    OddSquares(r + 1);
    Square(r, 1);
  }

  // There is exactly one nearest integer: the integer root, or the next number if the remainder exceeds it.
  lemma {:induction false} NearestExactly(n: nat, q: nat, r: nat)
    requires IsRoot(n, q)
    ensures IsNearest(n, r) <==> r == if n - q * q > q then q + 1 else q
  {
    Rounded(n, q);
    var s := if n - q * q > q then q + 1 else q;
    if r < s {
      OddSquares(s);
      OddSquares(r);
      OddBelow(2 * r + 1, 2 * s - 1);
    } else if s < r {
      OddSquares(s);
      OddSquares(r);
      OddBelow(2 * s + 1, 2 * r - 1);
    }
  }

  lemma OddBelow(a: nat, b: nat)
    requires a <= b
    ensures a * a <= b * b
  {
    MulMono(a, a, b);
    MulMono(b, a, b);
  }

  // With rounding the loop is good for a little more: from 2^(w - 2) on it leaves the greatest number that
  // it can, and that rounded up is the nearest integer for the next 2^(w/2 - 1) numbers.
  lemma {:induction false} RoundedExactly(top: nat, whole: nat, n: nat, r: nat)
    requires Tried(top, whole, n, r)
    ensures IsNearest(whole, if n > r then r + 1 else r) <==> whole <= P(top) * P(top) + P(top)
  {
    TriedMeans(top, whole, n, r);
    if whole < P(top) * P(top) {
      Rounded(whole, r);
    } else {
      Square(r, 1);
      OddSquares(r + 1);
    }
  }

  // On 32-bit words (sqrt 268435456 7) gives 32768 where 43348 is nearest; the scaled number fits in a word.
  lemma {:induction false} ScaledTooFar(n: nat, r: nat)
    requires Tried(15, 268435456 * 7, n, r)
    ensures P(30) <= 268435456 * 7 < P(31)
    ensures (if n > r then r + 1 else r) == 32768
    ensures !IsNearest(268435456 * 7, 32768) && IsNearest(268435456 * 7, 43348)
  {
    SmallPowers();
    hide P;
    if r + 1 < 32768 {
      MulGap(r + 1, r + 1, 32768);
    }
  }

  lemma SmallPowers()
    ensures P(15) == 32768 && P(30) == 0x4000_0000 && P(31) == 0x8000_0000
  {
    assert P(5) == 32;
    assert P(10) == 1024;
    assert P(15) == 32768;
    assert P(20) == 0x10_0000;
    assert P(25) == 0x200_0000;
  }

  lemma OddSquares(r: int)
    ensures (2 * r + 1) * (2 * r + 1) == 4 * (r * r) + 4 * r + 1
    ensures (2 * r - 1) * (2 * r - 1) == 4 * (r * r) - 4 * r + 1
  {
    Square(2 * r, 1);
    Square(2 * r, -1);
    Assoc(2 * r, 2, r);
    Assoc(r, 2, r);
  }

  // sqrt of n, scaled and rounded if asked for, on words of w bits; the machine computes the scaled number
  // only if it fits in a word, too.
  method Sqrt(w: nat, n0: nat, scale: nat, round: bool) returns (r: nat)
    requires w >= 8 && w % 2 == 0
    ensures (var whole := n0 * scale;
             if round then IsNearest(whole, r) <==> whole <= P(w - 2) + P(w / 2 - 1)
             else IsRoot(whole, r) <==> whole < P(w - 2))
  {
    var n: nat := n0 * scale;
    ghost var whole, top := n, w / 2 - 1;
    ghost var k, root := top - 1, 0;
    StartTrying(w, whole);
    var m := P(w - 4);
    r := 0;
    hide P, Trying, Tried, IsRoot, IsNearest;
    while m != 0
      invariant if m != 0 then k >= 0 && Trying(top, whole, k, root, n, r, m) else Tried(top, whole, n, r)
      decreases m
    {
      root := TryBit(top, whole, k, root, n, r, m);
      k := k - 1;
      r := r + m;
      if r > n {
        r := r - m;
      } else {
        n := n - r;
        r := r + m;
      }
      r := Quotient(r, 2);
      m := m / 4;
    }
    TriedMeans(top, whole, n, r);
    RoundedExactly(top, whole, n, r);
    if round && n > r {
      r := r + 1;
    }
  }
}
