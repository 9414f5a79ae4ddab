/** Powers of two, and the shift and or operations on machine words in terms of them. */
module WordBits {

  function P(k: nat): (r: nat)
    ensures r > 0
  {
    if k == 0 then 1 else 2 * P(k - 1)
  }

  lemma PZero()
    ensures P(0) == 1
  {
  }

  lemma POne()
    ensures P(1) == 2
  {
    PZero();
  }

  lemma {:induction false} PAdd(a: nat, b: nat)
    ensures P(a + b) == P(a) * P(b)
    decreases a
  {
    if a > 0 {
      PAdd(a - 1, b);
      Assoc(2, P(a - 1), P(b));
    }
  }

  function Quotient(a: nat, m: nat): nat
    requires m > 0
  {
    a / m
  }

  // a >> k
  function Shr(a: nat, k: nat): nat {
    Quotient(a, P(k))
  }

  lemma Assoc(a: int, b: int, c: int)
    ensures a * (b * c) == (a * b) * c
  {
  }

  lemma Distribute(a: int, b: int, c: int)
    ensures a * (b + c) == a * b + a * c
  {
  }

  lemma {:induction false} PGrows(a: nat, b: nat)
    requires a <= b
    ensures P(a) <= P(b)
    decreases b
  {
    if a < b {
      PGrows(a, b - 1);
    }
  }

  // Division with remainder is unique.
  lemma DivUnique(x: nat, m: nat, q: nat, r: nat)
    requires m > 0 && x == m * q + r && r < m
    ensures x / m == q && x % m == r
  {
    var q', r' := x / m, x % m;
    assert m * q + r == m * q' + r';
    if q < q' {
      MulGap(m, q, q');
      assert false;
    } else if q' < q {
      MulGap(m, q', q);
      assert false;
    }
  }

  lemma MulGap(m: nat, a: nat, b: nat)
    requires a < b
    ensures m * a + m <= m * b
  {
    Distribute(m, a, b - a);
    MulMono(m, 1, b - a);
  }

  lemma MulMono(m: nat, a: nat, b: nat)
    requires a <= b
    ensures m * a <= m * b
  {
  }

  // A number below 2^d on top of one below 2^i.
  lemma BelowBoth(p: nat, i: nat, c: nat, d: nat)
    requires p < P(i) && c < P(d)
    ensures p + P(i) * c < P(i + d)
  {
    MulGap(P(i), c, P(d));
    PAdd(i, d);
  }

  // The bitwise or of two numbers.
  function Or(a: nat, b: nat): nat
    decreases a
  {
    if a == 0 then b else 2 * Or(a / 2, b / 2) + (if a % 2 == 1 || b % 2 == 1 then 1 else 0)
  }

  // b & 1 << k, not zero
  predicate Bit(b: nat, k: nat) {
    if k == 0 then b % 2 == 1 else Bit(b / 2, k - 1)
  }

  lemma {:induction false} OrBits(a: nat, b: nat, k: nat)
    ensures Bit(Or(a, b), k) <==> Bit(a, k) || Bit(b, k)
    decreases k
  {
    if a == 0 {
      NoBits(k);
    } else if k > 0 {
      OrBits(a / 2, b / 2, k - 1);
    }
  }

  lemma {:induction false} NoBits(k: nat)
    ensures !Bit(0, k)
  {
    if k > 0 {
      NoBits(k - 1);
    }
  }

  // Bits that do not overlap are added.
  lemma {:induction false} OrIsPlus(a: nat, b: nat, i: nat)
    requires a < P(i)
    ensures Or(a, P(i) * b) == a + P(i) * b
    decreases i
  {
    if a > 0 && i > 0 {
      OrIsPlus(a / 2, b, i - 1);
      Assoc(2, P(i - 1), b);
      DivUnique(P(i) * b, 2, P(i - 1) * b, 0);
    }
  }

  // Adding a multiple of m * k to a number divided by m.
  lemma DivSum(p: nat, m: nat, k: nat, r: nat)
    requires m > 0
    ensures (p + (m * k) * r) / m == p / m + k * r && (p + (m * k) * r) % m == p % m
  {
    var q := p / m;
    Assoc(m, k, r);
    Distribute(m, q, k * r);
    DivUnique(p + (m * k) * r, m, q + k * r, p % m);
  }

  lemma QuotientBelow(p: nat, m: nat, k: nat)
    requires m > 0 && p < m * k
    ensures p / m < k
  {
    if p / m >= k {
      MulMono(m, k, p / m);
      assert false;
    }
  }

  // The low bits of a number made of a part below 2^i and the rest.
  lemma LowBits(p: nat, i: nat, r: nat, len: nat)
    requires p < P(i) && len <= i
    ensures (p + P(i) * r) % P(len) == p % P(len)
    ensures (p + P(i) * r) / P(len) == p / P(len) + P(i - len) * r
    ensures p / P(len) < P(i - len)
  {
    PAdd(len, i - len);
    DivSum(p, P(len), P(i - len), r);
    QuotientBelow(p, P(len), P(i - len));
  }

  // A number below 2^i with w on top, divided by 2^len, for i < len.
  lemma DivAcross(p: nat, i: nat, w: nat, len: nat)
    requires p < P(i) && i <= len
    ensures (p + P(i) * w) / P(len) == w / P(len - i)
  {
    hide P;
    var m := P(len - i);
    var q, r := w / m, w % m;
    SplitSum(p, P(i), m, q, r);
    PAdd(i, len - i);
    BelowBoth(p, i, r, len - i);
    DivUnique(p + P(i) * w, P(len), q, p + P(i) * r);
  }

  lemma SplitSum(p: int, a: int, m: int, q: int, r: int)
    ensures p + a * (m * q + r) == (a * m) * q + (p + a * r)
  {
    Distribute(a, m * q, r);
    Assoc(a, m, q);
  }

  lemma Regroup(p: int, a: int, w: int, b: int, r: int)
    ensures p + a * (w + b * r) == (p + a * w) + (a * b) * r
  {
    Distribute(a, w, b * r);
    Assoc(a, b, r);
  }

  // A number on top of two parts, of which the upper one begins at a.
  lemma OnTop(e: int, v: int, a: int, p: int, b: int, i: int, k: int)
    requires e == v + a * p && b == a * i
    ensures e + b * k == v + a * (p + i * k)
  {
    Regroup(v, a, p, i, k);
  }

  // The bits of n words of w bits.
  function Width(w: nat, n: nat): nat {
    w * n
  }

  lemma WidthNext(w: nat, n: nat)
    ensures Width(w, n + 1) == Width(w, n) + w && Width(w, 0) == 0
  {
    Distribute(w, n, 1);
  }

  // The same when the part is shorter, so that bits of the next word w, of n bits, are needed.
  lemma SpanBits(p: nat, i: nat, w: nat, n: nat, r: nat, len: nat)
    requires p < P(i) && i < len <= i + n && w < P(n)
    ensures (var v := p + P(i) * (w + P(n) * r);
             && v % P(len) == (p + P(i) * w) % P(len)
             && v / P(len) == w / P(len - i) + P(n - (len - i)) * r
             && w / P(len - i) < P(n - (len - i)))
  {
    Regroup(p, P(i), w, P(n), r);
    PAdd(i, n);
    BelowBoth(p, i, w, n);
    LowBits(p + P(i) * w, i + n, r, len);
    LowBits(w, n, 0, len - i);
    DivAcross(p, i, w, len);
  }
}
