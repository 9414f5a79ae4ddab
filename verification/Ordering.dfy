/** compare: the order of PicoLisp data, with the differences of machine words it is computed from. */
module Ordering {

  // NIL, T, a short number, a symbol with a name, a symbol without a name (told apart by its
  // address), and a cell.
  datatype Val = Nil | T | Num(n: int) | Named(name: seq<int>) | Anon(addr: int) | Cell(car: Val, cdr: Val)

  // The difference of two signed words, as the machine computes it; half is 2 to the BITS - 1.
  function Wrap(half: int, d: int): int {
    if d >= half then d - 2 * half else if d < -half then d + 2 * half else d
  }

  // The characters of a name as getByte hands them out, 0 at the end.
  function CharAt(name: seq<int>, i: nat): int {
    if i < |name| then name[i] else 0
  }

  // The difference of the first characters that differ.
  function CompareNames(a: seq<int>, b: seq<int>): int {
    if CharAt(a, 0) != CharAt(b, 0) then CharAt(a, 0) - CharAt(b, 0)
    else if CharAt(a, 0) == 0 then 0
    else CompareNames(a[1..], b[1..])
  }

  function NameOf(x: Val): seq<int> {
    if x.Named? then x.name else []
  }

  predicate IsSym(x: Val) {
    x.Named? || x.Anon?
  }

  // compare(x, y); numbers are stored times four.
  function Compare(half: int, x: Val, y: Val): int {
    if x == y then 0
    else if x.Nil? then -1
    else if x.T? then 1
    else if x.Num? then
      if !y.Num? then (if y.Nil? then 1 else -1) else Wrap(half, 4 * x.n - 4 * y.n)
    else if IsSym(x) then
      if y.Num? || y.Nil? then 1
      else if y.Cell? || y.T? then -1
      else if x.Anon? && y.Anon? then Wrap(half, x.addr - y.addr)
      else CompareNames(NameOf(x), NameOf(y))
    else if !y.Cell? then (if y.T? then -1 else 1)
    else
      var c := Compare(half, x.car, y.car);
      if c != 0 then c else Compare(half, x.cdr, y.cdr)
  }

  // ---------- the order it stands for ----------

  function Sign(d: int): int {
    if d < 0 then -1 else if d > 0 then 1 else 0
  }

  function Rank(x: Val): nat {
    match x
    case Nil => 0
    case Num(_) => 1
    case Named(_) => 2
    case Anon(_) => 2
    case Cell(_, _) => 3
    case T => 4
  }

  // NIL, then numbers, then symbols by name (the nameless ones first, by address), then cells by
  // their parts, then T.
  function Order(x: Val, y: Val): int {
    if Rank(x) != Rank(y) then Sign(Rank(x) - Rank(y))
    else
      match x
      case Nil => 0
      case T => 0
      case Num(n) => Sign(n - y.n)
      case Named(_) => OrderNames(NameOf(x), NameOf(y))
      case Anon(a) => if y.Anon? then Sign(a - y.addr) else OrderNames(NameOf(x), NameOf(y))
      case Cell(a, b) => if Order(a, y.car) != 0 then Order(a, y.car) else Order(b, y.cdr)
  }

  // Alphabetical order, a prefix coming first.
  function OrderNames(a: seq<int>, b: seq<int>): int {
    if a == [] then (if b == [] then 0 else -1)
    else if b == [] then 1
    else if a[0] != b[0] then Sign(a[0] - b[0])
    else OrderNames(a[1..], b[1..])
  }

  // Names are not empty and hold no 0.
  ghost predicate WellNamed(x: Val) {
    match x
    case Named(s) => s != [] && forall i :: 0 <= i < |s| ==> s[i] > 0
    case Cell(a, b) => WellNamed(a) && WellNamed(b)
    case _ => true
  }

  lemma {:induction false} OrderNamesLaws(a: seq<int>, b: seq<int>, c: seq<int>)
    ensures OrderNames(a, a) == 0
    ensures OrderNames(a, b) == -OrderNames(b, a)
    ensures OrderNames(a, b) <= 0 && OrderNames(b, c) <= 0 ==> OrderNames(a, c) <= 0
    ensures OrderNames(a, b) <= 0 && OrderNames(b, c) < 0 ==> OrderNames(a, c) < 0
    ensures OrderNames(a, b) < 0 && OrderNames(b, c) <= 0 ==> OrderNames(a, c) < 0
    ensures OrderNames(a, b) == 0 ==> a == b
    decreases |a| + |b| + |c|
  {
    if a != [] && b != [] {
      OrderNamesLaws(a[1..], b[1..], if c != [] then c[1..] else []);
      assert a[1..] == b[1..] && a[0] == b[0] ==> a == b;
    }
    if a != [] {
      OrderNamesLaws(a[1..], [], []);
    }
  }

  // Order is a total preorder.
  lemma {:induction false} OrderLaws(x: Val, y: Val, z: Val)
    requires WellNamed(x) && WellNamed(y) && WellNamed(z)
    ensures Order(x, x) == 0
    ensures Order(x, y) == -Order(y, x)
    ensures Order(x, y) <= 0 && Order(y, z) <= 0 ==> Order(x, z) <= 0
    ensures Order(x, y) <= 0 && Order(y, z) < 0 ==> Order(x, z) < 0
    ensures Order(x, y) < 0 && Order(y, z) <= 0 ==> Order(x, z) < 0
    decreases x, y, z
  {
    OrderNamesLaws(NameOf(x), NameOf(y), NameOf(z));
    if x.Cell? {
      OrderLaws(x.car, if y.Cell? then y.car else Nil, if z.Cell? then z.car else Nil);
      OrderLaws(x.cdr, if y.Cell? then y.cdr else Nil, if z.Cell? then z.cdr else Nil);
    }
  }

  // ---------- when compare computes that order ----------

  // The difference of numbers or of addresses that decides between x and y, if one does, fits in a word.
  ghost predicate Fits(half: int, x: Val, y: Val) {
    x != y ==>
      && (x.Num? && y.Num? ==> -half <= 4 * (x.n - y.n) < half)
      && (x.Anon? && y.Anon? ==> -half <= x.addr - y.addr < half)
      && (x.Cell? && y.Cell? ==> if x.car != y.car then Fits(half, x.car, y.car) else Fits(half, x.cdr, y.cdr))
  }

  // The numbers and addresses in x fit in a word themselves.
  ghost predicate InWords(half: int, x: Val) {
    match x
    case Num(n) => -half <= 4 * n < half
    case Anon(a) => -half <= a < half
    case Cell(a, b) => InWords(half, a) && InWords(half, b)
    case _ => true
  }

  lemma {:induction false} CompareNamesIsOrder(a: seq<int>, b: seq<int>)
    requires (forall i :: 0 <= i < |a| ==> a[i] > 0) && (forall i :: 0 <= i < |b| ==> b[i] > 0)
    ensures Sign(CompareNames(a, b)) == OrderNames(a, b)
  {
    if a != [] && b != [] && a[0] == b[0] {
      CompareNamesIsOrder(a[1..], b[1..]);
    }
  }

  // Only equal values are equal in the order.
  lemma {:induction false} ZeroIsSame(x: Val, y: Val)
    requires WellNamed(x) && WellNamed(y)
    ensures Order(x, y) == 0 <==> x == y
  {
    OrderNamesLaws(NameOf(x), NameOf(y), NameOf(x));
    if x == y {
      OrderLaws(x, x, x);
    } else if x.Cell? && y.Cell? {
      ZeroIsSame(x.car, y.car);
      ZeroIsSame(x.cdr, y.cdr);
    }
  }

  // compare decides the order exactly if the deciding difference fits in a word.
  lemma {:induction false} CompareIsOrder(half: int, x: Val, y: Val)
    requires WellNamed(x) && WellNamed(y)
    ensures Fits(half, x, y) ==> Sign(Compare(half, x, y)) == Order(x, y)
    ensures InWords(half, x) && InWords(half, y) && !Fits(half, x, y) ==> Sign(Compare(half, x, y)) == -Order(x, y) != 0
  {
    ZeroIsSame(x, y);
    if IsSym(x) && IsSym(y) && !(x.Anon? && y.Anon?) {
      CompareNamesIsOrder(NameOf(x), NameOf(y));
    } else if x != y && x.Cell? && y.Cell? {
      ZeroIsSame(x.car, y.car);
      CompareIsOrder(half, x.car, y.car);
      CompareIsOrder(half, x.cdr, y.cdr);
    }
  }

  // So for values in words it is right if and only if that difference fits.
  lemma CompareExactly(half: int, x: Val, y: Val)
    requires WellNamed(x) && WellNamed(y) && InWords(half, x) && InWords(half, y)
    ensures Sign(Compare(half, x, y)) == Order(x, y) <==> Fits(half, x, y)
  {
    CompareIsOrder(half, x, y);
  }

  // ---------- the order of symbols, lists and types ----------

  // Names are in alphabetical order: the first character that differs decides, and a proper prefix comes
  // before the longer name.
  lemma {:induction false} NamesByCharacter(half: int, a: seq<int>, b: seq<int>, i: nat)
    requires WellNamed(Named(a)) && WellNamed(Named(b)) && i <= |a| && i <= |b|
    requires forall j :: 0 <= j < i ==> a[j] == b[j]
    requires i < |a| && i < |b| ==> a[i] != b[i]
    ensures (var c := Compare(half, Named(a), Named(b));
             && (i < |a| && i < |b| ==> (c < 0 <==> a[i] < b[i]) && c != 0)
             && (i == |a| < |b| ==> c < 0)
             && (i == |b| < |a| ==> c > 0)
             && (i == |a| == |b| ==> c == 0))
  {
    FirstDifference(a, b, i);
    assert i == |a| == |b| ==> a == b;
  }

  lemma {:induction false} FirstDifference(a: seq<int>, b: seq<int>, i: nat)
    requires (forall j :: 0 <= j < |a| ==> a[j] > 0) && (forall j :: 0 <= j < |b| ==> b[j] > 0)
    requires i <= |a| && i <= |b| && forall j :: 0 <= j < i ==> a[j] == b[j]
    requires i < |a| && i < |b| ==> a[i] != b[i]
    ensures CompareNames(a, b) == (if i < |a| then a[i] else 0) - (if i < |b| then b[i] else 0)
    decreases i
  {
    if i > 0 {
      assert a[0] == b[0];
      forall j | 0 <= j < i - 1 ensures a[1..][j] == b[1..][j] {
        assert a[j + 1] == b[j + 1];
      }
      FirstDifference(a[1..], b[1..], i - 1);
    }
  }

  // NIL comes first, then numbers, symbols, lists, and T; of two symbols one without a name comes first,
  // and lists are ordered by their first parts that differ.
  lemma TypesInOrder(half: int, x: Val, y: Val)
    requires WellNamed(x) && WellNamed(y)
    ensures x != Nil ==> Compare(half, Nil, x) < 0 && Compare(half, x, Nil) > 0
    ensures x != T ==> Compare(half, T, x) > 0 && Compare(half, x, T) < 0
    ensures x.Num? && (y.Named? || y.Anon? || y.Cell?) ==> Compare(half, x, y) < 0 && Compare(half, y, x) > 0
    ensures (x.Named? || x.Anon?) && y.Cell? ==> Compare(half, x, y) < 0 && Compare(half, y, x) > 0
    ensures x.Anon? && y.Named? ==> Compare(half, x, y) < 0 && Compare(half, y, x) > 0
    ensures x.Cell? && y.Cell? && x.car == y.car ==> Compare(half, x, y) == Compare(half, x.cdr, y.cdr)
    ensures x.Cell? && y.Cell? && x.car != y.car && Compare(half, x.car, y.car) != 0 ==>
              Compare(half, x, y) == Compare(half, x.car, y.car)
  {
  }

  // For two numbers.
  lemma NumbersExactly(half: int, n: int, m: int)
    requires -half <= 4 * n < half && -half <= 4 * m < half
    ensures Sign(Compare(half, Num(n), Num(m))) == Order(Num(n), Num(m)) <==> -half <= 4 * (n - m) < half
  {
  }

  // The result of comparing two numbers is their difference as a word.
  lemma DifferenceWraps(half: int, n: int, m: int)
    requires -half <= 4 * n < half && -half <= 4 * m < half && n != m
    ensures (var c := Compare(half, Num(n), Num(m));
             -half <= c < half
             && (c == 4 * (n - m) || c == 4 * (n - m) - 2 * half || c == 4 * (n - m) + 2 * half))
  {
  }

  // On 32-bit words the smallest number compares greater than the largest, so compare is no order.
  lemma ExtremesWrongWay()
    ensures Compare(0x8000_0000, Num(-0x2000_0000), Num(0x1FFF_FFFF)) > 0
    ensures Compare(0x8000_0000, Num(-0x2000_0000), Num(0)) < 0 && Compare(0x8000_0000, Num(0), Num(0x1FFF_FFFF)) < 0
    ensures InWords(0x8000_0000, Num(-0x2000_0000)) && InWords(0x8000_0000, Num(0x1FFF_FFFF))
    ensures !Fits(0x8000_0000, Num(-0x2000_0000), Num(0x1FFF_FFFF))
  {
  }

  // The loop of compare over two names.
  method CompareChars(a: seq<int>, b: seq<int>) returns (r: int)
    requires (forall i :: 0 <= i < |a| ==> a[i] > 0) && (forall i :: 0 <= i < |b| ==> b[i] > 0)
    ensures r == CompareNames(a, b)
  {
    var i := 0;
    while CharAt(a, i) == CharAt(b, i)
      invariant 0 <= i <= |a| && i <= |b|
      invariant CompareNames(a[i..], b[i..]) == CompareNames(a, b)
      decreases |a| - i
    {
      if CharAt(a, i) == 0 {
        return 0;
      }
      assert a[i..][1..] == a[i + 1..] && b[i..][1..] == b[i + 1..];
      i := i + 1;
    }
    return CharAt(a, i) - CharAt(b, i);
  }

  // compare: recursion into the cars, a loop along the cdrs.
  method CompareValues(half: int, x: Val, y: Val) returns (r: int)
    requires WellNamed(x) && WellNamed(y)
    ensures r == Compare(half, x, y)
    decreases x
  {
    if x == y {
      return 0;
    }
    if x.Nil? {
      return -1;
    }
    if x.T? {
      return 1;
    }
    if x.Num? {
      if !y.Num? {
        return if y.Nil? then 1 else -1;
      }
      return Wrap(half, 4 * x.n - 4 * y.n);
    }
    if IsSym(x) {
      if y.Num? || y.Nil? {
        return 1;
      }
      if y.Cell? || y.T? {
        return -1;
      }
      if x.Anon? && y.Anon? {
        return Wrap(half, x.addr - y.addr);
      }
      r := CompareChars(NameOf(x), NameOf(y));
      return;
    }
    if !y.Cell? {
      return if y.T? then -1 else 1;
    }
    var a, b := x, y;
    while true
      invariant a.Cell? && b.Cell? && WellNamed(a) && WellNamed(b)
      invariant Compare(half, x, y) == Compare(half, a, b)
      invariant a == x || a < x
      decreases a
    {
      ghost var a0 := a;
      r := CompareValues(half, a.car, b.car);
      if r != 0 {
        CarsDiffer(half, a, b);
        return;
      }
      CarsAgree(half, a, b);
      a := a.cdr;
      if !a.Cell? {
        r := CompareValues(half, a, b.cdr);
        return;
      }
      b := b.cdr;
      if !b.Cell? {
        return if b.T? then -1 else 1;
      }
    }
  }

  lemma CarsDiffer(half: int, a: Val, b: Val)
    requires a.Cell? && b.Cell? && Compare(half, a.car, b.car) != 0
    ensures Compare(half, a, b) == Compare(half, a.car, b.car)
  {
  }

  lemma CarsAgree(half: int, a: Val, b: Val)
    requires a.Cell? && b.Cell? && Compare(half, a.car, b.car) == 0
    ensures Compare(half, a, b) == Compare(half, a.cdr, b.cdr)
  {
  }
}
