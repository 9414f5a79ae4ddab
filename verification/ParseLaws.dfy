/** What the text of a scaled number is parsed as, in powers of ten. */
module ParseLaws {
  import opened Decimals
  import opened PlaceValues
  import opened NumberFormat

  // Neither the separator nor the grouping character is a digit or 0, and they differ.
  ghost predicate Separators(sep: int, ign: int) {
    sep != ign && !Digit(sep) && !Digit(ign) && sep != 0
  }

  ghost predicate Figures(s: Chars) {
    forall i :: 0 <= i < |s| ==> Digit(s[i])
  }

  // Scanning digits: all of them before the point, and up to the scale behind it.
  lemma {:induction false} ScanFigures(s: Chars, rest: Chars, frac: bool, scl: nat, n: nat, sep: int, ign: int)
    requires Separators(sep, ign) && Figures(s) && (frac ==> |s| <= scl)
    ensures ScanOn(s + rest, frac, scl, n, sep, ign)
            == ScanOn(rest, frac, if frac then scl - |s| else scl, DigitValue(s, n), sep, ign)
    decreases |s|
  {
    if s == [] {
      assert s + rest == rest;
    } else {
      var t := s + rest;
      assert t[0] == s[0] && t[1..] == s[1..] + rest;
      ScanFigures(s[1..], rest, frac, if frac then scl - 1 else scl, n * 10 + (s[0] - ZERO), sep, ign);
    }
  }

  lemma {:induction false} ScaledIs(n: nat, k: nat)
    ensures Scaled(n, k) == n * Pow10(k)
    decreases k
  {
    if k > 0 {
      ScaledIs(n * 10, k - 1);
      assert n * 10 * Pow10(k - 1) == n * (10 * Pow10(k - 1));
    }
  }

  // What a number without a sign is parsed as: s begins with a digit.
  function Unsigned(s: Chars, scl: nat, sep: int, ign: int): Parsed
    requires s != [] && Digit(s[0])
  {
    match ScanOn(s[1..], false, scl, s[0] - ZERO, sep, ign)
    case Bad => NoNumber
    case Scan(rest, frac, left, n) =>
      if !AllDigits(rest) then NoNumber
      else
        var m := if rest != [] && rest[0] >= 53 then n + 1 else n;
        Number(if frac then Scaled(m, left) else m)
  }

  function Negated(p: Parsed): Parsed {
    if p.Number? then Number(-p.n) else p
  }

  // Characters up to the space in front are skipped; then comes a sign or a digit.
  lemma {:induction false} SignLaw(s: Chars, scl: nat, sep: int, ign: int, c: int)
    ensures Parse([], scl, sep, ign) == NoNumber
    ensures c <= 32 ==> Parse([c] + s, scl, sep, ign) == Parse(s, scl, sep, ign)
    ensures s != [] && Digit(s[0]) ==> Parse(s, scl, sep, ign) == Parse([43] + s, scl, sep, ign)
                                       && Parse([45] + s, scl, sep, ign) == Negated(Parse(s, scl, sep, ign))
    ensures c > 32 && !Digit(c) && ((c != 43 && c != 45) || s == [] || !Digit(s[0])) ==>
              Parse([c] + s, scl, sep, ign) == NoNumber
  {
    assert ([c] + s)[1..] == s && ([43] + s)[1..] == s && ([45] + s)[1..] == s;
    hide ScanOn;
  }

  // Without a point the digits are the number, whatever the scale.
  lemma {:induction false} WholeLaw(a: Chars, scl: nat, sep: int, ign: int)
    requires Separators(sep, ign) && DigitsOf(a)
    ensures Parse(a, scl, sep, ign) == Number(PlaceValue(a))
  {
    ScanFirst(a, [], scl, sep, ign);
    DigitsAdd(a, 0);
    assert a + [] == a;
  }

  lemma {:induction false} ScanFirst(a: Chars, rest: Chars, scl: nat, sep: int, ign: int)
    requires Separators(sep, ign) && DigitsOf(a)
    ensures (a + rest)[0] == a[0]
    ensures ScanOn((a + rest)[1..], false, scl, a[0] - ZERO, sep, ign)
            == ScanOn(rest, false, scl, DigitValue(a, 0), sep, ign)
  {
    assert (a + rest)[1..] == a[1..] + rest;
    assert Digit(a[0]);
    ScanFigures(a[1..], rest, false, scl, a[0] - ZERO, sep, ign);
    assert DigitValue(a, 0) == DigitValue(a[1..], a[0] - ZERO);
  }

  // With a point: missing decimals are zeros; too many of them round the number, up from 5 on.
  lemma {:induction false} PointLaw(a: Chars, b: Chars, scl: nat, sep: int, ign: int)
    requires Separators(sep, ign) && DigitsOf(a) && Figures(b)
    ensures (var s := a + [sep] + b;
             Parse(s, scl, sep, ign)
             == if |b| <= scl then Number(PlaceValue(a + b) * Pow10(scl - |b|))
                else Number(PlaceValue(a + b[..scl]) + if b[scl] >= 53 then 1 else 0))
  {
    hide ScanOn, Scaled, PlaceValue, Parse, DigitValue;
    var k := if |b| <= scl then |b| else scl;
    var c := b[..k];
    var s := a + [sep] + b;
    assert s == a + ([sep] + b) && b == c + b[k..] && s[0] == a[0] && Digit(a[0]);
    ParseFrom(s, scl, sep, ign);
    ScanFirst(a, [sep] + b, scl, sep, ign);
    PointSeen(b, scl, DigitValue(a, 0), sep, ign);
    ScanFigures(c, b[k..], true, scl, DigitValue(a, 0), sep, ign);
    DigitsJoin(a, c);
    DigitsAdd(a + c, 0);
    ScaledIs(DigitValue(a + c, 0), scl - k);
    ScanEnd(b[k..], scl - k, DigitValue(a + c, 0), sep, ign);
    ScaledIs(DigitValue(a + c, 0) + 1, 0);
    assert |b| <= scl ==> c == b && b[k..] == [];
    assert |b| > scl ==> b[k..][0] == b[scl] && AllDigits(b[k..]);
  }

  lemma PointSeen(b: Chars, scl: nat, n: nat, sep: int, ign: int)
    requires Separators(sep, ign)
    ensures ScanOn([sep] + b, false, scl, n, sep, ign) == ScanOn(b, true, scl, n, sep, ign)
  {
    assert ([sep] + b)[1..] == b;
  }

  lemma {:induction false} DigitsJoin(a: Chars, c: Chars)
    requires DigitsOf(a) && Figures(c)
    ensures DigitsOf(a + c) && DigitValue(c, DigitValue(a, 0)) == DigitValue(a + c, 0)
  {
    ValueJoin(a, c, 0);
  }

  lemma {:induction false} ValueJoin(a: Chars, c: Chars, acc: nat)
    requires Figures(a) && Figures(c)
    ensures DigitValue(c, DigitValue(a, acc)) == DigitValue(a + c, acc)
    decreases |a|
  {
    if a == [] {
      assert a + c == c;
    } else {
      assert (a + c)[1..] == a[1..] + c && (a + c)[0] == a[0];
      ValueJoin(a[1..], c, acc * 10 + (a[0] - ZERO));
    }
  }

  lemma ScanEnd(rest: Chars, scl: nat, n: nat, sep: int, ign: int)
    requires rest != [] ==> scl == 0
    ensures ScanOn(rest, true, scl, n, sep, ign) == Scan(rest, true, scl, n)
  {
  }

  // The grouping character may stand between digits before the point.
  lemma {:induction false} GroupLaw(a: Chars, rest: Chars, scl: nat, sep: int, ign: int)
    requires Separators(sep, ign) && DigitsOf(a)
    ensures Parse(a + [ign] + rest, scl, sep, ign) == Parse(a + rest, scl, sep, ign)
  {
    assert a + [ign] + rest == a + ([ign] + rest);
    assert ([ign] + rest)[1..] == rest;
    ScanFirst(a, [ign] + rest, scl, sep, ign);
    ScanFirst(a, rest, scl, sep, ign);
    var s, t := a + [ign] + rest, a + rest;
    assert Digit(a[0]) && s[0] == a[0] && t[0] == a[0];
    assert s[1..] == (a + ([ign] + rest))[1..];
    hide Parse;
    ParseFrom(s, scl, sep, ign);
    ParseFrom(t, scl, sep, ign);
  }

  lemma ParseFrom(s: Chars, scl: nat, sep: int, ign: int)
    requires s != [] && Digit(s[0])
    ensures Parse(s, scl, sep, ign) == Unsigned(s, scl, sep, ign)
  {
    hide ScanOn;
  }

  // Any other character is an error, before the point and behind it.
  lemma {:induction false} BadLaw(a: Chars, c: int, rest: Chars, scl: nat, sep: int, ign: int)
    requires Separators(sep, ign) && DigitsOf(a) && !Digit(c) && c != ign && c != sep
    ensures Parse(a + [c] + rest, scl, sep, ign) == NoNumber
  {
    hide Parse, DigitValue;
    var s := a + [c] + rest;
    assert s == a + ([c] + rest) && s[0] == a[0] && Digit(a[0]);
    ScanFirst(a, [c] + rest, scl, sep, ign);
    ParseFrom(s, scl, sep, ign);
  }

  lemma {:induction false} BadDecimalLaw(a: Chars, b: Chars, c: int, rest: Chars, scl: nat, sep: int, ign: int)
    requires Separators(sep, ign) && DigitsOf(a) && Figures(b) && !Digit(c) && c != ign
    ensures Parse(a + [sep] + b + [c] + rest, scl, sep, ign) == NoNumber
  {
    hide Parse, DigitValue, ScanOn;
    var t := a + [sep] + b + [c] + rest;
    var u := b + [c] + rest;
    assert t == a + ([sep] + u) && t[0] == a[0] && Digit(a[0]);
    ScanFirst(a, [sep] + u, scl, sep, ign);
    ParseFrom(t, scl, sep, ign);
    PointSeen(u, scl, DigitValue(a, 0), sep, ign);
    var k := if |b| <= scl then |b| else scl;
    var v := b[k..] + [c] + rest;
    assert u == b[..k] + v;
    ScanFigures(b[..k], v, true, scl, DigitValue(a, 0), sep, ign);
    BadDecimal(v, |b| - k, scl - k, DigitValue(b[..k], DigitValue(a, 0)), sep, ign);
  }

  lemma BadDecimal(v: Chars, i: nat, scl: nat, n: nat, sep: int, ign: int)
    requires i < |v| && !Digit(v[i]) && v[i] != ign && (i > 0 ==> scl == 0)
    ensures (var r := ScanOn(v, true, scl, n, sep, ign); r.Bad? || !AllDigits(r.s))
  {
  }
}
