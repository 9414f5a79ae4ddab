/** format: scaled decimal numbers as text, and back. */
module NumberFormat {
  import opened Decimals

  type Chars = seq<int>

  const MINUS := 45
  const PLUS := 43
  const SPACE := 32

  // ---------- formatting ----------

  function Zeros(k: nat): Chars {
    if k == 0 then [] else [ZERO] + Zeros(k - 1)
  }

  // The digits s with what is put between them: scl digits more come before the point after the first.
  function Grouped(s: Chars, scl: int, sep: int, ign: int): Chars {
    if |s| <= 1 then s
    else [s[0]] + (if scl == 0 then [sep] else if ign != 0 && scl > 0 && scl % 3 == 0 then [ign] else [])
         + Grouped(s[1..], scl - 1, sep, ign)
  }

  // numToSym
  function Format(n: int, scl: nat, sep: int, ign: int): Chars {
    var s := NatText(if n < 0 then -n else n);
    var k := |s| - 1 - scl;
    (if n < 0 then [MINUS] else []) + (if k < 0 then [ZERO, sep] + Zeros(-k - 1) else []) + Grouped(s, k, sep, ign)
  }

  // ---------- parsing ----------

  datatype Parsed = Number(n: int) | NoNumber

  // The state of symToNum: what is left of the text, whether the point has been seen, the number of
  // decimals still wanted, the digits so far.
  datatype Scan = Scan(s: Chars, frac: bool, scl: int, n: nat) | Bad

  // The loop over the characters.
  function ScanOn(s: Chars, frac: bool, scl: int, n: nat, sep: int, ign: int): Scan
    decreases |s|
  {
    if s == [] || (frac && scl == 0) then Scan(s, frac, scl, n)
    else
      var c := s[0];
      if c == sep then (if frac then Bad else ScanOn(s[1..], true, scl, n, sep, ign))
      else if c == ign then ScanOn(s[1..], frac, scl, n, sep, ign)
      else if !IsDigit(c) then Bad
      else ScanOn(s[1..], frac, if frac then scl - 1 else scl, n * 10 + (c - ZERO), sep, ign)
  }

  function Scaled(n: nat, scl: int): nat
    decreases if scl > 0 then scl else 0
  {
    if scl <= 0 then n else Scaled(n * 10, scl - 1)
  }

  function SkipSpace(s: Chars): Chars {
    if s != [] && s[0] <= SPACE then SkipSpace(s[1..]) else s
  }

  // symToNum; the text holds no 0.
  function Parse(s0: Chars, scl: nat, sep: int, ign: int): Parsed {
    var s := SkipSpace(s0);
    if s == [] then NoNumber
    else
      var sign := s[0] == MINUS;
      var u := if s[0] == PLUS || s[0] == MINUS then s[1..] else s;
      if u == [] || !IsDigit(u[0]) then NoNumber
      else
        match ScanOn(u[1..], false, scl, u[0] - ZERO, sep, ign)
        case Bad => NoNumber
        case Scan(rest, frac, left, n) =>
          if !AllDigits(rest) then NoNumber
          else
            var m := if rest != [] && rest[0] >= 53 then n + 1 else n;
            var v := if frac then Scaled(m, left) else m;
            Number(if sign then -v else v)
  }

  // ---------- the round trip ----------

  // The separator and the grouping character are not digits, not each other, and not 0; grouping may be absent.
  predicate Marks(sep: int, ign: int) {
    sep != ign && !IsDigit(sep) && !IsDigit(ign) && sep != 0
  }

  lemma {:induction false} DigitNext(c: int, rest: Chars, frac: bool, scl: int, n: nat, sep: int, ign: int)
    requires IsDigit(c) && Marks(sep, ign) && !(frac && scl == 0)
    ensures ScanOn([c] + rest, frac, scl, n, sep, ign) == ScanOn(rest, frac, if frac then scl - 1
                                                                 else scl, n * 10 + (c - ZERO), sep, ign)
  {
    assert ([c] + rest)[1..] == rest;
  }

  lemma {:induction false} MarkNext(c: int, rest: Chars, scl: int, n: nat, sep: int, ign: int)
    requires Marks(sep, ign)
    ensures ScanOn([sep] + rest, false, scl, n, sep, ign) == ScanOn(rest, true, scl, n, sep, ign)
    ensures ScanOn([ign] + rest, false, scl, n, sep, ign) == ScanOn(rest, false, scl, n, sep, ign)
  {
    assert ([sep] + rest)[1..] == rest;
    assert ([ign] + rest)[1..] == rest;
  }

  // Scanning the digits, k + 1 of which come before the point, and what has been put between them.
  lemma {:induction false} GroupedBack(s: Chars, k: int, sep: int, ign: int, frac: bool, scl: nat, n: nat)
    requires AllDigits(s) && Marks(sep, ign)
    requires if frac then k < 0 && scl == |s| else 0 <= k < |s| && scl == |s| - 1 - k
    ensures ScanOn(Grouped(s, k, sep, ign), frac, scl, n, sep, ign) == Scan([], frac || scl > 0, 0, DigitValue(s, n))
    decreases |s|
  {
    if s != [] {
      var n' := n * 10 + (s[0] - ZERO);
      if |s| == 1 {
        assert s == [s[0]] + [];
        DigitNext(s[0], [], frac, scl, n, sep, ign);
        assert DigitValue(s, n) == DigitValue(s[1..], n');
      } else {
        var rest := Grouped(s[1..], k - 1, sep, ign);
        var mark := if k == 0 then [sep] else if ign != 0 && k > 0 && k % 3 == 0 then [ign] else [];
        assert Grouped(s, k, sep, ign) == [s[0]] + (mark + rest);
        DigitNext(s[0], mark + rest, frac, scl, n, sep, ign);
        MarkNext(s[0], rest, scl, n', sep, ign);
        assert mark == [] ==> mark + rest == rest;
        GroupedBack(s[1..], k - 1, sep, ign, frac || k == 0, if frac then scl - 1 else scl, n');
      }
    }
  }

  lemma {:induction false} ZerosBack(j: nat, rest: Chars, scl: nat, sep: int, ign: int)
    requires Marks(sep, ign) && j < scl
    ensures ScanOn(Zeros(j) + rest, true, scl, 0, sep, ign) == ScanOn(rest, true, scl - j, 0, sep, ign)
  {
    if j == 0 {
      assert Zeros(0) + rest == rest;
    } else {
      assert Zeros(j) + rest == [ZERO] + (Zeros(j - 1) + rest);
      DigitNext(ZERO, Zeros(j - 1) + rest, true, scl, 0, sep, ign);
      ZerosBack(j - 1, rest, scl - 1, sep, ign);
    }
  }

  // The digits of a number as formatted, the sign apart.
  function Unsigned(s: Chars, scl: nat, sep: int, ign: int): Chars {
    var k := |s| - 1 - scl;
    (if k < 0 then [ZERO, sep] + Zeros(-k - 1) else []) + Grouped(s, k, sep, ign)
  }

  lemma {:induction false} UnsignedBack(s: Chars, scl: nat, sep: int, ign: int)
    requires s != [] && AllDigits(s) && Marks(sep, ign)
    ensures (var u := Unsigned(s, scl, sep, ign);
             && u != [] && IsDigit(u[0])
             && ScanOn(u[1..], false, scl, u[0] - ZERO, sep, ign) == Scan([], scl > 0, 0, DigitValue(s, 0)))
  {
    var k := |s| - 1 - scl;
    var g := Grouped(s, k, sep, ign);
    var u := Unsigned(s, scl, sep, ign);
    GroupStart(s, k, sep, ign);
    if k < 0 {
      var rest := Zeros(-k - 1) + g;
      assert u == [ZERO] + ([sep] + rest);
      assert u[1..] == [sep] + rest;
      MarkNext(0, rest, scl, 0, sep, ign);
      ZerosBack(-k - 1, g, scl, sep, ign);
      GroupedBack(s, k, sep, ign, true, |s|, 0);
    } else {
      assert u == g;
      assert g == [g[0]] + g[1..];
      DigitNext(g[0], g[1..], false, scl, 0, sep, ign);
      GroupedBack(s, k, sep, ign, false, scl, 0);
    }
  }

  lemma GroupStart(s: Chars, k: int, sep: int, ign: int)
    requires s != []
    ensures Grouped(s, k, sep, ign) != [] && Grouped(s, k, sep, ign)[0] == s[0]
  {
  }

  // Parsing the formatted text of a number with the same scale and characters gives the number.
  lemma FormatThenParse(n: int, scl: nat, sep: int, ign: int)
    requires Marks(sep, ign)
    ensures Parse(Format(n, scl, sep, ign), scl, sep, ign) == Number(n)
  {
    hide NatText, Grouped, Parse, Zeros;
    var a := if n < 0 then -n else n;
    var s := NatText(a);
    NatBack(a);
    UnsignedBack(s, scl, sep, ign);
    ParseIs(Unsigned(s, scl, sep, ign), scl, a, sep, ign);
    assert [] + Unsigned(s, scl, sep, ign) == Unsigned(s, scl, sep, ign);
    FormatIs(n, scl, sep, ign);
  }

  lemma FormatIs(n: int, scl: nat, sep: int, ign: int)
    ensures (var s := NatText(if n < 0 then -n else n);
             Format(n, scl, sep, ign) == (if n < 0 then [MINUS] else []) + Unsigned(s, scl, sep, ign))
  {
    hide NatText, Grouped, Zeros;
    var s := NatText(if n < 0 then -n else n);
    var k := |s| - 1 - scl;
    var sign, lead := if n < 0 then [MINUS] else [], if k < 0 then [ZERO, sep] + Zeros(-k - 1) else [];
    assert sign + lead + Grouped(s, k, sep, ign) == sign + (lead + Grouped(s, k, sep, ign));
  }

  lemma ParseIs(u: Chars, scl: nat, a: int, sep: int, ign: int)
    requires a >= 0 && u != [] && IsDigit(u[0])
             && ScanOn(u[1..], false, scl, u[0] - ZERO, sep, ign) == Scan([], scl > 0, 0, a)
    ensures Parse(u, scl, sep, ign) == Number(a) && Parse([MINUS] + u, scl, sep, ign) == Number(-a)
  {
    hide ScanOn;
    assert ([MINUS] + u)[1..] == u;
  }

  // ---------- the loops ----------

  // The digits of a number, the lowest one first.
  method DigitLoop(n0: nat) returns (buf: Chars)
    ensures |buf| == |NatText(n0)| && forall i :: 0 <= i < |buf| ==> buf[i] + ZERO == NatText(n0)[|buf| - 1 - i]
  {
    var n: nat := n0;
    buf := [n % 10];
    ghost var rest := NatText(n0);
    while n / 10 != 0
      invariant |buf| >= 1 && buf[|buf| - 1] == n % 10 && |NatText(n0)| == |NatText(n)| + |buf| - 1
      invariant NatText(n0)[..|NatText(n)|] == NatText(n)
      invariant forall i :: 0 <= i < |buf| ==> buf[i] + ZERO == NatText(n0)[|NatText(n0)| - 1 - i]
      decreases n
    {
      assert NatText(n) == NatText(n / 10) + [n % 10 + ZERO];
      assert NatText(n)[|NatText(n)| - 1] == n % 10 + ZERO;
      n := n / 10;
      LastDigit(n);
      assert NatText(n0)[|NatText(n)| - 1] == NatText(n0)[..|NatText(n)|][|NatText(n)| - 1];
      buf := buf + [n % 10];
    }
  }

  lemma LastDigit(n: nat)
    ensures NatText(n) != [] && NatText(n)[|NatText(n)| - 1] == n % 10 + ZERO
  {
  }

  // numToSym
  method NumToSym(n0: int, scl0: nat, sep: int, ign: int) returns (out: Chars)
    ensures out == Format(n0, scl0, sep, ign)
  {
    out := [];
    var n := n0;
    if n < 0 {
      n := -n;
      out := out + [MINUS];
    }
    ghost var s := NatText(n);
    var buf := DigitLoop(n);
    var scl := |buf| - 1 - scl0;
    ghost var k := scl;
    hide NatText, Grouped, Zeros;
    if scl < 0 {
      out, scl := LeadingZeros(out, scl, sep);
    }
    LateScale(s, k, scl, sep, ign);
    out := PutDigits(out, buf, scl, sep, ign, s);
  }

  // A number below 1 gets a 0 before the point and the missing ones after it.
  method LeadingZeros(out0: Chars, scl0: int, sep: int) returns (out: Chars, scl: int)
    requires scl0 < 0
    ensures scl == -1 && out == out0 + ([ZERO, sep] + Zeros(-scl0 - 1))
  {
    out, scl := out0 + [ZERO], scl0;
    out := out + [sep];
    while scl < -1
      invariant scl0 <= scl <= -1 && out + Zeros(-scl - 1) == out0 + ([ZERO, sep] + Zeros(-scl0 - 1))
    {
      ghost var before := out;
      out := out + [ZERO];
      assert before + Zeros(-scl - 1) == out + Zeros(-scl - 2);
      scl := scl + 1;
    }
    assert out + [] == out;
  }

  // The digits from the highest one on, with the characters between them.
  method PutDigits(out0: Chars, buf: Chars, scl0: int, sep: int, ign: int, ghost s: Chars) returns (out: Chars)
    requires |buf| == |s| > 0 && forall i :: 0 <= i < |buf| ==> buf[i] + ZERO == s[|buf| - 1 - i]
    ensures out == out0 + Grouped(s, scl0, sep, ign)
  {
    hide Grouped;
    var p, scl := |buf| - 1, scl0;
    out := out0;
    assert s[0..] == s;
    while true
      invariant 0 <= p < |buf| == |s|
      invariant out0 + Grouped(s, scl0, sep, ign) == out + Grouped(s[|s| - 1 - p..], scl, sep, ign)
      decreases p
    {
      ghost var t := s[|s| - 1 - p..];
      assert t[0] == buf[p] + ZERO && t[1..] == s[|s| - p..];
      if p == 0 {
        OneDigit(t, scl, sep, ign);
        return out + [buf[p] + ZERO];
      }
      PutStep(out, t, scl, sep, ign);
      out := out + [buf[p] + ZERO];
      p := p - 1;
      if scl == 0 {
        out := out + [sep];
      } else if ign != 0 && scl > 0 && scl % 3 == 0 {
        out := out + [ign];
      } else {
        assert out + [] == out;
      }
      scl := scl - 1;
    }
  }

  lemma OneDigit(t: Chars, scl: int, sep: int, ign: int)
    requires |t| == 1
    ensures Grouped(t, scl, sep, ign) == [t[0]]
  {
  }

  lemma PutStep(out: Chars, t: Chars, scl: int, sep: int, ign: int)
    requires |t| > 1
    ensures (var mark := if scl == 0 then [sep] else if ign != 0 && scl > 0 && scl % 3 == 0 then [ign] else [];
             out + Grouped(t, scl, sep, ign) == out + [t[0]] + mark + Grouped(t[1..], scl - 1, sep, ign))
  {
    var mark := if scl == 0 then [sep] else if ign != 0 && scl > 0 && scl % 3 == 0 then [ign] else [];
    var g := Grouped(t[1..], scl - 1, sep, ign);
    assert Grouped(t, scl, sep, ign) == [t[0]] + mark + g;
    assert out + ([t[0]] + mark + g) == out + [t[0]] + mark + g;
  }

  // Without digits before the point, how many zeros come after it does not change the grouping.
  lemma {:induction false} LateScale(s: Chars, k: int, k1: int, sep: int, ign: int)
    requires k == k1 || (k < 0 && k1 < 0)
    ensures Grouped(s, k, sep, ign) == Grouped(s, k1, sep, ign)
  {
    if |s| > 1 {
      LateScale(s[1..], k - 1, k1 - 1, sep, ign);
    }
  }

  // symToNum, on the characters of a name.
  method SymToNum(s0: Chars, scl0: nat, sep: int, ign: int) returns (r: Parsed)
    ensures r == Parse(s0, scl0, sep, ign)
  {
    var s := s0;
    while s != [] && s[0] <= SPACE
      invariant SkipSpace(s) == SkipSpace(s0)
      decreases |s|
    {
      s := s[1..];
    }
    if s == [] {
      return NoNumber;
    }
    var sign := s[0] == MINUS;
    if s[0] == PLUS || s[0] == MINUS {
      s := s[1..];
    }
    if s == [] || !IsDigit(s[0]) {
      return NoNumber;
    }
    var frac, scl, n := false, scl0, s[0] - ZERO;
    s := s[1..];
    ghost var goal := ScanOn(s, false, scl0, n, sep, ign);
    while s != [] && (!frac || scl != 0)
      invariant n >= 0 && scl >= 0 && goal == ScanOn(s, frac, scl, n, sep, ign)
      decreases |s|
    {
      var c := s[0];
      if c == sep {
        if frac {
          return NoNumber;
        }
        frac := true;
      } else if c != ign {
        if !IsDigit(c) {
          return NoNumber;
        }
        n := n * 10 + (c - ZERO);
        if frac {
          scl := scl - 1;
        }
      }
      s := s[1..];
    }
    r := Finish(s, frac, scl, n, sign);
  }

  // The decimals that are too many round the number; missing ones are zeros.
  method Finish(s0: Chars, frac: bool, scl0: nat, n0: nat, sign: bool) returns (r: Parsed)
    ensures r == if !AllDigits(s0) then NoNumber
                 else
                   var m := if s0 != [] && s0[0] >= 53 then n0 + 1 else n0;
                   var v := if frac then Scaled(m, scl0) else m;
                   Number(if sign then -v else v)
  {
    var n: nat := n0;
    var scl: nat := scl0;
    if s0 != [] {
      if !IsDigit(s0[0]) {
        return NoNumber;
      }
      if s0[0] >= 53 {
        n := n + 1;
      }
      var i := 1;
      while i < |s0|
        invariant 1 <= i <= |s0| && AllDigits(s0[..i])
      {
        if !IsDigit(s0[i]) {
          return NoNumber;
        }
        i := i + 1;
      }
      assert s0[..|s0|] == s0;
    }
    if frac {
      ghost var v := Scaled(n, scl);
      while scl > 0
        invariant Scaled(n, scl) == v
      {
        n, scl := n * 10, scl - 1;
      }
    }
    var v: int := n;
    return Number(if sign then -v else v);
  }
}
