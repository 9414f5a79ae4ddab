/** What tokens, words, numbers, string literals and printed texts are, said of character codes. */
module ReaderLaws {
  import opened Decimals
  import opened PlaceValues
  import opened SchemeText
  import opened Reading
  import opened RoundTrip
  import opened ReaderObject

  // ---------- characters ----------

  predicate Blank(c: int) {
    c == 9 || c == 10 || c == 11 || c == 12 || c == 13 || c == 32
  }

  // Space, the parentheses, the double quote and the semicolon end a word.
  predicate Ending(c: int) {
    Blank(c) || c == 40 || c == 41 || c == 34 || c == 59
  }

  // ---------- tokens ----------

  lemma {:induction false} BlankLaw(c: int, s: Chars)
    requires Blank(c)
    ensures NextToken([c] + s) == NextToken(s)
  {
    assert ([c] + s)[1..] == s;
    assert SkipSpace([c] + s) == SkipSpace(s);
  }

  // A comment goes up to the end of its line.
  lemma {:induction false} CommentLaw(line: Chars, s: Chars)
    requires forall i :: 0 <= i < |line| ==> line[i] != 10
    ensures NextToken([59] + line + [10] + s) == NextToken(s)
    ensures NextToken([59] + line) == Scan(TEof, [])
  {
    var a, b := [59] + line + [10] + s, [59] + line;
    NoSkip(a);
    NoSkip(b);
    assert a[1..] == line + [10] + s && b[1..] == line;
    LineSkipped(line, s);
  }

  lemma {:induction false} LineSkipped(line: Chars, s: Chars)
    requires forall i :: 0 <= i < |line| ==> line[i] != 10
    ensures SkipLine(line + [10] + s) == s && SkipLine(line) == []
  {
    var a := line + [10] + s;
    if line == [] {
      assert a[1..] == s;
    } else {
      assert a[1..] == line[1..] + [10] + s;
      LineSkipped(line[1..], s);
    }
  }

  // The characters that are tokens of their own.
  lemma {:induction false} MarkLaw(u: Chars)
    ensures NextToken([]) == Scan(TEof, [])
    ensures NextToken([40] + u) == Scan(TLparen, u) && NextToken([41] + u) == Scan(TRparen, u)
    ensures NextToken([39] + u) == Scan(TQuote, u) && NextToken([96] + u) == Scan(TBquote, u)
    ensures NextToken([34] + u) == Scan(TDquote, u)
    ensures NextToken([44, 64] + u) == Scan(TAtmark, u)
    ensures u == [] || u[0] != 64 ==> NextToken([44] + u) == Scan(TComma, u)
  {
    OpenToken(u);
    CloseToken(u);
    CommaToken(u);
    NoSkip([34] + u);
  }

  // A dot is one before a blank or the end, and begins a word otherwise.
  lemma {:induction false} DotLaw(c: int, u: Chars)
    ensures NextToken([46]) == Scan(TDot, [])
    ensures NextToken([46, c] + u) == if c == 32 || c == 10 || c == 9 then Scan(TDot, u) else Scan(TAtom, [46, c] + u)
  {
    var s := [46, c] + u;
    NoSkip(s);
    NoSkip([46]);
    assert s[1..][0] == c && s[1..][1..] == u && [46][1..] == [];
  }

  // After a # comes a vector, a constant, or something else; what follows a constant's # is not taken.
  lemma {:induction false} SharpLaw(c: int, u: Chars)
    requires c != 33
    ensures NextToken([35, c] + u)
            == if c == 40 then Scan(TVec, u)
               else if c == 116 || c == 102 || c == 111 || c == 100 || c == 120 || c == 98 || c == 92 || c == 32 then
                 Scan(TSharpConst, [c] + u)
               else Scan(TSharp, [c] + u)
  {
    var s := [35, c] + u;
    NoSkip(s);
    assert s[1..] == [c] + u && s[1..][0] == c && s[1..][1..] == u;
  }

  // Every other character begins a word.
  lemma {:induction false} AtomLaw(c: int, u: Chars)
    requires !Ending(c) && c != 39 && c != 96 && c != 44 && c != 35 && c != 46
    ensures NextToken([c] + u) == Scan(TAtom, [c] + u)
  {
    NoSkip([c] + u);
  }

  // A word goes up to the next ending character.
  lemma {:induction false} WordLaw(q: Chars, rest: Chars)
    requires 0 < |q| <= 255 && q != [92] && (forall i :: 0 <= i < |q| ==> !Ending(q[i]))
    requires rest == [] || Ending(rest[0])
    ensures ReadUpto(q + rest) == Word(q, rest)
  {
    WordBack(q, rest);
  }

  // ---------- atoms ----------

  // Digits are the number that they stand for, leading zeros included, and so are digits behind a sign.
  lemma {:induction false} NumberLaw(q: Chars)
    requires DigitsOf(q)
    ensures AtomOf(q) == Num(PlaceValue(q)) && AtomOf([43] + q) == Num(PlaceValue(q))
    ensures AtomOf([45] + q) == Num(-PlaceValue(q))
  {
    var a, b := [43] + q, [45] + q;
    assert a[1..] == q && b[1..] == q;
    DigitsOnly(q, 1);
    DigitsOnly(a, 2);
    DigitsOnly(b, 2);
    DigitsAdd(q, 0);
    assert a[1] == q[0] && b[1] == q[0];
    forall i | 0 <= i < |q| ensures q[i] != 58 && a[i + 1] != 58 && b[i + 1] != 58 {
      assert a[i + 1] == q[i] && b[i + 1] == q[i] && Digit(q[i]);
    }
  }

  // Nothing else is an integer.
  lemma {:induction false} IntegerExactly(q: Chars)
    requires q != [] && forall i :: 0 <= i < |q| ==> q[i] != 0
    ensures AtomOf(q).Num? <==> DigitsOf(q) || ((q[0] == 43 || q[0] == 45) && DigitsOf(q[1..]))
  {
    if DigitsOf(q) {
      NumberLaw(q);
    } else if (q[0] == 43 || q[0] == 45) && DigitsOf(q[1..]) {
      NumberLaw(q[1..]);
      assert q == [q[0]] + q[1..];
    } else {
      OnlyIntegers(q);
    }
  }

  lemma {:induction false} OnlyIntegers(q: Chars)
    requires q != [] && forall i :: 0 <= i < |q| ==> q[i] != 0
    ensures KindOf(q) == KInteger ==> DigitsOf(q) || ((q[0] == 43 || q[0] == 45) && DigitsOf(q[1..]))
  {
    NeverInteger(q, 2);
    NeverInteger(q, 3);
    if KindOf(q) == KInteger {
      IntegerDigits(q, if q[0] == 43 || q[0] == 45 then 2 else 1);
    }
  }

  lemma {:induction false} IntegerDigits(q: Chars, i: nat)
    requires i <= |q| && (forall j :: 0 <= j < |q| ==> q[j] != 0) && Digits(q, i, false) == KInteger
    ensures forall j :: i <= j < |q| ==> Digit(q[j])
    decreases |q| - i
  {
    if i < |q| {
      if Digit(q[i]) {
        IntegerDigits(q, i + 1);
      } else {
        NeverInteger(q, i + 1);
        NeverInteger(q, i + 2);
      }
    }
  }

  lemma {:induction false} NeverInteger(q: Chars, i: nat)
    ensures Digits(q, i, true) != KInteger
    decreases |q| - i
  {
    if i < |q| {
      NeverInteger(q, i + 1);
      NeverInteger(q, i + 2);
    }
  }

  // ---------- which words are numbers ----------

  // Two colons next to each other.
  ghost predicate Colons(q: Chars) {
    exists i :: 0 <= i && i + 1 < |q| && q[i] == 58 == q[i + 1]
  }

  // How a real number goes on: with digits, with a point if there has been none and no exponent, with an
  // exponent; point tells whether there has been one of these.
  predicate RealTail(t: Chars, point: bool) {
    if t == [] then point
    else if 48 <= t[0] <= 57 then RealTail(t[1..], point)
    else if t[0] == 46 then !point && RealTail(t[1..], true)
    else
      && (t[0] == 101 || t[0] == 69) && |t| > 1 && (t[1] == 43 || t[1] == 45 || 48 <= t[1] <= 57)
      && RealTail(t[2..], true)
  }

  // A real number without its sign begins with a digit, or with a point and a digit.
  predicate RealBody(u: Chars) {
    && u != []
    && if u[0] == 46 then |u| > 1 && 48 <= u[1] <= 57 && RealTail(u[2..], true)
       else 48 <= u[0] <= 57 && RealTail(u[1..], false)
  }

  predicate RealText(q: Chars) {
    q != [] && RealBody(if q[0] == 43 || q[0] == 45 then q[1..] else q)
  }

  ghost predicate IntegerText(q: Chars) {
    q != [] && (DigitsOf(q) || ((q[0] == 43 || q[0] == 45) && DigitsOf(q[1..])))
  }

  // Every word is one of these, and a symbol if it is none: in lower case.
  lemma {:induction false} WordExactly(q: Chars)
    requires q != [] && forall i :: 0 <= i < |q| ==> q[i] != 0
    ensures Colons(q) ==> AtomOf(q) == Qualified(q)
    ensures IntegerText(q) <==> AtomOf(q).Num?
    ensures !Colons(q) && RealText(q) ==> AtomOf(q) == Real(q)
    ensures !Colons(q) && !RealText(q) && !IntegerText(q) ==>
              AtomOf(q).Sym? && |AtomOf(q).name| == |q|
              && forall i :: 0 <= i < |q| ==> AtomOf(q).name[i] == if 65 <= q[i] <= 90 then q[i] + 32 else q[i]
  {
    IntegerExactly(q);
    ColonsAre(q);
    if !Colons(q) {
      RealExactly(q);
      forall i: nat, point: bool ensures Digits(q, i, point) != KQualified {
        NeverQualified(q, i, point);
      }
    }
  }

  lemma {:induction false} NeverQualified(q: Chars, i: nat, point: bool)
    ensures Digits(q, i, point) != KQualified
    decreases |q| - i
  {
    if i < |q| {
      NeverQualified(q, i + 1, point);
      NeverQualified(q, i + 1, true);
      NeverQualified(q, i + 2, true);
    }
  }

  lemma ColonsAre(q: Chars)
    ensures HasColons(q) <==> Colons(q)
  {
    if i :| 0 <= i && i + 1 < |q| && q[i] == 58 == q[i + 1] {
      assert 0 <= i < |q| - 1;
    }
    if HasColons(q) {
      var i :| 0 <= i < |q| - 1 && q[i] == COLON && q[i + 1] == COLON;
      assert i + 1 < |q|;
    }
  }

  lemma {:induction false} RealExactly(q: Chars)
    requires q != [] && !Colons(q) && forall i :: 0 <= i < |q| ==> q[i] != 0
    ensures KindOf(q) == KReal <==> RealText(q)
  {
    ColonsAre(q);
    var u := if q[0] == 43 || q[0] == 45 then q[1..] else q;
    var k := if q[0] == 43 || q[0] == 45 then 1 else 0;
    assert forall j :: 0 <= j < |u| ==> u[j] == q[k + j];
    if u != [] && u[0] == 46 && |u| > 1 {
      TailIs(q, k + 2, true);
      assert u[2..] == q[k + 2..];
    } else if u != [] {
      TailIs(q, k + 1, false);
      assert u[1..] == q[k + 1..];
    }
  }

  lemma {:induction false} TailIs(q: Chars, i: nat, point: bool)
    requires i <= |q| && forall j :: 0 <= j < |q| ==> q[j] != 0
    ensures Digits(q, i, point) == KReal <==> RealTail(q[i..], point)
    decreases |q| - i
  {
    var t := q[i..];
    if i < |q| {
      assert t[0] == q[i] && t[1..] == q[i + 1..];
      TailIs(q, i + 1, point);
      TailIs(q, i + 1, true);
      if i + 1 < |q| {
        assert t[1] == q[i + 1] && t[2..] == q[i + 2..];
        TailIs(q, i + 2, true);
      }
    }
  }

  // Digits with a point in them, or with an exponent, are a real number.
  lemma {:induction false} RealLaw(a: Chars, b: Chars, e: int, sign: Chars)
    requires DigitsOf(a) && (forall i :: 0 <= i < |b| ==> Digit(b[i]))
    requires (e == 101 || e == 69) && (sign == [] || sign == [43] || sign == [45])
    ensures AtomOf(a + [46] + b) == Real(a + [46] + b)
    ensures b != [] ==> AtomOf(a + [e] + sign + b) == Real(a + [e] + sign + b)
  {
    var q, r := a + [46] + b, a + [e] + sign + b;
    SkipDigits(q, 1, |a|, false);
    SkipDigits(q, |a| + 1, |q|, true);
    assert !HasColons(q);
    if b != [] {
      SkipDigits(r, 1, |a|, false);
      var i := |a| + 2;
      assert r[|a|] == e && r[|a| + 1] == (if sign == [] then b[0] else sign[0]);
      assert forall j :: i <= j < |r| ==> r[j] == b[j - |a| - 1 - |sign|];
      SkipDigits(r, i, |r|, true);
      assert forall j :: 0 <= j < |r| ==> r[j] == if j < |a| then a[j] else if j == |a| then e
                                                  else if j <= |a| + |sign| then sign[0] else b[j - |a| - 1 - |sign|];
      assert !HasColons(r);
    }
  }

  lemma {:induction false} SkipDigits(q: Chars, i: nat, k: nat, point: bool)
    requires i <= k <= |q| && forall j :: i <= j < k ==> Digit(q[j])
    ensures Digits(q, i, point) == Digits(q, k, point)
    decreases k - i
  {
    if i < k {
      SkipDigits(q, i + 1, k, point);
    }
  }

  // A word without "::" that begins with no digit, sign or point is a symbol, in lower case.
  lemma {:induction false} SymbolLaw(q: Chars)
    requires q != [] && q[0] != 0 && !Digit(q[0]) && q[0] != 43 && q[0] != 45 && q[0] != 46
    requires forall i :: 0 <= i < |q| - 1 ==> q[i] != 58 || q[i + 1] != 58
    ensures AtomOf(q).Sym? && |AtomOf(q).name| == |q|
    ensures forall i :: 0 <= i < |q| ==> AtomOf(q).name[i] == if 65 <= q[i] <= 90 then q[i] + 32 else q[i]
  {
  }

  // Reading such a number on a port, before an ending character or the end.
  method ReadNumber(s: Scheme, ghost q: Chars, ghost sign: Chars, ghost rest: Chars) returns (r: Signal)
    requires DigitsOf(q) && (sign == [] || sign == [43] || sign == [45]) && |sign + q| <= 255
    requires rest == [] || Ending(rest[0])
    requires s.input == sign + q + rest && Input(s.input) && s.dump == []
    modifies s
    ensures r == Finished && s.value == Num(if sign == [45] then -PlaceValue(q) else PlaceValue(q))
    ensures s.input == rest && s.nesting == old(s.nesting) && s.dump == []
  {
    hide AtomOf, PlaceValue, DigitsOf, Input, IsDelimiter, Ending;
    NumberWord(q, sign);
    EndsClosed(rest);
    r := s.ReadAtom(sign + q, rest);
  }

  lemma NumberWord(q: Chars, sign: Chars)
    requires DigitsOf(q) && (sign == [] || sign == [43] || sign == [45])
    ensures (var w := sign + q;
             && w != [] && w != [BACKSLASH] && (forall i :: 0 <= i < |w| ==> !IsDelimiter(w[i]))
             && w[0] != QUOTE && w[0] != BACKQUOTE && w[0] != COMMA && w[0] != SHARP && w[0] != DOT
             && AtomOf(w) == Num(if sign == [45] then -PlaceValue(q) else PlaceValue(q)))
  {
    hide AtomOf, PlaceValue;
    var w := sign + q;
    NumberLaw(q);
    assert sign == [] ==> w == q;
    assert w[0] == (if sign == [] then q[0] else sign[0]) && Digit(q[0]);
    forall i | 0 <= i < |w| ensures !IsDelimiter(w[i]) {
      assert w[i] == if i < |sign| then sign[i] else q[i - |sign|];
    }
    assert w[0] != 92;
  }

  lemma EndsClosed(rest: Chars)
    ensures Closed(rest) <==> rest == [] || Ending(rest[0])
  {
  }

  // A quotation character wraps what follows it, as a list of the symbol and the datum.
  lemma WrapLaw(r: Reader, name: Chars, u: Scan)
    requires r.op == RdSexpr && NextToken(r.input) == u
    ensures r.tok == TQuote ==>
              Step(r) == Go(r.(tok := u.tok, input := u.rest,
                               dump := [Saved(RdWrap([113, 117, 111, 116, 101]), Nil)] + r.dump))
    ensures r.tok == TBquote && u.tok != TVec ==>
              Step(r) == Go(r.(tok := u.tok, input := u.rest,
                               dump := [Saved(RdWrap([113, 117, 97, 115, 105, 113, 117, 111, 116, 101]),
                                              Nil)] + r.dump))
    ensures r.tok == TComma ==>
              Step(r) == Go(r.(tok := u.tok, input := u.rest,
                               dump := [Saved(RdWrap([117, 110, 113, 117, 111, 116, 101]), Nil)] + r.dump))
    ensures r.tok == TAtmark ==>
              Step(r) == Go(r.(tok := u.tok, input := u.rest,
                               dump := [Saved(RdWrap([117, 110, 113, 117, 111, 116, 101, 45, 115, 112, 108, 105, 99,
                                                      105,
                                                      110, 103]), Nil)] + r.dump))
    ensures r.dump == [] ==>
              Step(r.(op := RdWrap(name))) == Got(Pair(Sym(name), Pair(r.value, Nil)), r.nesting, r.input)
  {
    QuotationNames();
    hide NextToken, S_QUOTE, S_QUASI, S_UNQUOTE, S_SPLICING;
  }

  // ---------- string literals ----------

  // A hexadecimal digit, in upper or lower case.
  function HexValue(c: int): int {
    if 48 <= c <= 57 then c - 48 else if 65 <= c <= 70 then c - 55 else if 97 <= c <= 102 then c - 87 else -1
  }

  // A plain character stands for itself, a double quote ends the literal.
  lemma {:induction false} PlainLaw(c: int, rest: Chars, buf: Chars)
    requires |buf| <= 255
    ensures c != 34 && c != 92 ==> ReadString([c] + rest, Plain, buf) == ReadString(rest, Plain, buf + [c])
    ensures ReadString([34] + rest, Plain, buf) == Literal(StringCopy(buf), rest)
  {
    assert ([c] + rest)[1..] == rest && ([34] + rest)[1..] == rest;
  }

  // After a backslash n, t and r name characters, and those without a meaning stand for themselves.
  lemma {:induction false} EscapeLaw(c: int, rest: Chars, buf: Chars)
    requires |buf| <= 255 && !(48 <= c <= 55) && c != 120 && c != 88
    ensures ReadString([92, c] + rest, Plain, buf)
            == ReadString(rest, Plain, buf + [if c == 110 then 10 else if c == 116 then 9 else if c == 114 then 13
                                              else c])
  {
    var s := [92, c] + rest;
    assert s[1..][0] == c && s[1..][1..] == rest;
    assert ReadString(s, Plain, buf) == ReadString(s[1..], Bsl, buf);
  }

  // x and two hexadecimal digits, or three octal digits, give the code.
  lemma {:induction false} CodeLaw(h: int, l: int, rest: Chars, buf: Chars)
    requires |buf| <= 255 && HexValue(h) >= 0 && HexValue(l) >= 0
    ensures ReadString([92, 120, h, l] + rest, Plain, buf) == ReadString(rest, Plain,
                                                                         buf + [16 * HexValue(h) + HexValue(l)])
  {
    var s := [92, 120, h, l] + rest;
    var s1, s2, s3 := s[1..], s[2..], s[3..];
    assert s1[1..] == s2 && s2[1..] == s3 && s3[1..] == rest;
    assert ReadString(s, Plain, buf) == ReadString(s1, Bsl, buf) == ReadString(s2, X1, buf);
    HexIs(h);
    HexIs(l);
    assert ReadString(s2, X1, buf) == ReadString(s3, X2(HexValue(h)), buf);
  }

  lemma HexIs(c: int)
    requires HexValue(c) >= 0
    ensures (var u := Upper(c); 48 <= u <= 70 && (if u <= 57 then u - 48 else u - 55) == HexValue(c) < 16)
  {
  }

  lemma {:induction false} OctalLaw(a: int, b: int, c: int, rest: Chars, buf: Chars)
    requires |buf| <= 255 && 48 <= a <= 51 && 48 <= b <= 55 && 48 <= c <= 55
    ensures ReadString([92, a, b, c] + rest, Plain, buf)
            == ReadString(rest, Plain, buf + [64 * (a - 48) + 8 * (b - 48) + (c - 48)])
  {
    var s := [92, a, b, c] + rest;
    var s1, s2, s3 := s[1..], s[2..], s[3..];
    assert s1[1..] == s2 && s2[1..] == s3 && s3[1..] == rest;
    assert ReadString(s, Plain, buf) == ReadString(s1, Bsl, buf) == ReadString(s2, Oct1(a - 48), buf);
    assert ReadString(s2, Oct1(a - 48), buf) == ReadString(s3, Oct2((a - 48) * 8 + (b - 48)), buf);
  }

  // The copy: what comes before the first 0, that 0, and nothing known behind it.
  lemma {:induction false} CopyLaw(s: Chars, i: nat)
    requires i < |s|
    ensures |StringCopy(s)| == |s|
    ensures (forall j :: 0 <= j < i ==> s[j] != 0) ==> StringCopy(s)[i] == s[i]
    ensures (exists j :: 0 <= j < i && s[j] == 0) ==> StringCopy(s)[i] == UNSET
  {
    if i > 0 {
      if s[0] != 0 {
        CopyLaw(s[1..], i - 1);
        assert forall j :: 0 <= j < i - 1 ==> s[1..][j] == s[j + 1];
        if j :| 0 <= j < i && s[j] == 0 {
          assert s[1..][j - 1] == 0;
        }
      }
    }
  }

  // ---------- printing ----------

  function HexChar(d: int): int {
    if d < 10 then 48 + d else 65 + (d - 10)
  }

  // The double quote and the backslash get a backslash, three characters have names, the other control
  // characters and 255 are put out as \x and two hexadecimal digits.
  lemma EscapedLaw(c: int)
    requires 0 <= c < 256
    ensures Escaped(c) == if c == 34 then [92, 34] else if c == 92 then [92, 92] else if c == 10 then [92, 110]
                          else if c == 9 then [92, 116] else if c == 13 then [92, 114]
                          else if c < 32 || c == 255 then [92, 120, HexChar(c / 16), HexChar(c % 16)] else [c]
  {
  }

  // The text of a number: its digits without leading zeros, behind a minus if it is below 0.
  lemma {:induction false} NumberTextLaw(n: int)
    ensures (var q := Text(Num(n));
             if n < 0 then q == [45] + Text(Num(-n))
             else DigitsOf(q) && PlaceValue(q) == n && (q[0] == 48 ==> |q| == 1))
  {
    if n >= 0 {
      NatBack(n);
      DigitsAdd(NatText(n), 0);
      NoZeroFirst(n);
    }
  }

  lemma {:induction false} NoZeroFirst(n: nat)
    ensures NatText(n) != [] && (NatText(n)[0] == 48 ==> n == 0 && |NatText(n)| == 1)
  {
    if n >= 10 {
      NoZeroFirst(n / 10);
    }
  }

  // The texts of atoms, and of lists.
  lemma TextLaw(s: Chars, a: Datum, b: Datum, c: Datum)
    ensures Text(Nil) == [40, 41] && Text(T) == [35, 116] && Text(F) == [35, 102]
    ensures Text(Eof) == [35, 60, 69, 79, 70, 62]
    ensures Text(Sym(s)) == s && Text(Real(s)) == s && Text(Str(s)) == [34] + EscapedAll(s) + [34]
    ensures !Quotation(a) ==> Text(Pair(a, Nil)) == [40] + Text(a) + [41]
    ensures !Quotation(a) && c != Nil ==>
              Text(Pair(a, Pair(b, c))) == [40] + Text(a) + ([32] + Text(b) + TailText(c))
    ensures !c.Pair? && c != Nil && !Quotation(a) ==>
              Text(Pair(a, c)) == [40] + Text(a) + ([32, 46, 32] + Text(c) + [41])
  {
  }

  // The symbols quote, quasiquote, unquote and unquote-splicing.
  predicate Quotation(d: Datum) {
    d.Sym? && (d.name == [113, 117, 111, 116, 101] || d.name == [113, 117, 97, 115, 105, 113, 117, 111, 116, 101]
               || d.name == [117, 110, 113, 117, 111, 116, 101]
               || d.name == [117, 110, 113, 117, 111, 116, 101, 45, 115, 112, 108, 105, 99, 105, 110, 103])
  }

  // A list of one of them and one more element is abbreviated.
  lemma QuotationText(a: Datum)
    ensures Text(Pair(Sym([113, 117, 111, 116, 101]), Pair(a, Nil))) == [39] + Text(a)
    ensures Text(Pair(Sym([113, 117, 97, 115, 105, 113, 117, 111, 116, 101]), Pair(a, Nil))) == [96] + Text(a)
    ensures Text(Pair(Sym([117, 110, 113, 117, 111, 116, 101]), Pair(a, Nil))) == [44] + Text(a)
    ensures Text(Pair(Sym([117, 110, 113, 117, 111, 116, 101, 45, 115, 112, 108, 105, 99, 105, 110, 103]),
                      Pair(a, Nil)))
            == [44, 64] + Text(a)
  {
    QuotationNames();
    assert |S_QUOTE| != |S_QUASI| && |S_QUOTE| != |S_UNQUOTE| && |S_QUOTE| != |S_SPLICING|;
    assert |S_QUASI| != |S_UNQUOTE| && |S_QUASI| != |S_SPLICING| && |S_UNQUOTE| != |S_SPLICING|;
  }

  lemma QuotationNames()
    ensures S_QUOTE == [113, 117, 111, 116, 101]
    ensures S_QUASI == [113, 117, 97, 115, 105, 113, 117, 111, 116, 101]
    ensures S_UNQUOTE == [117, 110, 113, 117, 111, 116, 101]
    ensures S_SPLICING == [117, 110, 113, 117, 111, 116, 101, 45, 115, 112, 108, 105, 99, 105, 110, 103]
  {
  }
}
