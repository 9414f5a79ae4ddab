/** The characters of Scheme programs: tokens, atoms and string literals, as the scanner takes them
    from the characters still to be read. */
module SchemeText {
  import opened Decimals

  // Characters are bytes; the end of the input is the end of the sequence.  The bytes 0 and
  // 255 end it too, so that there are none in it.
  type Chars = seq<int>

  const TAB := 9
  const NEWLINE := 10
  const RETURN := 13
  const SPACE := 32
  const DQUOTE := 34
  const SHARP := 35
  const QUOTE := 39
  const LPAREN := 40
  const RPAREN := 41
  const PLUS := 43
  const COMMA := 44
  const MINUS := 45
  const DOT := 46
  const COLON := 58
  const SEMICOLON := 59
  const AT := 64
  const BACKSLASH := 92
  const BACKQUOTE := 96

  predicate IsSpace(c: int) {
    c == SPACE || 9 <= c <= 13
  }

  // The characters that end an atom.
  predicate IsDelimiter(c: int) {
    c == LPAREN || c == RPAREN || c == DQUOTE || c == SEMICOLON || IsSpace(c)
  }

  predicate IsUpper(c: int) {
    65 <= c <= 90
  }

  function Lower(c: int): int {
    if IsUpper(c) then c + 32 else c
  }

  function Upper(c: int): int {
    if 97 <= c <= 122 then c - 32 else c
  }

  // A character of a C string, 0 behind its end.
  function At(q: Chars, i: nat): int {
    if i < |q| then q[i] else 0
  }

  function SkipSpace(s: Chars): (r: Chars)
    ensures |r| <= |s| && (r != [] ==> !IsSpace(r[0]))
  {
    if s != [] && IsSpace(s[0]) then SkipSpace(s[1..]) else s
  }

  // Behind the next newline.
  function SkipLine(s: Chars): (r: Chars)
    ensures |r| <= |s|
  {
    if s == [] then [] else if s[0] == NEWLINE then s[1..] else SkipLine(s[1..])
  }

  // ---------- tokens ----------

  datatype Token = TEof | TLparen | TRparen | TDot | TAtom | TQuote | TDquote | TBquote
                 | TComma | TAtmark | TSharp | TSharpConst | TVec

  datatype Scan = Scan(tok: Token, rest: Chars)

  predicate SharpConst(c: int) {
    c == SPACE || c == 116 || c == 102 || c == 111 || c == 100 || c == 120 || c == 98 || c == BACKSLASH
  }

  function NextToken(s: Chars): (r: Scan)
    decreases |s|
  {
    var t := SkipSpace(s);
    if t == [] then Scan(TEof, [])
    else
      var c, u := t[0], t[1..];
      if c == LPAREN then Scan(TLparen, u)
      else if c == RPAREN then Scan(TRparen, u)
      else if c == DOT then
        if u == [] || u[0] == SPACE || u[0] == NEWLINE || u[0] == TAB then Scan(TDot, if u == [] then [] else u[1..])
        else Scan(TAtom, t)
      else if c == QUOTE then Scan(TQuote, u)
      else if c == SEMICOLON then NextToken(SkipLine(u))
      else if c == DQUOTE then Scan(TDquote, u)
      else if c == BACKQUOTE then Scan(TBquote, u)
      else if c == COMMA then (if u != [] && u[0] == AT then Scan(TAtmark, u[1..]) else Scan(TComma, u))
      else if c == SHARP then
        if u != [] && u[0] == LPAREN then Scan(TVec, u[1..])
        else if u != [] && u[0] == 33 then NextToken(SkipLine(u[1..]))
        else if u == [] || SharpConst(u[0]) then Scan(TSharpConst, u)
        else Scan(TSharp, u)
      else Scan(TAtom, t)
  }

  // ---------- atoms ----------

  datatype Word = Word(text: Chars, rest: Chars)

  // How many characters come before the next delimiter or the end.
  function UntilDelimiter(s: Chars): (n: nat)
    ensures n <= |s| && (n < |s| ==> IsDelimiter(s[n])) && forall i :: 0 <= i < n ==> !IsDelimiter(s[i])
  {
    if s == [] || IsDelimiter(s[0]) then 0 else 1 + UntilDelimiter(s[1..])
  }

  // readstr_upto, with a buffer of 256 characters; a delimiter after a single backslash belongs to the
  // word, also the end of the input, which is then stored as a character.
  function ReadUpto(s: Chars): Word {
    var n := UntilDelimiter(s);
    if n >= 256 then Word(s[..255], s[255..])
    else if n == 1 && s[0] == BACKSLASH then
      if |s| == 1 then Word([BACKSLASH, 255], []) else Word(s[..2], s[2..])
    else Word(s[..n], s[n..])
  }

  // What an atom is read as: a symbol, an integer, a real, or a name qualified with "::".
  datatype Kind = KSymbol | KInteger | KReal | KQualified

  predicate HasColons(q: Chars) {
    exists i :: 0 <= i < |q| - 1 && q[i] == COLON && q[i + 1] == COLON
  }

  // The loop over the digits of a number.
  function Digits(q: Chars, i: nat, point: bool): Kind
    decreases |q| - i
  {
    var c := At(q, i);
    if c == 0 then (if point then KReal else KInteger)
    else if IsDigit(c) then Digits(q, i + 1, point)
    else if c == DOT then (if point then KSymbol else Digits(q, i + 1, true))
    else if c == 101 || c == 69 then
      var d := At(q, i + 1);
      if d == MINUS || d == PLUS || IsDigit(d) then Digits(q, i + 2, true) else KSymbol
    else KSymbol
  }

  function KindOf(q: Chars): Kind {
    if HasColons(q) then KQualified
    else
      var c := At(q, 0);
      if c == PLUS || c == MINUS then
        if At(q, 1) == DOT then (if IsDigit(At(q, 2)) then Digits(q, 3, true) else KSymbol)
        else if IsDigit(At(q, 1)) then Digits(q, 2, false) else KSymbol
      else if c == DOT then (if IsDigit(At(q, 1)) then Digits(q, 2, true) else KSymbol)
      else if IsDigit(c) then Digits(q, 1, false)
      else KSymbol
  }

  // atol behind a sign
  function NumberOf(q: Chars): int {
    if At(q, 0) == MINUS then 0 - DigitValue(q[1..], 0) as int else if At(q, 0) == PLUS then DigitValue(q[1..], 0)
       else DigitValue(q, 0)
  }

  function LowerAll(q: Chars): (r: Chars)
    ensures |r| == |q| && forall i :: 0 <= i < |q| ==> r[i] == Lower(q[i])
  {
    seq(|q|, i requires 0 <= i < |q| => Lower(q[i]))
  }

  // ---------- string literals ----------

  datatype Escape = Plain | Bsl | X1 | X2(c: int) | Oct1(c: int) | Oct2(c: int)
  datatype Literal = Literal(text: Chars, rest: Chars) | BadLiteral

  // A byte of a new block of memory that nothing has been written to.
  const UNSET := 256

  // store_string on counted text: what "%s" copies ends with the first 0.
  function StringCopy(s: Chars): (r: Chars)
    ensures |r| == |s|
  {
    if s == [] then [] else if s[0] == 0 then [0] + Unset(|s| - 1) else [s[0]] + StringCopy(s[1..])
  }

  function Unset(n: nat): (r: Chars)
    ensures |r| == n && forall i :: 0 <= i < n ==> r[i] == UNSET
  {
    seq(n, i => UNSET)
  }

  // readstrexp: the characters up to the closing quote; buf holds what has been read.
  function ReadString(s: Chars, st: Escape, buf: Chars): Literal
    decreases |s|, if st.Oct1? || st.Oct2? then 1 else 0
  {
    if s == [] || |buf| > 255 then BadLiteral
    else
      var c, rest := s[0], s[1..];
      match st
      case Plain =>
        if c == BACKSLASH then ReadString(rest, Bsl, buf)
        else if c == DQUOTE then Literal(StringCopy(buf), rest)
        else ReadString(rest, Plain, buf + [c])
      case Bsl =>
        if 48 <= c <= 55 then ReadString(rest, Oct1(c - 48), buf)
        else if c == 120 || c == 88 then ReadString(rest, X1, buf)
        else if c == 110 then ReadString(rest, Plain, buf + [NEWLINE])
        else if c == 116 then ReadString(rest, Plain, buf + [TAB])
        else if c == 114 then ReadString(rest, Plain, buf + [RETURN])
        else ReadString(rest, Plain, buf + [c])
      case X1 =>
        var u := Upper(c);
        if 48 <= u <= 70 then ReadString(rest, X2(if u <= 57 then u - 48 else u - 55), buf) else BadLiteral
      case X2(c1) =>
        var u := Upper(c);
        if 48 <= u <= 70 then ReadString(rest, Plain, buf + [(c1 * 16 + (if u <= 57 then u - 48 else u - 55)) % 256])
           else BadLiteral
      case Oct1(c1) =>
        if 48 <= c <= 55 then ReadString(rest, Oct2(c1 * 8 + (c - 48)), buf) else ReadString(s, Plain, buf + [c1])
      case Oct2(c1) =>
        if c < 48 || c > 55 then ReadString(s, Plain, buf + [c1])
        else if c1 >= 32 then BadLiteral
        else ReadString(rest, Plain, buf + [c1 * 8 + (c - 48)])
  }

  // ---------- printing ----------

  function HexDigit(d: int): int {
    if d < 10 then d + 48 else d + 55
  }

  // printslashstring for one character.
  function Escaped(c: int): Chars {
    if c == 255 || c == DQUOTE || c < SPACE || c == BACKSLASH then
      if c == DQUOTE || c == BACKSLASH then [BACKSLASH, c]
      else if c == NEWLINE then [BACKSLASH, 110]
      else if c == TAB then [BACKSLASH, 116]
      else if c == RETURN then [BACKSLASH, 114]
      else [BACKSLASH, 120, HexDigit(c / 16), HexDigit(c % 16)]
    else [c]
  }

  function EscapedAll(s: Chars): Chars {
    if s == [] then [] else Escaped(s[0]) + EscapedAll(s[1..])
  }

  // %ld
  function NumberText(n: int): Chars {
    if n < 0 then [MINUS] + NatText(-n) else NatText(n)
  }

  // ---------- what is printed is read back ----------

  predicate Bytes(s: Chars) {
    forall i :: 0 <= i < |s| ==> 0 <= s[i] < 256
  }

  // What a port can hold: 0 ends it, and so does 255, which as a signed character is EOF.
  predicate Input(s: Chars) {
    forall i :: 0 <= i < |s| ==> 0 < s[i] < 255
  }

  // A C string, or one with a 0 as its last byte.
  predicate Whole(s: Chars) {
    forall i :: 0 <= i < |s| - 1 ==> s[i] != 0
  }

  // Exactly such strings are copied whole.
  lemma {:induction false} CopiedWhole(s: Chars)
    requires Bytes(s)
    ensures StringCopy(s) == s <==> Whole(s)
  {
    if s != [] {
      CopiedWhole(s[1..]);
      var r := StringCopy(s);
      if s[0] == 0 {
        assert |s| > 1 ==> r[1] == UNSET;
      } else {
        assert r[1..] == StringCopy(s[1..]);
        assert Whole(s) <==> Whole(s[1..]) by {
          if Whole(s[1..]) {
            forall i | 0 < i < |s| - 1 ensures s[i] != 0 {
              assert s[1..][i - 1] == s[i];
            }
          }
        }
      }
    }
  }

  // One printed character of a string is read back.
  lemma {:induction false} EscapedBack(c: int, rest: Chars, buf: Chars)
    requires 0 <= c < 256 && |buf| <= 255
    ensures ReadString(Escaped(c) + rest, Plain, buf) == ReadString(rest, Plain, buf + [c])
  {
    var e := Escaped(c);
    var s := e + rest;
    assert s[0] == e[0] && s[1..] == e[1..] + rest;
    if |e| == 1 {
      assert e[1..] + rest == rest;
    } else {
      assert s[1..][0] == e[1] && s[1..][1..] == e[2..] + rest;
      if |e| == 2 {
        assert e[2..] + rest == rest;
      } else {
        HexBack(c, e, s, rest, buf);
      }
    }
  }

  lemma {:induction false} HexBack(c: int, e: Chars, s: Chars, rest: Chars, buf: Chars)
    requires 0 <= c < 256 && |buf| <= 255 && e == [BACKSLASH, 120, HexDigit(c / 16), HexDigit(c % 16)] && s == e + rest
    ensures ReadString(s, Plain, buf) == ReadString(rest, Plain, buf + [c])
  {
    var s1, s2, s3 := s[1..], s[2..], s[3..];
    assert s1[1..] == s2 && s2[1..] == s3 && s3[1..] == rest;
    assert ReadString(s, Plain, buf) == ReadString(s1, Bsl, buf) == ReadString(s2, X1, buf);
    HexDigits(c / 16);
    HexDigits(c % 16);
    assert ReadString(s2, X1, buf) == ReadString(s3, X2(c / 16), buf);
    assert (c / 16 * 16 + c % 16) % 256 == c;
  }

  lemma HexDigits(d: int)
    requires 0 <= d < 16
    ensures (var u := Upper(HexDigit(d)); 48 <= u <= 70 && (if u <= 57 then u - 48 else u - 55) == d)
  {
  }

  lemma {:induction false} StringBack(s: Chars, rest: Chars, buf: Chars)
    requires Bytes(s) && |buf| + |s| <= 255
    ensures ReadString(EscapedAll(s) + [DQUOTE] + rest, Plain, buf) == Literal(StringCopy(buf + s), rest)
    decreases |s|
  {
    if s == [] {
      assert ([] + [DQUOTE] + rest)[1..] == rest;
      assert buf + [] == buf;
    } else {
      assert EscapedAll(s) + [DQUOTE] + rest == Escaped(s[0]) + (EscapedAll(s[1..]) + [DQUOTE] + rest);
      EscapedBack(s[0], EscapedAll(s[1..]) + [DQUOTE] + rest, buf);
      StringBack(s[1..], rest, buf + [s[0]]);
      assert buf + [s[0]] + s[1..] == buf + s;
    }
  }

  lemma {:induction false} DigitsOnly(q: Chars, i: nat)
    requires i <= |q| && forall j :: i <= j < |q| ==> IsDigit(q[j])
    ensures Digits(q, i, false) == KInteger
    decreases |q| - i
  {
    if i < |q| {
      DigitsOnly(q, i + 1);
    }
  }

  // The text of a number is an atom that stands for it.
  lemma {:induction false} NumberBack(n: int)
    ensures (var q := NumberText(n);
             && q != [] && KindOf(q) == KInteger && NumberOf(q) == n
             && (forall i :: 0 <= i < |q| ==> IsDigit(q[i]) || (i == 0 && q[i] == MINUS)))
  {
    var q := NumberText(n);
    NatBack(if n < 0 then -n else n);
    if n < 0 {
      assert q[1..] == NatText(-n);
      DigitsOnly(q, 2);
    } else {
      DigitsOnly(q, 1);
    }
  }

  // A word without delimiters in front of one is read whole.
  lemma {:induction false} WordBack(q: Chars, rest: Chars)
    requires 0 < |q| <= 255 && q != [BACKSLASH] && (forall i :: 0 <= i < |q| ==> !IsDelimiter(q[i]))
    requires rest == [] || IsDelimiter(rest[0])
    ensures ReadUpto(q + rest) == Word(q, rest)
  {
    var s := q + rest;
    UntilIs(q, rest);
    assert s[..|q|] == q && s[|q|..] == rest;
    assert s[0] == q[0];
    assert |q| == 1 ==> q == [q[0]];
  }

  lemma {:induction false} UntilIs(q: Chars, rest: Chars)
    requires (forall i :: 0 <= i < |q| ==> !IsDelimiter(q[i])) && (rest == [] || IsDelimiter(rest[0]))
    ensures UntilDelimiter(q + rest) == |q|
  {
    if q == [] {
      assert q + rest == rest;
    } else {
      assert (q + rest)[1..] == q[1..] + rest;
      UntilIs(q[1..], rest);
    }
  }
}
