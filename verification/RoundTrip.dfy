/** Reading what has been printed gives the same datum, with two exceptions. */
module RoundTrip {
  import opened SchemeText
  import opened Reading

  // A symbol that reads back as itself: lower case, no delimiter, no other token at its beginning, not
  // a number, and short enough for the buffer.
  predicate PlainSymbol(q: Chars) {
    && 0 < |q| <= 255 && q != [BACKSLASH] && q != [DOT] && KindOf(q) == KSymbol
    && (forall i :: 0 <= i < |q| ==> 0 < q[i] < 255 && !IsDelimiter(q[i]) && !IsUpper(q[i]))
    && q[0] != QUOTE && q[0] != COMMA && q[0] != SHARP && q[0] != BACKQUOTE
  }

  predicate GoodAtom(d: Datum) {
    match d
    case Nil => true
    case T => true
    case F => true
    case Num(n) => |NumberText(n)| <= 255
    case Str(s) => |s| <= 255 && Bytes(s)
    case Sym(q) => PlainSymbol(q)
    case _ => false
  }

  // (unquote @name), which prints as ,@name.
  predicate Trap(d: Datum) {
    Abbreviated(d) && MarkOf(d.car) == COMMA && d.cdr.car.Sym? && d.cdr.car.name != [] && d.cdr.car.name[0] == AT
  }

  // Nested lists, proper or not, of such atoms; behind the @ of a trap there is a symbol again.
  predicate Good(d: Datum) {
    if !d.Pair? then GoodAtom(d)
    else if Trap(d) then PlainSymbol(d.cdr.car.name) && PlainSymbol(d.cdr.car.name[1..])
    else if Abbreviated(d) then Good(d.cdr.car)
    else Good(d.car) && GoodTail(d.cdr)
  }

  predicate GoodTail(d: Datum) {
    if d.Pair? then Good(d.car) && GoodTail(d.cdr) else GoodAtom(d)
  }

  // A string is read back as its copy.
  function AtomAs(d: Datum): Datum {
    if d.Str? then Str(StringCopy(d.s)) else d
  }

  // What a datum is read back as.
  function ReadAs(d: Datum): Datum {
    if !d.Pair? then AtomAs(d)
    else if Trap(d) then Pair(Sym(S_SPLICING), Pair(Sym(d.cdr.car.name[1..]), Nil))
    else if Abbreviated(d) then Pair(d.car, Pair(ReadAs(d.cdr.car), Nil))
    else Pair(ReadAs(d.car), TailAs(d.cdr))
  }

  function TailAs(d: Datum): Datum {
    if d.Pair? then Pair(ReadAs(d.car), TailAs(d.cdr)) else AtomAs(d)
  }

  predicate SafeAtom(d: Datum) {
    d.Str? ==> Whole(d.s)
  }

  // No trap anywhere in what is printed as a datum of its own, and no string with a 0 before its end.
  predicate Safe(d: Datum) {
    if !d.Pair? then SafeAtom(d)
    else !Trap(d) && (if Abbreviated(d) then Safe(d.cdr.car) else Safe(d.car) && SafeTail(d.cdr))
  }

  predicate SafeTail(d: Datum) {
    if d.Pair? then Safe(d.car) && SafeTail(d.cdr) else SafeAtom(d)
  }

  lemma {:induction false} SameAtom(d: Datum)
    requires !d.Pair? && GoodAtom(d)
    ensures AtomAs(d) == d <==> SafeAtom(d)
  {
    if d.Str? {
      CopiedWhole(d.s);
    }
  }

  // The string "\x00A" comes back with a byte that was never written.
  lemma {:induction false} NulLosesRest()
    ensures GoodAtom(Str([0, 65])) && ReadAs(Str([0, 65])) == Str([0, UNSET]) != Str([0, 65])
  {
    assert StringCopy([0, 65]) == [0] + Unset(1) == [0, UNSET];
  }

  // Exactly the data without these are read back as they were.
  lemma {:induction false} SameExactly(d: Datum)
    requires Good(d)
    ensures ReadAs(d) == d <==> Safe(d)
    decreases d, 0
  {
    hide StringCopy, Whole, PlainSymbol, Bytes;
    if !d.Pair? {
      SameAtom(d);
    } else {
      if Trap(d) {
        assert |S_SPLICING| != |S_UNQUOTE|;
      } else if Abbreviated(d) {
        SameExactly(d.cdr.car);
      } else {
        SameExactly(d.car);
        SameTail(d.cdr);
      }
    }
  }

  lemma {:induction false} SameTail(d: Datum)
    requires GoodTail(d)
    ensures TailAs(d) == d <==> SafeTail(d)
    decreases d, 1
  {
    hide StringCopy, Whole, PlainSymbol, Bytes;
    if d.Pair? {
      SameExactly(d.car);
      SameTail(d.cdr);
    } else {
      SameAtom(d);
    }
  }

  // ---------- texts and what follows them ----------

  // Whether a delimiter must follow the text.
  predicate Open(d: Datum) {
    if d.Pair? then (if Abbreviated(d) then Open(d.cdr.car) else false)
    else !d.Nil? && !d.Str?
  }

  predicate Closed(rest: Chars) {
    rest == [] || IsDelimiter(rest[0])
  }

  // A proper list takes the newline behind it along.
  function Behind(d: Datum, rest: Chars): Chars {
    if !d.Pair? || Trap(d) then rest
    else if Abbreviated(d) then Behind(d.cdr.car, rest)
    else BehindTail(d.cdr, rest)
  }

  function BehindTail(d: Datum, rest: Chars): Chars {
    if d.Pair? then BehindTail(d.cdr, rest) else if d.Nil? then SkipNewline(rest) else rest
  }

  lemma {:induction false} BehindSame(d: Datum, rest: Chars)
    requires rest != [] && rest[0] != NEWLINE
    ensures Behind(d, rest) == rest
  {
    if d.Pair? && !Trap(d) {
      if Abbreviated(d) {
        BehindSame(d.cdr.car, rest);
      } else {
        BehindTailSame(d.cdr, rest);
      }
    }
  }

  lemma {:induction false} BehindTailSame(d: Datum, rest: Chars)
    requires rest != [] && rest[0] != NEWLINE
    ensures BehindTail(d, rest) == rest
  {
    if d.Pair? {
      BehindTailSame(d.cdr, rest);
    }
  }

  lemma TailClosed(d: Datum, rest: Chars)
    ensures (var s := TailText(d) + rest; s != [] && IsDelimiter(s[0]) && s[0] != NEWLINE)
  {
    var s := TailText(d) + rest;
    assert s[0] == TailText(d)[0];
  }

  // ---------- tokens of texts ----------

  // Text(d) + rest begins with a token that begins a datum.
  predicate Begins(t: Token) {
    t.TLparen? || t.TAtom? || t.TQuote? || t.TDquote? || t.TBquote? || t.TComma? || t.TAtmark? || t.TSharpConst?
  }

  // No space and no comment at the beginning.
  lemma {:induction false} NoSkip(s: Chars)
    requires s != [] && !IsSpace(s[0])
    ensures SkipSpace(s) == s
  {
  }

  lemma {:induction false} SymbolToken(q: Chars, rest: Chars)
    requires PlainSymbol(q) && Closed(rest)
    ensures NextToken(q + rest) == Scan(TAtom, q + rest)
  {
    var s := q + rest;
    assert s[0] == q[0];
    NoSkip(s);
    if q[0] == DOT {
      assert |q| > 1 by {
        assert |q| == 1 ==> q == [DOT];
      }
      assert s[1..][0] == q[1];
    }
  }

  lemma {:induction false} NumberToken(n: int, rest: Chars)
    ensures NextToken(NumberText(n) + rest) == Scan(TAtom, NumberText(n) + rest)
  {
    NumberBack(n);
    var s := NumberText(n) + rest;
    assert s[0] == NumberText(n)[0];
    NoSkip(s);
  }

  lemma {:induction false} AtomToken(d: Datum, rest: Chars)
    requires !d.Pair? && GoodAtom(d) && (Open(d) ==> Closed(rest))
    ensures Begins(NextToken(AtomText(d) + rest).tok)
    ensures NextToken(AtomText(d) + rest)
            == match d
               case Nil => Scan(TLparen, [RPAREN] + rest)
               case T => Scan(TSharpConst, [116] + rest)
               case F => Scan(TSharpConst, [102] + rest)
               case Str(s) => Scan(TDquote, EscapedAll(s) + [DQUOTE] + rest)
               case _ => Scan(TAtom, AtomText(d) + rest)
  {
    var s := AtomText(d) + rest;
    match d
    case Nil =>
      assert s == [LPAREN] + ([RPAREN] + rest);
      NoSkip(s);
    case T =>
      assert s == [SHARP] + ([116] + rest);
      NoSkip(s);
    case F =>
      assert s == [SHARP] + ([102] + rest);
      NoSkip(s);
    case Str(q) =>
      assert s == [DQUOTE] + (EscapedAll(q) + [DQUOTE] + rest);
      NoSkip(s);
    case Num(n) => NumberToken(n, rest);
    case Sym(q) => SymbolToken(q, rest);
  }

  // The token that an abbreviation begins with.
  function MarkToken(c: int): Token {
    if c == QUOTE then TQuote else if c == BACKQUOTE then TBquote else if c == COMMA then TComma else TAtmark
  }

  lemma {:induction false} OpenToken(u: Chars)
    ensures NextToken([LPAREN] + u) == Scan(TLparen, u)
    ensures NextToken([QUOTE] + u) == Scan(TQuote, u)
    ensures NextToken([BACKQUOTE] + u) == Scan(TBquote, u)
  {
    NoSkip([LPAREN] + u);
    NoSkip([QUOTE] + u);
    NoSkip([BACKQUOTE] + u);
  }

  lemma {:induction false} CommaToken(u: Chars)
    ensures u == [] || u[0] != AT ==> NextToken([COMMA] + u) == Scan(TComma, u)
    ensures NextToken([COMMA, AT] + u) == Scan(TAtmark, u)
  {
    NoSkip([COMMA] + u);
    var s := [COMMA, AT] + u;
    assert s[1..] == [AT] + u;
    assert s[1..][1..] == u;
    NoSkip(s);
  }

  // The token of a datum that is not an atom, and what comes after it.
  lemma {:induction false} ListToken(d: Datum, rest: Chars)
    requires d.Pair? && !Trap(d) && Good(d)
    ensures Abbreviated(d) ==> NextToken(Text(d) + rest) == Scan(MarkToken(MarkOf(d.car)), Text(d.cdr.car) + rest)
    ensures !Abbreviated(d) ==> NextToken(Text(d) + rest) == Scan(TLparen, Text(d.car) + TailText(d.cdr) + rest)
  {
    hide NextToken, KindOf, GoodAtom;
    if !Abbreviated(d) {
      var u := Text(d.car) + TailText(d.cdr) + rest;
      OpenToken(u);
      assert Text(d) + rest == [LPAREN] + u;
    } else {
      var u := Text(d.cdr.car) + rest;
      assert Text(d) + rest == Prefix(d.car) + u;
      OpenToken(u);
      CommaToken(u);
      if MarkOf(d.car) == COMMA {
        NotAt(d.cdr.car, rest);
      }
    }
  }

  // The text of a datum begins with @ only if it is a symbol that does.
  lemma {:induction false} NotAt(d: Datum, rest: Chars)
    requires Good(d) && !(d.Sym? && d.name != [] && d.name[0] == AT)
    ensures Text(d) != [] && (Text(d) + rest)[0] == Text(d)[0] && Text(d)[0] != AT
  {
    if !d.Pair? && d.Num? {
      NumberBack(d.n);
    }
  }

  // Every text begins with a token that begins a datum.
  lemma {:induction false} AnyToken(d: Datum, rest: Chars)
    requires Good(d) && (Open(d) ==> Closed(rest))
    ensures Begins(NextToken(Text(d) + rest).tok)
  {
    hide NextToken, KindOf;
    if !d.Pair? {
      AtomToken(d, rest);
    } else if Trap(d) {
      TrapToken(d, rest);
    } else {
      ListToken(d, rest);
    }
  }

  lemma {:induction false} TrapToken(d: Datum, rest: Chars)
    requires Trap(d)
    ensures NextToken(Text(d) + rest) == Scan(TAtmark, d.cdr.car.name[1..] + rest)
  {
    var q := d.cdr.car.name;
    CommaToken(q[1..] + rest);
    assert Text(d) + rest == [COMMA, AT] + (q[1..] + rest);
  }

  // ---------- reading back ----------

  // The reader about to read the text of d, whose first token it has.
  predicate Ready(r: Reader, d: Datum, rest: Chars) {
    r.op == RdSexpr && Scan(r.tok, r.input) == NextToken(Text(d) + rest)
  }

  // The reader when it has read d: the stack and the count of parentheses are as before.
  function After(r: Reader, d: Datum, rest: Chars): Status {
    Return(r.(input := Behind(d, rest)), ReadAs(d))
  }

  lemma {:induction false} SymbolBack(q: Chars, rest: Chars)
    requires PlainSymbol(q) && Closed(rest)
    ensures ReadUpto(q + rest) == Word(q, rest) && AtomOf(q) == Sym(q)
  {
    WordBack(q, rest);
    assert LowerAll(q) == q;
  }

  lemma {:induction false} AtomBack(d: Datum, r: Reader, rest: Chars) returns (t: Token)
    requires !d.Pair? && GoodAtom(d) && (Open(d) ==> Closed(rest)) && Ready(r, d, rest)
    ensures Step(r) == Return(r.(input := rest, tok := t), AtomAs(d))
  {
    t := if d.Nil? then TRparen else r.tok;
    hide NextToken, KindOf, ReadUpto, ReadString, StringCopy;
    AtomToken(d, rest);
    match d
    case Nil => CloseToken(rest);
    case T => WordBack([116], rest);
    case F => WordBack([102], rest);
    case Num(n) =>
      NumberBack(n);
      WordBack(NumberText(n), rest);
    case Str(s) => StringBack(s, rest, []);
      assert [] + s == s;
    case Sym(q) => SymbolBack(q, rest);
  }

  lemma {:induction false} CloseToken(rest: Chars)
    ensures NextToken([RPAREN] + rest) == Scan(TRparen, rest)
  {
    NoSkip([RPAREN] + rest);
  }

  // Reading the text of a datum that is followed by rest; t is the token that was looked at last.
  lemma {:induction false} ReadsBack(d: Datum, r: Reader, rest: Chars) returns (t: Token)
    requires Good(d) && (Open(d) ==> Closed(rest)) && Ready(r, d, rest)
    ensures Reaches(Go(r), After(r.(tok := t), d, rest))
    decreases d, 1
  {
    t := r.tok;
    if !d.Pair? {
      t := AtomBack(d, r, rest);
      OneStep(r);
    } else if Trap(d) {
      assert Open(d.cdr.car);
      t := TrapBack(d, r, rest);
    } else if Abbreviated(d) {
      t := QuotedBack(d, r, rest);
    } else {
      t := ListBack(d, r, rest);
    }
  }

  lemma {:induction false} TrapBack(d: Datum, r: Reader, rest: Chars) returns (t: Token)
    requires Trap(d) && Good(d) && Closed(rest) && Ready(r, d, rest)
    ensures Reaches(Go(r), After(r.(tok := t), d, rest))
  {
    hide NextToken, KindOf, Reaches, ReadUpto;
    TrapToken(d, rest);
    var q := d.cdr.car.name[1..];
    SymbolToken(q, rest);
    SymbolBack(q, rest);
    OneStep(r);
    var u := Step(r).r;
    t := u.tok;
    ThenStep(Go(r), u);
    var v := Step(u).r;
    assert u.dump[1..] == r.dump;
    ThenStep(Go(r), v);
  }

  lemma {:induction false} QuotedBack(d: Datum, r: Reader, rest: Chars) returns (t: Token)
    requires d.Pair? && Abbreviated(d) && !Trap(d) && Good(d) && (Open(d) ==> Closed(rest)) && Ready(r, d, rest)
    ensures Reaches(Go(r), After(r.(tok := t), d, rest))
    decreases d, 0
  {
    hide NextToken, KindOf, Reaches;
    var x := d.cdr.car;
    ListToken(d, rest);
    AnyToken(x, rest);
    OneStep(r);
    var u := Step(r).r;
    t := ReadsBack(x, u, rest);
    var w := After(u.(tok := t), x, rest);
    ReachesThen(Go(r), Go(u), w);
    assert u.dump[1..] == r.dump;
    ThenStep(Go(r), w.r);
  }

  lemma {:induction false} ListBack(d: Datum, r: Reader, rest: Chars) returns (t: Token)
    requires d.Pair? && !Abbreviated(d) && Good(d) && Ready(r, d, rest)
    ensures Reaches(Go(r), After(r.(tok := t), d, rest))
    decreases d, 0
  {
    hide NextToken, KindOf, Reaches;
    ListToken(d, rest);
    var more := TailText(d.cdr) + rest;
    assert Text(d.car) + TailText(d.cdr) + rest == Text(d.car) + more;
    TailClosed(d.cdr, rest);
    AnyToken(d.car, more);
    BehindSame(d.car, more);
    OneStep(r);
    var u := Step(r).r;
    t := ReadsBack(d.car, u, more);
    var w := After(u.(tok := t), d.car, more);
    ReachesThen(Go(r), Go(u), w);
    assert u.dump[1..] == r.dump;
    t := TailBack(d.cdr, w.r, rest);
    ReachesThen(Go(r), w, AfterTail(w.r.(tok := t), d.cdr, rest));
  }

  // The reader when it has read the rest d of a list, of which it has args and value, last first.
  function AfterTail(r: Reader, d: Datum, rest: Chars): Status {
    Return(r.(input := BehindTail(d, rest), nesting := r.nesting - 1), RevOnto(r.args, Pair(r.value, TailAs(d))))
  }

  // The tokens within a list.
  lemma {:induction false} TailToken(d: Datum, rest: Chars)
    requires GoodTail(d)
    ensures d.Nil? ==> NextToken(TailText(d) + rest) == Scan(TRparen, rest)
    ensures d.Pair? ==> NextToken(TailText(d) + rest) == NextToken(Text(d.car) + (TailText(d.cdr) + rest))
    ensures !d.Nil? && !d.Pair? ==> NextToken(TailText(d) + rest) == Scan(TDot, AtomText(d) + ([RPAREN] + rest))
  {
    hide NextToken, KindOf, Text, AtomText, Good, GoodAtom;
    if d.Nil? {
      CloseToken(rest);
    } else if d.Pair? {
      RegroupItem(Text(d.car), TailText(d.cdr), rest);
      SpaceSkipped(Text(d.car) + (TailText(d.cdr) + rest));
    } else {
      RegroupDotted(AtomText(d), rest);
      DotToken(AtomText(d) + ([RPAREN] + rest));
    }
  }

  lemma {:induction false} RegroupItem(a: Chars, b: Chars, rest: Chars)
    ensures ([SPACE] + a + b) + rest == [SPACE] + (a + (b + rest))
  {
    assert (a + b) + rest == a + (b + rest);
    assert [SPACE] + a + b == [SPACE] + (a + b);
  }

  lemma {:induction false} RegroupDotted(a: Chars, rest: Chars)
    ensures ([SPACE, DOT, SPACE] + a + [RPAREN]) + rest == [SPACE] + ([DOT, SPACE] + (a + ([RPAREN] + rest)))
  {
    assert (a + [RPAREN]) + rest == a + ([RPAREN] + rest);
    assert [SPACE, DOT, SPACE] == [SPACE] + [DOT, SPACE];
  }

  lemma {:induction false} DotToken(u: Chars)
    ensures NextToken([SPACE] + ([DOT, SPACE] + u)) == Scan(TDot, u)
  {
    hide KindOf;
    var v := [DOT, SPACE] + u;
    SpaceSkipped(v);
    NoSkip(v);
    assert v[1..] == [SPACE] + u;
    assert v[1..][1..] == u;
  }

  lemma {:induction false} SpaceSkipped(u: Chars)
    ensures NextToken([SPACE] + u) == NextToken(u)
  {
    var s := [SPACE] + u;
    assert s[1..] == u;
    assert SkipSpace(s) == SkipSpace(u);
  }

  lemma {:induction false} TailBack(d: Datum, r: Reader, rest: Chars) returns (t: Token)
    requires GoodTail(d) && r.op == RdList && r.input == TailText(d) + rest
    ensures Reaches(Go(r), AfterTail(r.(tok := t), d, rest))
    decreases d, 1
  {
    hide NextToken, KindOf, Reaches;
    TailToken(d, rest);
    OneStep(r);
    t := TRparen;
    if d.Pair? {
      var more := TailText(d.cdr) + rest;
      TailClosed(d.cdr, rest);
      AnyToken(d.car, more);
      BehindSame(d.car, more);
      var u := Step(r).r;
      t := ReadsBack(d.car, u, more);
      var w := After(u.(tok := t), d.car, more);
      ReachesThen(Go(r), Go(u), w);
      assert u.dump[1..] == r.dump;
      t := TailBack(d.cdr, w.r, rest);
      ReachesThen(Go(r), w, AfterTail(w.r.(tok := t), d.cdr, rest));
    } else if !d.Nil? {
      t := DottedBack(d, r, rest);
    }
  }

  lemma {:induction false} DottedBack(d: Datum, r: Reader, rest: Chars) returns (t: Token)
    requires !d.Pair? && !d.Nil? && GoodAtom(d) && r.op == RdList
    requires NextToken(r.input) == Scan(TDot, AtomText(d) + ([RPAREN] + rest))
    ensures Reaches(Go(r), AfterTail(r.(tok := t), d, rest))
  {
    hide NextToken, KindOf, Reaches, AtomText, AtomAs, GoodAtom, Step;
    var more := [RPAREN] + rest;
    DotSaved(r, AtomText(d) + more);
    OneStep(r);
    var u := Step(r).r;
    t := AtomBack(d, u, more);
    ThenStep(Go(r), u);
    var v := Step(u).r;
    assert u.dump[1..] == r.dump;
    DottedClosed(v, r.(tok := t), d, rest);
    ThenStep(Go(r), v);
  }

  // At a dot the list so far is saved, and the datum behind the dot is read.
  lemma {:induction false} DotSaved(r: Reader, s: Chars)
    requires r.op == RdList && NextToken(r.input) == Scan(TDot, s)
    ensures (var u := NextToken(s);
             Step(r) == SaveNext(r, RdDot, Pair(r.value, r.args), u.tok, u.rest))
  {
    hide NextToken;
  }

  // The parenthesis behind it closes the list.
  lemma {:induction false} DottedClosed(v: Reader, r: Reader, d: Datum, rest: Chars)
    requires !d.Pair? && !d.Nil?
    requires v == r.(op := RdDot, value := AtomAs(d), args := Pair(r.value, r.args), input := [RPAREN] + rest)
    ensures Step(v) == AfterTail(r, d, rest)
  {
    hide NextToken, AtomAs;
    CloseToken(rest);
  }

  // ---------- the round trip ----------

  // No text holds a byte 0, which would end the input.
  lemma {:induction false} DatumInput(d: Datum)
    requires Good(d)
    ensures Input(Text(d))
    decreases d, 0
  {
    hide KindOf;
    if !d.Pair? {
      AtomInput(d);
    } else if Trap(d) {
      assert Text(d.cdr.car) == d.cdr.car.name;
    } else if Abbreviated(d) {
      DatumInput(d.cdr.car);
    } else {
      DatumInput(d.car);
      TailInput(d.cdr);
    }
  }

  lemma {:induction false} TextInput(d: Datum, rest: Chars)
    requires Good(d) && Input(rest)
    ensures Input(Text(d) + rest)
  {
    DatumInput(d);
    hide Good, Text;
  }

  lemma {:induction false} TailInput(d: Datum)
    requires GoodTail(d)
    ensures Input(TailText(d))
    decreases d, 1
  {
    hide KindOf;
    if d.Pair? {
      DatumInput(d.car);
      TailInput(d.cdr);
    } else if !d.Nil? {
      AtomInput(d);
    }
  }

  lemma {:induction false} AtomInput(d: Datum)
    requires !d.Pair? && GoodAtom(d)
    ensures Input(AtomText(d))
  {
    hide KindOf;
    if d.Num? {
      NumberBack(d.n);
    } else if d.Str? {
      EscapedInput(d.s);
    }
  }

  lemma {:induction false} EscapedInput(s: Chars)
    requires Bytes(s)
    ensures Input(EscapedAll(s))
  {
    if s != [] {
      EscapedInput(s[1..]);
    }
  }

  // Printing a datum on an empty output and reading the output back.
  lemma WriteThenRead(d: Datum, rest: Chars)
    requires Good(d) && (Open(d) ==> Closed(rest))
    ensures PrintReaches(Prints(Printer(P0, d, [], [])), Printed(Text(d)))
    ensures (var t := NextToken(Text(d) + rest);
             Reaches(Go(Reader(RdSexpr, t.tok, Nil, Nil, [], 0, t.rest)), Got(ReadAs(d), 0, Behind(d, rest))))
    ensures ReadAs(d) == d <==> Safe(d)
  {
    PrinterPrints(d, [], []);
    assert [] + Text(d) == Text(d);
    var t := NextToken(Text(d) + rest);
    var r := Reader(RdSexpr, t.tok, Nil, Nil, [], 0, t.rest);
    var last := ReadsBack(d, r, rest);
    SameExactly(d);
  }
}
