/** The scanner, the reader and the printer as the interpreter runs them, on a string port. */
module ReaderObject {
  import opened SchemeText
  import opened Reading
  import opened RoundTrip

  // -1 is the end of the input.
  const EOF := -1

  datatype Signal = More | Finished | Raised(reason: Reason)

  class Scheme {
    var op: Op
    var tok: Token
    var args: Datum
    var value: Datum
    var dump: seq<Saved>
    var nesting: int
    var input: Chars

    constructor (input: Chars)
      ensures State() == Reader(RdSexpr, TEof, Nil, Nil, [], 0, input)
    {
      this.op, this.tok, this.args, this.value := RdSexpr, TEof, Nil, Nil;
      this.dump, this.nesting, this.input := [], 0, input;
    }

    function State(): Reader
      reads this
    {
      Reader(op, tok, args, value, dump, nesting, input)
    }

    ghost predicate Is(r: Signal, s: Status)
      reads this
    {
      match s
      case Go(m) => r == More && State() == m
      case Got(v, n, i) => r == Finished && value == v && nesting == n && input == i && dump == []
      case Stop(reason) => r == Raised(reason)
    }

    // ---------- the scanner ----------

    method InChar() returns (c: int)
      modifies `input
      ensures if old(input) == [] then c == EOF && input == [] else c == old(input)[0] && input == old(input)[1..]
    {
      if input == [] {
        return EOF;
      }
      c := input[0];
      input := input[1..];
    }

    method BackChar(c: int)
      modifies `input
      ensures input == if c == EOF then old(input) else [c] + old(input)
    {
      if c != EOF {
        input := [c] + input;
      }
    }

    method Skip()
      requires Input(input)
      modifies `input
      ensures Input(input) && input == SkipSpace(old(input))
    {
      ghost var s := input;
      var c := InChar();
      while IsSpace(c)
        invariant Input(input) && (c == EOF || 0 < c < 255) && (c == EOF ==> input == [])
                  && SkipSpace(s) == SkipSpace(Back(c, input))
        decreases |input|, c != EOF
      {
        SpaceGone(c, input);
        ghost var i := input;
        c := InChar();
        assert Back(c, input) == i;
      }
      NoSpace(c, input);
      BackChar(c);
    }

    // To the end of a comment.
    method SkipComment() returns (eof: bool)
      requires Input(input)
      modifies `input
      ensures Input(input) && input == SkipLine(old(input)) && (eof ==> input == [])
    {
      var c := InChar();
      while c != NEWLINE && c != EOF
        invariant Input(input) && (c == EOF ==> input == [])
        invariant SkipLine(old(input)) == (if c == EOF then [] else if c == NEWLINE then input else SkipLine(input))
        decreases |input|, if c == NEWLINE || c == EOF then 0 else 1
      {
        c := InChar();
      }
      return c == EOF;
    }

    // token
    method GetToken() returns (t: Token)
      requires Input(input)
      modifies `input
      ensures Input(input) && Scan(t, input) == NextToken(old(input))
      decreases |input|
    {
      ghost var s := SkipSpace(input);
      Skip();
      var c := InChar();
      if c == EOF {
        return TEof;
      }
      assert s == [c] + input;
      if c == LPAREN {
        return TLparen;
      } else if c == RPAREN {
        return TRparen;
      } else if c == DOT {
        t := DotToken();
      } else if c == QUOTE {
        return TQuote;
      } else if c == SEMICOLON {
        var eof := SkipComment();
        if eof {
          return TEof;
        }
        t := GetToken();
      } else if c == DQUOTE {
        return TDquote;
      } else if c == BACKQUOTE {
        return TBquote;
      } else if c == COMMA {
        var d := InChar();
        if d == AT {
          return TAtmark;
        }
        BackChar(d);
        return TComma;
      } else if c == SHARP {
        t := SharpToken();
      } else {
        BackChar(c);
        return TAtom;
      }
    }

    // After a dot.
    method DotToken() returns (t: Token)
      requires Input(input)
      modifies `input
      ensures Input(input)
      ensures (var u := old(input);
               if u == [] || u[0] == SPACE || u[0] == NEWLINE || u[0] == TAB then t == TDot
                  && input == if u == [] then [] else u[1..]
               else t == TAtom && input == [DOT] + u)
    {
      var c := InChar();
      if c == SPACE || c == NEWLINE || c == TAB || c == EOF {
        return TDot;
      }
      BackChar(c);
      BackChar(DOT);
      return TAtom;
    }

    // After a #.
    method SharpToken() returns (t: Token)
      requires Input(input)
      modifies `input
      ensures Input(input) && Scan(t, input) == NextToken([SHARP] + old(input))
      decreases |input|, 0
    {
      ghost var s := [SHARP] + input;
      assert s[1..] == input;
      NoSkip(s);
      var c := InChar();
      if c == LPAREN {
        return TVec;
      }
      if c == 33 {
        var eof := SkipComment();
        if eof {
          return TEof;
        }
        t := GetToken();
        return;
      }
      BackChar(c);
      return if c == EOF || SharpConst(c) then TSharpConst else TSharp;
    }

    // readstr_upto: the characters are put into the buffer up to and with a delimiter, which is taken back.
    method ReadStrUpto() returns (word: Chars)
      requires Input(input)
      modifies `input
      ensures Input(input) && Word(word, input) == ReadUpto(old(input))
    {
      ghost var s := input;
      word := [];
      var c := EOF;
      var more := true;
      hide Plainly, Stored, IsDelimiter, ReadUpto;
      StartWord(s);
      while more
        invariant Input(input) && |word| <= 256 && (c == EOF || 0 < c < 255)
        invariant more ==> Plainly(s, word, input) && |word| < 256
        invariant !more ==> word != [] && Stored(s, word[..|word| - 1], word[|word| - 1], c, input)
        decreases 256 - |word|, more
      {
        ghost var before, i := word, input;
        c := InChar();
        word := word + [if c == EOF then 255 else c];
        assert word[..|word| - 1] == before;
        more := |word| < 256 && c != EOF && !IsDelimiter(c);
        WordGrows(s, before, i, c, input);
      }
      UptoIs(s, word[..|word| - 1], word[|word| - 1], c, input);
      assert word == word[..|word| - 1] + [word[|word| - 1]];
      if |word| == 2 && word[0] == BACKSLASH {
        return;
      }
      BackChar(c);
      word := word[..|word| - 1];
    }

    // store_string: a new block of memory, and the copy.
    method StoreString(str: Chars) returns (q: Chars)
      ensures q == StringCopy(str)
    {
      q := Unset(|str|);
      var i := 0;
      hide Copying;
      CopyStart(str);
      while i < |str| && str[i] != 0
        invariant Copying(str, q, i) && 0 <= i <= |str| == |q|
      {
        CopyNext(str, q, i);
        q := q[i := str[i]];
        i := i + 1;
      }
      CopyEnd(str, q, i);
      if i < |str| {
        q := q[i := 0];
      }
    }

    // readstrexp: one character after another, in the state of an escape sequence.
    method ReadStrExp() returns (l: Literal)
      requires Input(input)
      modifies `input
      ensures Input(input)
      ensures match ReadString(old(input), Plain, [])
              case Literal(s, rest) => l == Literal(s, rest) && input == rest
              case BadLiteral => l == BadLiteral
    {
      ghost var s := input;
      var st: Escape := Plain;
      var buf: Chars := [];
      while true
        invariant Input(input) && ReadString(s, Plain, []) == ReadString(input, st, buf)
        decreases |input|, if st.Oct1? || st.Oct2? then 1 else 0
      {
        var c := InChar();
        if c == EOF || |buf| > 255 {
          return BadLiteral;
        }
        match st {
          case Plain =>
            if c == DQUOTE {
              var q := StoreString(buf);
              return Literal(q, input);
            }
            if c == BACKSLASH {
              st := Bsl;
            } else {
              buf := buf + [c];
            }
          case Bsl =>
            if 48 <= c <= 55 {
              st := Oct1(c - 48);
            } else if c == 120 || c == 88 {
              st := X1;
            } else {
              buf := buf + [Named(c)];
              st := Plain;
            }
          case X1 =>
            var u := Upper(c);
            if !(48 <= u <= 70) {
              return BadLiteral;
            }
            st := X2(if u <= 57 then u - 48 else u - 55);
          case X2(c1) =>
            var u := Upper(c);
            if !(48 <= u <= 70) {
              return BadLiteral;
            }
            buf := buf + [(c1 * 16 + (if u <= 57 then u - 48 else u - 55)) % 256];
            st := Plain;
          case Oct1(c1) =>
            if c < 48 || c > 55 {
              buf := buf + [c1];
              BackChar(c);
              st := Plain;
            } else {
              st := Oct2(c1 * 8 + (c - 48));
            }
          case Oct2(c1) =>
            if c < 48 || c > 55 {
              buf := buf + [c1];
              BackChar(c);
              st := Plain;
            } else {
              if c1 >= 32 {
                return BadLiteral;
              }
              buf := buf + [c1 * 8 + (c - 48)];
              st := Plain;
            }
        }
      }
    }

    // ---------- the reader ----------

    method SSave(op0: Op, args0: Datum)
      modifies `dump
      ensures dump == [Saved(op0, args0)] + old(dump)
    {
      dump := [Saved(op0, args0)] + dump;
    }

    method SReturn(v: Datum) returns (r: Signal)
      modifies this
      ensures Is(r, Return(old(State()), v)) && input == old(input)
    {
      value := v;
      if dump == [] {
        return Finished;
      }
      op, args, dump := dump[0].op, dump[0].args, dump[1..];
      return More;
    }

    method ReverseInPlace(term: Datum, list: Datum) returns (result: Datum)
      ensures result == RevOnto(list, term)
    {
      var p := list;
      result := term;
      while p.Pair?
        invariant RevOnto(p, result) == RevOnto(list, term)
        decreases p
      {
        p, result := p.cdr, Pair(p.car, result);
      }
    }

    method Quoted(name: Chars) returns (r: Signal)
      requires Input(input)
      modifies this
      ensures Input(input)
      ensures (var t := NextToken(old(input)); Is(r, SaveNext(old(State()), RdWrap(name), Nil, t.tok, t.rest)))
    {
      SSave(RdWrap(name), Nil);
      tok := GetToken();
      op := RdSexpr;
      return More;
    }

    // An open parenthesis.
    method OpenList() returns (r: Signal)
      requires Input(input) && op == RdSexpr && tok == TLparen
      modifies this
      ensures Is(r, StepSexpr(old(State()))) && Input(input)
    {
      tok := GetToken();
      if tok == TRparen {
        r := SReturn(Nil);
      } else if tok == TDot {
        return Raised(IllegalDot);
      } else {
        nesting := nesting + 1;
        SSave(RdList, Nil);
        op := RdSexpr;
        return More;
      }
    }

    // mk_atom on a word.
    method Atom() returns (r: Signal)
      requires Input(input) && op == RdSexpr && tok == TAtom
      modifies this
      ensures Is(r, StepSexpr(old(State()))) && Input(input)
    {
      var w := ReadStrUpto();
      r := SReturn(AtomOf(w));
    }

    method SharpConstant() returns (r: Signal)
      requires Input(input) && op == RdSexpr && tok == TSharpConst
      modifies this
      ensures Is(r, StepSexpr(old(State()))) && Input(input)
    {
      var w := ReadStrUpto();
      if w == [116] {
        r := SReturn(T);
      } else if w == [102] {
        r := SReturn(F);
      } else {
        return Raised(Outside);
      }
    }

    method StringLiteral() returns (r: Signal)
      requires Input(input) && op == RdSexpr && tok == TDquote
      modifies this
      ensures Is(r, StepSexpr(old(State()))) && Input(input)
    {
      var l := ReadStrExp();
      if l == BadLiteral {
        return Raised(BadString);
      }
      r := SReturn(Str(l.text));
    }

    method Backquoted() returns (r: Signal)
      requires Input(input) && op == RdSexpr && tok == TBquote
      modifies this
      ensures Is(r, StepSexpr(old(State()))) && Input(input)
    {
      tok := GetToken();
      if tok == TVec {
        return Raised(Outside);
      }
      SSave(RdWrap(S_QUASI), Nil);
      return More;
    }

    method SexprOp() returns (r: Signal)
      requires Input(input) && op == RdSexpr
      modifies this
      ensures Is(r, StepSexpr(old(State()))) && Input(input)
    {
      hide NextToken, ReadUpto, ReadString, AtomOf;
      match tok {
        case TEof => r := SReturn(Eof);
        case TLparen => r := OpenList();
        case TQuote => r := Quoted(S_QUOTE);
        case TBquote => r := Backquoted();
        case TComma => r := Quoted(S_UNQUOTE);
        case TAtmark => r := Quoted(S_SPLICING);
        case TAtom => r := Atom();
        case TDquote => r := StringLiteral();
        case TSharpConst => r := SharpConstant();
        case TSharp => return Raised(Outside);
        case TVec => return Raised(Outside);
        case _ => return Raised(IllegalToken);
      }
    }

    // The newline behind a list is read, any other character is taken back.
    method EatNewline()
      requires Input(input)
      modifies `input
      ensures Input(input) && input == SkipNewline(old(input))
    {
      var c := InChar();
      if c != NEWLINE {
        BackChar(c);
      }
    }

    method ListOp() returns (r: Signal)
      requires Input(input) && op == RdList
      modifies this
      ensures Is(r, StepList(old(State()))) && Input(input)
    {
      hide NextToken;
      ghost var r0 := State();
      var all := Pair(value, args);
      tok := GetToken();
      if tok == TEof {
        r := SReturn(Eof);
      } else if tok == TRparen {
        EatNewline();
        nesting := nesting - 1;
        var list := ReverseInPlace(Nil, all);
        r := SReturn(list);
      } else if tok == TDot {
        SSave(RdDot, all);
        tok := GetToken();
        op := RdSexpr;
        return More;
      } else {
        SSave(RdList, all);
        op := RdSexpr;
        return More;
      }
    }

    method DotOp() returns (r: Signal)
      requires Input(input) && op == RdDot
      modifies this
      ensures Is(r, StepDot(old(State()))) && Input(input)
    {
      hide NextToken;
      var t := GetToken();
      if t != TRparen {
        return Raised(IllegalDot);
      }
      nesting := nesting - 1;
      var list := ReverseInPlace(value, args);
      r := SReturn(list);
    }

    method Opexe() returns (r: Signal)
      requires Input(input)
      modifies this
      ensures Is(r, Step(old(State()))) && Input(input)
    {
      hide StepSexpr, StepList, StepDot, Return;
      match op {
        case RdSexpr => r := SexprOp();
        case RdList => r := ListOp();
        case RdDot => r := DotOp();
        case RdWrap(name) => r := SReturn(Pair(Sym(name), Pair(value, Nil)));
      }
    }

    // read, on a port that holds a word and more.
    method ReadAtom(ghost q: Chars, ghost rest: Chars) returns (r: Signal)
      requires 0 < |q| <= 255 && q != [BACKSLASH] && (forall i :: 0 <= i < |q| ==> !IsDelimiter(q[i]))
      requires q[0] != QUOTE && q[0] != BACKQUOTE && q[0] != COMMA && q[0] != SHARP && q[0] != DOT
      requires Closed(rest) && input == q + rest && Input(input) && dump == []
      modifies this
      ensures r == Finished && value == AtomOf(q) && input == rest && nesting == old(nesting) && dump == []
    {
      hide NextToken, ReadUpto, AtomOf;
      assert input[0] == q[0];
      WordBack(q, rest);
      BeginsWord(input);
      tok := GetToken();
      op := RdSexpr;
      r := Opexe();
    }

    // read, on a port that holds the text of a datum and more: what comes back, and what is left.
    method Read(ghost d: Datum, ghost rest: Chars) returns (r: Signal)
      requires Good(d) && (Open(d) ==> Closed(rest)) && input == Text(d) + rest && Input(rest) && dump == []
      modifies this
      ensures r == Finished && value == ReadAs(d) && input == Behind(d, rest) && nesting == old(nesting) && dump == []
    {
      hide Good, Input, Text, Open, Closed, Behind, ReadAs, NextToken, Step, Run, Reaches;
      TextInput(d, rest);
      tok := GetToken();
      op := RdSexpr;
      ghost var r0 := State();
      ghost var last := ReadsBack(d, r0, rest);
      ghost var left := StepsTo(Go(r0), After(r0.(tok := last), d, rest));
      ghost var goal := After(r0.(tok := last), d, rest);
      r := More;
      while r == More
        invariant Input(input) && (r == More ==> Run(Go(State()), left) == goal)
        invariant r != More ==> Is(r, goal)
        decreases left
      {
        ghost var m := State();
        NotYet(m, left, goal);
        r := Opexe();
        DoneAt(m, left, goal);
        left := left - 1;
      }
    }
  }

  class Writer {
    var op: PrintOp
    var args: Datum
    var dump: seq<Datum>
    var out: Chars

    constructor ()
      ensures op == P0 && args == Nil && dump == [] && out == []
    {
      op, args, dump, out := P0, Nil, [], [];
    }

    // The printer is in the state s; more tells whether it goes on.
    ghost predicate Is(more: bool, s: Printing)
      reads this
    {
      match s
      case Prints(p) => more && Printer(op, args, dump, out) == p
      case Printed(o) => !more && out == o && dump == []
    }

    // printslashstring
    method PrintSlashString(s: Chars)
      modifies `out
      ensures out == old(out) + [DQUOTE] + EscapedAll(s) + [DQUOTE]
    {
      out := out + [DQUOTE];
      ghost var start := out;
      var i := 0;
      while i < |s|
        invariant 0 <= i <= |s| && out + EscapedAll(s[i..]) == start + EscapedAll(s)
      {
        assert s[i..][1..] == s[i + 1..];
        ghost var before := out;
        PutEscaped(s[i]);
        assert before + Escaped(s[i]) + EscapedAll(s[i + 1..]) == before + (Escaped(s[i]) + EscapedAll(s[i + 1..]));
        i := i + 1;
      }
      assert s[i..] == [];
      assert out + [] == out;
      out := out + [DQUOTE];
    }

    method PutEscaped(c: int)
      modifies `out
      ensures out == old(out) + Escaped(c)
    {
      if c == 255 || c == DQUOTE || c < SPACE || c == BACKSLASH {
        out := out + [BACKSLASH];
        if c == DQUOTE || c == BACKSLASH {
          out := out + [c];
        } else if c == NEWLINE {
          out := out + [110];
        } else if c == TAB {
          out := out + [116];
        } else if c == RETURN {
          out := out + [114];
        } else {
          out := out + [120];
          out := out + [HexDigit(c / 16)];
          out := out + [HexDigit(c % 16)];
        }
      } else {
        out := out + [c];
      }
    }

    // printatom
    method PrintAtom(d: Datum)
      requires !d.Pair?
      modifies `out
      ensures out == old(out) + AtomText(d)
    {
      if d.Str? {
        PrintSlashString(d.s);
      } else {
        out := out + AtomText(d);
      }
    }

    method PrintReturns() returns (more: bool)
      modifies this
      ensures Is(more, PrintReturn(old(dump), old(out)))
    {
      if dump == [] {
        return false;
      }
      op, args, dump := P1, dump[0], dump[1..];
      return true;
    }

    method P0List() returns (more: bool)
      requires op == P0
      modifies this
      ensures Is(more, PrintStep(Printer(P0, old(args), old(dump), old(out))))
    {
      if !args.Pair? {
        PrintAtom(args);
        more := PrintReturns();
      } else if Abbreviated(args) {
        out := out + Prefix(args.car);
        args := args.cdr.car;
        return true;
      } else {
        out := out + [LPAREN];
        dump := [args.cdr] + dump;
        args := args.car;
        return true;
      }
    }

    method P1List() returns (more: bool)
      requires op == P1
      modifies this
      ensures Is(more, PrintStep(Printer(P1, old(args), old(dump), old(out))))
    {
      if args.Pair? {
        dump := [args.cdr] + dump;
        out := out + [SPACE];
        op, args := P0, args.car;
        return true;
      }
      ghost var start := out;
      if !args.Nil? {
        out := out + [SPACE, DOT, SPACE];
        PrintAtom(args);
      }
      out := out + [RPAREN];
      assert out == start + TailText(args);
      more := PrintReturns();
    }

    // write: the text of the datum is put out.
    method Write(d: Datum)
      requires dump == []
      modifies this
      ensures out == old(out) + Text(d) && dump == []
    {
      op, args := P0, d;
      PrinterPrints(d, [], out);
      ghost var goal := Printed(out + Text(d));
      ghost var left := PrintSteps(Prints(Printer(P0, d, [], out)), goal);
      var more := true;
      while more
        invariant if more then PrintRun(Prints(Printer(op, args, dump, out)), left) == goal else Is(more, goal)
        decreases left
      {
        ghost var p := Printer(op, args, dump, out);
        PrintedAt(p, left, goal);
        if op == P0 {
          more := P0List();
        } else {
          more := P1List();
        }
        left := left - 1;
      }
    }
  }

  lemma {:induction false} BeginsWord(s: Chars)
    requires s != [] && !IsDelimiter(s[0]) && s[0] != QUOTE && s[0] != BACKQUOTE && s[0] != COMMA && s[0] != SHARP
    requires s[0] != DOT
    ensures NextToken(s) == Scan(TAtom, s)
  {
    NoSkip(s);
  }

  ghost function PrintSteps(s: Printing, t: Printing): (k: nat)
    requires PrintReaches(s, t)
    ensures PrintRun(s, k) == t
  {
    var k: nat :| PrintRun(s, k) == t;
    k
  }

  lemma {:induction false} PrintedAt(p: Printer, left: nat, goal: Printing)
    requires PrintRun(Prints(p), left) == goal && goal.Printed?
    ensures left > 0 && PrintRun(PrintStep(p), left - 1) == goal
    ensures !PrintStep(p).Prints? ==> PrintStep(p) == goal
  {
  }

  ghost function StepsTo(s: Status, t: Status): (k: nat)
    requires Reaches(s, t)
    ensures Run(s, k) == t
  {
    var k: nat :| Run(s, k) == t;
    k
  }

  lemma {:induction false} NotYet(m: Reader, left: nat, goal: Status)
    requires Run(Go(m), left) == goal && goal.Got?
    ensures left > 0
  {
  }

  lemma {:induction false} DoneAt(m: Reader, left: nat, goal: Status)
    requires Run(Go(m), left) == goal && left > 0
    ensures Run(Step(m), left - 1) == goal
    ensures !Step(m).Go? ==> Step(m) == goal
  {
  }

  // The characters that are named by a letter after a backslash.
  function Named(c: int): int {
    if c == 110 then NEWLINE else if c == 116 then TAB else if c == 114 then RETURN else c
  }

  // What is to be read when c is taken back.
  function Back(c: int, input: Chars): Chars {
    (if c == EOF then [] else [c]) + input
  }

  // The first i characters have been copied, none of which is 0.
  ghost predicate Copying(str: Chars, q: Chars, i: nat) {
    i <= |str| && q == str[..i] + Unset(|str| - i) && StringCopy(str) == str[..i] + StringCopy(str[i..])
  }

  lemma {:induction false} CopyStart(str: Chars)
    ensures Copying(str, Unset(|str|), 0)
  {
    assert str[0..] == str;
  }

  lemma {:induction false} CopyNext(str: Chars, q: Chars, i: nat)
    requires Copying(str, q, i) && i < |str| == |q| && str[i] != 0
    ensures Copying(str, q[i := str[i]], i + 1)
  {
    assert str[i..][1..] == str[i + 1..];
    assert str[..i + 1] == str[..i] + [str[i]];
    assert q[i := str[i]] == str[..i + 1] + Unset(|str| - i - 1);
  }

  lemma {:induction false} CopyEnd(str: Chars, q: Chars, i: nat)
    requires Copying(str, q, i) && |str| == |q| && (i == |str| || str[i] == 0)
    ensures (if i < |str| then q[i := 0] else q) == StringCopy(str)
  {
    if i < |str| {
      assert q[i := 0] == str[..i] + ([0] + Unset(|str| - i - 1));
    } else {
      assert str[i..] == [];
    }
  }

  lemma {:induction false} SpaceGone(c: int, input: Chars)
    requires IsSpace(c)
    ensures SkipSpace(Back(c, input)) == SkipSpace(input)
  {
    assert Back(c, input)[1..] == input;
  }

  lemma {:induction false} NoSpace(c: int, input: Chars)
    requires !IsSpace(c) && (c == EOF ==> input == [])
    ensures SkipSpace(Back(c, input)) == Back(c, input)
  {
  }

  // All characters read so far are without delimiters.
  ghost predicate Plainly(s: Chars, word: Chars, input: Chars) {
    s == word + input && forall i :: 0 <= i < |word| ==> !IsDelimiter(word[i])
  }

  // The last character read is c: a delimiter, the end, or the one that fills the buffer.
  ghost predicate Stored(s: Chars, word: Chars, last: int, c: int, input: Chars) {
    && (if c == EOF then last == 255 && input == [] && Plainly(s, word, [])
        else last == c && Plainly(s, word, [c] + input))
    && (c == EOF || IsDelimiter(c) || |word| == 255) && |word| <= 255
  }

  lemma {:induction false} StartWord(s: Chars)
    ensures Plainly(s, [], s)
  {
  }

  lemma {:induction false} WordGrows(s: Chars, word: Chars, input: Chars, c: int, input': Chars)
    requires Plainly(s, word, input) && |word| < 256 && Input(input)
    requires if input == [] then c == EOF && input' == [] else c == input[0] && input' == input[1..]
    ensures if |word| + 1 < 256 && c != EOF && !IsDelimiter(c) then Plainly(s, word + [c], input')
            else Stored(s, word, if c == EOF then 255 else c, c, input')
  {
    if input != [] {
      assert [c] + input' == input;
      assert word + input == word + [c] + input';
    }
  }

  lemma {:induction false} UptoIs(s: Chars, word: Chars, last: int, c: int, input: Chars)
    requires Stored(s, word, last, c, input)
    ensures if |word| == 1 && word[0] == BACKSLASH then Word(word + [last], input) == ReadUpto(s)
            else Word(word, (if c == EOF then [] else [c]) + input) == ReadUpto(s)
  {
    var rest := (if c == EOF then [] else [c]) + input;
    assert s == word + rest;
    if c == EOF || IsDelimiter(c) {
      UntilIs(word, rest);
    } else {
      UntilAtLeast(word, rest);
    }
    assert s[..|word|] == word && s[|word|..] == rest;
    if |word| == 1 && word[0] == BACKSLASH {
      assert word == [BACKSLASH];
      if c != EOF {
        assert s[..2] == word + [c] && s[2..] == input;
      }
    }
  }

  lemma {:induction false} UntilAtLeast(word: Chars, rest: Chars)
    requires rest != [] && !IsDelimiter(rest[0]) && forall i :: 0 <= i < |word| ==> !IsDelimiter(word[i])
    ensures UntilDelimiter(word + rest) > |word|
  {
    if word == [] {
      assert word + rest == rest;
    } else {
      assert (word + rest)[1..] == word[1..] + rest;
      UntilAtLeast(word[1..], rest);
    }
  }
}
