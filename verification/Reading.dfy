/** The reader and the printer of Scheme data, machines with an explicit stack. */
module Reading {
  import opened SchemeText

  // Eof is the end-of-file object; Real and Qualified are atoms that are not looked into.
  datatype Datum = Nil | T | F | Num(n: int) | Str(s: Chars) | Sym(name: Chars) | Pair(car: Datum, cdr: Datum)
                 | Eof | Real(text: Chars) | Qualified(text: Chars)

  // quote, quasiquote, unquote, unquote-splicing
  const S_QUOTE: Chars := [113, 117, 111, 116, 101]
  const S_QUASI: Chars := [113, 117, 97, 115, 105] + S_QUOTE
  const S_UNQUOTE: Chars := [117, 110] + S_QUOTE
  const S_SPLICING: Chars := S_UNQUOTE + [45, 115, 112, 108, 105, 99, 105, 110, 103]

  datatype Reason = IllegalDot | IllegalToken | BadString | Outside

  datatype Op = RdSexpr | RdList | RdDot | RdWrap(name: Chars)
  datatype Saved = Saved(op: Op, args: Datum)

  // The reader: registers, stack, count of open parentheses, and what is still to be read.
  datatype Reader = Reader(op: Op, tok: Token, args: Datum, value: Datum, dump: seq<Saved>, nesting: int, input: Chars)
  datatype Status = Go(r: Reader) | Got(v: Datum, nesting: int, input: Chars) | Stop(reason: Reason)

  function Return(r: Reader, v: Datum): Status {
    if r.dump == [] then Got(v, r.nesting, r.input)
    else Go(r.(op := r.dump[0].op, args := r.dump[0].args, value := v, dump := r.dump[1..]))
  }

  // mk_atom
  function AtomOf(q: Chars): Datum {
    match KindOf(q)
    case KSymbol => Sym(LowerAll(q))
    case KInteger => Num(NumberOf(q))
    case KReal => Real(q)
    case KQualified => Qualified(q)
  }

  // The elements of d, last first, in front of term.
  function RevOnto(d: Datum, term: Datum): Datum {
    if d.Pair? then RevOnto(d.cdr, Pair(d.car, term)) else term
  }

  // After s_save, the next token decides how to go on reading.
  function SaveNext(r: Reader, op: Op, args: Datum, tok: Token, input: Chars): Status {
    Go(r.(op := RdSexpr, tok := tok, input := input, dump := [Saved(op, args)] + r.dump))
  }

  function StepSexpr(r: Reader): Status {
    match r.tok
    case TEof => Return(r, Eof)
    case TLparen =>
      var t := NextToken(r.input);
      if t.tok == TRparen then Return(r.(tok := t.tok, input := t.rest), Nil)
      else if t.tok == TDot then Stop(IllegalDot)
      else SaveNext(r.(nesting := r.nesting + 1), RdList, Nil, t.tok, t.rest)
    case TQuote => var t := NextToken(r.input); SaveNext(r, RdWrap(S_QUOTE), Nil, t.tok, t.rest)
    case TBquote =>
      var t := NextToken(r.input);
      if t.tok == TVec then Stop(Outside) else SaveNext(r, RdWrap(S_QUASI), Nil, t.tok, t.rest)
    case TComma => var t := NextToken(r.input); SaveNext(r, RdWrap(S_UNQUOTE), Nil, t.tok, t.rest)
    case TAtmark => var t := NextToken(r.input); SaveNext(r, RdWrap(S_SPLICING), Nil, t.tok, t.rest)
    case TAtom => var w := ReadUpto(r.input); Return(r.(input := w.rest), AtomOf(w.text))
    case TDquote =>
      (match ReadString(r.input, Plain, [])
       case Literal(s, rest) => Return(r.(input := rest), Str(s))
       case BadLiteral => Stop(BadString))
    case TSharpConst =>
      var w := ReadUpto(r.input);
      if w.text == [116] then Return(r.(input := w.rest), T)
      else if w.text == [102] then Return(r.(input := w.rest), F)
      else Stop(Outside)
    case TSharp => Stop(Outside)
    case TVec => Stop(Outside)
    case TRparen => Stop(IllegalToken)
    case TDot => Stop(IllegalToken)
  }

  // The newline right behind a list is read with it.
  function SkipNewline(s: Chars): Chars {
    if s != [] && s[0] == NEWLINE then s[1..] else s
  }

  function StepList(r: Reader): Status {
    var args := Pair(r.value, r.args);
    var t := NextToken(r.input);
    if t.tok == TEof then Return(r.(tok := t.tok, input := t.rest), Eof)
    else if t.tok == TRparen then
      Return(r.(tok := t.tok, input := SkipNewline(t.rest), nesting := r.nesting - 1), RevOnto(args, Nil))
    else if t.tok == TDot then
      var u := NextToken(t.rest);
      SaveNext(r, RdDot, args, u.tok, u.rest)
    else SaveNext(r, RdList, args, t.tok, t.rest)
  }

  function StepDot(r: Reader): Status {
    var t := NextToken(r.input);
    if t.tok != TRparen then Stop(IllegalDot)
    else Return(r.(input := t.rest, nesting := r.nesting - 1), RevOnto(r.args, r.value))
  }

  function Step(r: Reader): Status {
    match r.op
    case RdSexpr => StepSexpr(r)
    case RdList => StepList(r)
    case RdDot => StepDot(r)
    case RdWrap(name) => Return(r, Pair(Sym(name), Pair(r.value, Nil)))
  }

  function Run(s: Status, k: nat): Status
    decreases k
  {
    if k == 0 || !s.Go? then s else Run(Step(s.r), k - 1)
  }

  ghost predicate Reaches(s: Status, t: Status) {
    exists k: nat :: Run(s, k) == t
  }

  lemma {:induction false} RunMore(s: Status, j: nat, k: nat)
    ensures Run(s, j + k) == Run(Run(s, j), k)
    decreases j
  {
    hide Step;
    if j > 0 && s.Go? {
      RunMore(Step(s.r), j - 1, k);
    }
  }

  lemma ReachesThen(s: Status, t: Status, u: Status)
    requires Reaches(s, t) && Reaches(t, u)
    ensures Reaches(s, u)
  {
    var j: nat :| Run(s, j) == t;
    var k: nat :| Run(t, k) == u;
    RunMore(s, j, k);
  }

  lemma OneStep(r: Reader)
    ensures Reaches(Go(r), Step(r))
  {
    assert Run(Go(r), 1) == Run(Step(r), 0);
  }

  lemma ThenStep(s: Status, r: Reader)
    requires Reaches(s, Go(r))
    ensures Reaches(s, Step(r))
  {
    OneStep(r);
    ReachesThen(s, Go(r), Step(r));
  }

  // ---------- the text of a datum ----------

  // The character that a quotation is abbreviated with; 0 if it is none.
  function MarkOf(d: Datum): int {
    if d == Sym(S_QUOTE) then QUOTE
    else if d == Sym(S_QUASI) then BACKQUOTE
    else if d == Sym(S_UNQUOTE) then COMMA
    else if d == Sym(S_SPLICING) then AT
    else 0
  }

  predicate Abbreviated(d: Datum) {
    d.Pair? && MarkOf(d.car) != 0 && d.cdr.Pair? && d.cdr.cdr.Nil?
  }

  function Prefix(d: Datum): Chars {
    if MarkOf(d) == AT then [COMMA, AT] else [MarkOf(d)]
  }

  function AtomText(d: Datum): Chars {
    match d
    case Nil => [LPAREN, RPAREN]
    case T => [SHARP, 116]
    case F => [SHARP, 102]
    case Num(n) => NumberText(n)
    case Str(s) => [DQUOTE] + EscapedAll(s) + [DQUOTE]
    case Sym(name) => name
    case Pair(_, _) => []
    case Eof => [SHARP, 60, 69, 79, 70, 62]
    case Real(text) => text
    case Qualified(text) => text
  }

  function Text(d: Datum): Chars {
    if !d.Pair? then AtomText(d)
    else if Abbreviated(d) then Prefix(d.car) + Text(d.cdr.car)
    else [LPAREN] + Text(d.car) + TailText(d.cdr)
  }

  function TailText(d: Datum): Chars {
    if d.Pair? then [SPACE] + Text(d.car) + TailText(d.cdr)
    else if d.Nil? then [RPAREN]
    else [SPACE, DOT, SPACE] + AtomText(d) + [RPAREN]
  }

  // ---------- the printer ----------

  // P0: print args; P1: print args as the rest of a list.
  datatype PrintOp = P0 | P1
  datatype Printer = Printer(op: PrintOp, args: Datum, dump: seq<Datum>, out: Chars)
  datatype Printing = Prints(p: Printer) | Printed(out: Chars)

  // Only the rests of lists are saved.
  function PrintReturn(dump: seq<Datum>, out: Chars): Printing {
    if dump == [] then Printed(out) else Prints(Printer(P1, dump[0], dump[1..], out))
  }

  function PrintStep(p: Printer): Printing {
    match p.op
    case P0 =>
      if !p.args.Pair? then PrintReturn(p.dump, p.out + AtomText(p.args))
      else if Abbreviated(p.args) then Prints(p.(args := p.args.cdr.car, out := p.out + Prefix(p.args.car)))
      else Prints(Printer(P0, p.args.car, [p.args.cdr] + p.dump, p.out + [LPAREN]))
    case P1 =>
      if p.args.Pair? then Prints(Printer(P0, p.args.car, [p.args.cdr] + p.dump, p.out + [SPACE]))
      else PrintReturn(p.dump, p.out + TailText(p.args))
  }

  function PrintRun(s: Printing, k: nat): Printing
    decreases k
  {
    if k == 0 || !s.Prints? then s else PrintRun(PrintStep(s.p), k - 1)
  }

  ghost predicate PrintReaches(s: Printing, t: Printing) {
    exists k: nat :: PrintRun(s, k) == t
  }

  lemma {:induction false} PrintMore(s: Printing, j: nat, k: nat)
    ensures PrintRun(s, j + k) == PrintRun(PrintRun(s, j), k)
    decreases j
  {
    if j > 0 && s.Prints? {
      PrintMore(PrintStep(s.p), j - 1, k);
    }
  }

  lemma PrintThen(s: Printing, t: Printing, u: Printing)
    requires PrintReaches(s, t) && PrintReaches(t, u)
    ensures PrintReaches(s, u)
  {
    var j: nat :| PrintRun(s, j) == t;
    var k: nat :| PrintRun(t, k) == u;
    PrintMore(s, j, k);
  }

  lemma PrintOne(p: Printer)
    ensures PrintReaches(Prints(p), PrintStep(p))
  {
    assert PrintRun(Prints(p), 1) == PrintRun(PrintStep(p), 0);
  }

  // The printer puts out the text of a datum and goes back to what was saved.
  lemma {:induction false} Joined(a: Chars, b: Chars, c: Chars)
    ensures a + b + c == a + (b + c)
  {
  }

  lemma {:induction false} PrinterPrints(d: Datum, dump: seq<Datum>, out: Chars)
    ensures PrintReaches(Prints(Printer(P0, d, dump, out)), PrintReturn(dump, out + Text(d)))
    decreases d, 0
  {
    hide PrintReaches;
    var p := Printer(P0, d, dump, out);
    PrintOne(p);
    if d.Pair? {
      if Abbreviated(d) {
        PrinterPrints(d.cdr.car, dump, out + Prefix(d.car));
        Joined(out, Prefix(d.car), Text(d.cdr.car));
      } else {
        PrinterPrints(d.car, [d.cdr] + dump, out + [LPAREN]);
        TailPrints(d.cdr, dump, out + [LPAREN] + Text(d.car));
        Joined(out, [LPAREN] + Text(d.car), TailText(d.cdr));
        Joined(out, [LPAREN], Text(d.car));
        PrintThen(PrintStep(p), Prints(Printer(P1, d.cdr, dump, out + [LPAREN] + Text(d.car))),
                  PrintReturn(dump, out + Text(d)));
      }
      PrintThen(Prints(p), PrintStep(p), PrintReturn(dump, out + Text(d)));
    }
  }

  lemma {:induction false} TailPrints(d: Datum, dump: seq<Datum>, out: Chars)
    ensures PrintReaches(Prints(Printer(P1, d, dump, out)), PrintReturn(dump, out + TailText(d)))
    decreases d, 1
  {
    hide PrintReaches;
    var p := Printer(P1, d, dump, out);
    PrintOne(p);
    if d.Pair? {
      PrinterPrints(d.car, [d.cdr] + dump, out + [SPACE]);
      TailPrints(d.cdr, dump, out + [SPACE] + Text(d.car));
      Joined(out, [SPACE] + Text(d.car), TailText(d.cdr));
      Joined(out, [SPACE], Text(d.car));
      PrintThen(PrintStep(p), Prints(Printer(P1, d.cdr, dump, out + [SPACE] + Text(d.car))),
                PrintReturn(dump, out + TailText(d)));
      PrintThen(Prints(p), PrintStep(p), PrintReturn(dump, out + TailText(d)));
    }
  }
}
