/** What a Scheme expression means: a recursive evaluator without stack or registers. */
module BigStep {
  import opened SchemeData

  // Outside: the program reads the parts of an atom or uses a form that is not part of this model.
  datatype Reason = Unbound | NotEnoughArguments | NotASymbol | NotAFunction
                  | BadLet | Immutable | BadArgument | Outside

  // height is the number of pending operations that the evaluation needed at most.
  datatype Outcome = Value(v: Datum, frames: Frames, height: nat) | Fails(reason: Reason) | Timeout

  // What a primitive procedure returns for a list of arguments, if it accepts them.
  datatype Result = Returns(v: Datum) | Rejects
  type Prims = (nat, Datum) -> Result

  datatype Form = FQuote | FLambda | FIf | FBegin | FDefine | FSet | FLet | FAnd | FOr | FOther

  predicate IsKeyword(d: Datum) {
    d.Sym? && d.name in {"quote", "lambda", "if", "begin", "define", "set!", "let", "and", "or",
                         "let*", "letrec", "cond", "delay", "cons-stream", "macro", "case"}
  }

  function FormOf(d: Datum): Form
    requires IsKeyword(d)
  {
    if d.name == "quote" then FQuote else if d.name == "lambda" then FLambda
    else if d.name == "if" then FIf else if d.name == "begin" then FBegin
    else if d.name == "define" then FDefine else if d.name == "set!" then FSet
    else if d.name == "let" then FLet else if d.name == "and" then FAnd
    else if d.name == "or" then FOr else FOther
  }

  const LAMBDA: Datum := Sym("lambda")
  const HOOK: Datum := Sym("*compile-hook*")

  predicate Truth(d: Datum) {
    d != F
  }

  function Max(a: nat, b: nat): nat {
    if a < b then b else a
  }

  // The outcome of a computation that goes on after one that has reached the height h.
  function After(h: nat, o: Outcome): Outcome {
    match o
    case Value(v, frames, height) => Value(v, frames, Max(h, height))
    case _ => o
  }

  // ---------- binding ----------

  datatype Binding = Bound(slots: seq<Slot>) | Bad(reason: Reason)

  // The formals x bound to the arguments y: one each, the rest to a symbol in the end position;
  // arguments that are left over without one are ignored.
  function BindFormals(x: Datum, y: Datum, slots: seq<Slot>): Binding {
    if x.Pair? then
      if y.Pair? then BindFormals(x.cdr, y.cdr, [Slot(x.car, y.car)] + slots) else Bad(NotEnoughArguments)
    else if x.Nil? then Bound(slots)
    else if x.Sym? then Bound([Slot(x, y)] + slots)
    else Bad(NotASymbol)
  }

  // The names of the let bindings x bound to the values y.
  function BindNames(x: Datum, y: Datum, slots: seq<Slot>): seq<Slot>
    decreases y
  {
    if y.Pair? then BindNames(Cdr(x), y.cdr, [Slot(Car(Car(x)), y.car)] + slots) else slots
  }

  // The names of the bindings of a named let, as a list of formals.
  datatype Names = Names(formals: Datum) | NoNames

  function NamesOf(x: Datum): Names {
    if x.Nil? then Names(Nil)
    else if !x.Pair? || !IsList(x.car) then NoNames
    else
      match NamesOf(x.cdr)
      case Names(rest) => Names(Pair(Car(x.car), rest))
      case NoNames => NoNames
  }

  // The variable and the value expression of a definition.
  datatype Definition = Definition(name: Datum, expr: Datum) | NoDefinition(reason: Reason)

  function DefinitionOf(code: Datum): Definition {
    if !HasCar(code) then NoDefinition(Outside)
    else if Car(code).Str? then NoDefinition(Immutable)
    else if Car(code).Pair? then
      var x := code.car;
      if x.car.Sym? then Definition(x.car, Pair(LAMBDA, Pair(x.cdr, code.cdr))) else NoDefinition(NotASymbol)
    else if !HasCar(Cdr(code)) then NoDefinition(Outside)
    else if Car(code).Sym? then Definition(code.car, Car(Cdr(code)))
    else NoDefinition(NotASymbol)
  }

  // ---------- evaluation, to the depth n ----------

  function Eval(prims: Prims, n: nat, e: Datum, env: nat, frames: Frames): Outcome
    decreases n
  {
    if n == 0 then Timeout
    else
      match e
      case Sym(_) =>
        var p := Find(frames, env, e, true);
        if p.At? then Value(ValueIn(frames, p), frames, 0) else Fails(Unbound)
      case Pair(x, rest) =>
        if IsKeyword(x) then Special(prims, n - 1, FormOf(x), rest, env, frames)
        else
          var f := Eval(prims, n - 1, x, env, frames);
          if !f.Value? then f
          else
            var args := EvalAll(prims, n - 1, rest, env, f.frames);
            if !args.Value? then args
            else After(Max(f.height + 1, args.height), Apply(prims, n - 1, f.v, args.v, args.frames))
      case _ => Value(e, frames, 0)
  }

  // The values of a list of operands, from left to right.
  function EvalAll(prims: Prims, n: nat, code: Datum, env: nat, frames: Frames): Outcome
    decreases n
  {
    if n == 0 then Timeout
    else if !code.Pair? then Value(Nil, frames, 0)
    else
      var x := Eval(prims, n - 1, code.car, env, frames);
      if !x.Value? then x
      else
        var rest := EvalAll(prims, n - 1, code.cdr, env, x.frames);
        if !rest.Value? then rest
        else Value(Pair(x.v, rest.v), rest.frames, Max(x.height + 1, rest.height))
  }

  function Apply(prims: Prims, n: nat, f: Datum, args: Datum, frames: Frames): Outcome
    decreases n
  {
    if n == 0 then Timeout
    else
      match f
      case Proc(id) =>
        (match prims(id, args)
         case Returns(v) => Value(v, frames, 0)
         case Rejects => Fails(BadArgument))
      case Closure(code, env) =>
        if !HasCar(code) then Fails(Outside)
        else
          (match BindFormals(Car(code), args, [])
           case Bad(r) => Fails(r)
           case Bound(slots) => Body(prims, n - 1, Cdr(code), |frames| + 1, frames + [Frame(slots, env)]))
      case _ => Fails(NotAFunction)
  }

  // A sequence of expressions; its value is that of the last one.
  function Body(prims: Prims, n: nat, code: Datum, env: nat, frames: Frames): Outcome
    decreases n, 0
  {
    if n == 0 then Timeout
    else if !code.Pair? then Value(code, frames, 0)
    else if code.cdr.Nil? then Eval(prims, n - 1, code.car, env, frames)
    else
      var x := Eval(prims, n - 1, code.car, env, frames);
      if !x.Value? then x else After(x.height + 1, Body(prims, n - 1, code.cdr, env, x.frames))
  }

  // The values of the let bindings.
  function Inits(prims: Prims, n: nat, code: Datum, env: nat, frames: Frames): Outcome
    decreases n
  {
    if n == 0 then Timeout
    else if !code.Pair? then Value(Nil, frames, 0)
    else if !code.car.Pair? || !code.car.cdr.Pair? then Fails(BadLet)
    else
      var x := Eval(prims, n - 1, code.car.cdr.car, env, frames);
      if !x.Value? then x
      else
        var rest := Inits(prims, n - 1, code.cdr, env, x.frames);
        if !rest.Value? then rest
        else Value(Pair(x.v, rest.v), rest.frames, Max(x.height + 1, rest.height))
  }

  // and (sense true): the first false value or the last value; or (sense false): the first true one.
  function Chain(prims: Prims, n: nat, sense: bool, code: Datum, env: nat, frames: Frames): Outcome
    decreases n, 0
  {
    if n == 0 then Timeout
    else if !code.Pair? then Fails(Outside)
    else
      var x := Eval(prims, n - 1, code.car, env, frames);
      if !x.Value? then x
      else if Truth(x.v) != sense || code.cdr.Nil? then Value(x.v, x.frames, x.height + 1)
      else After(x.height + 1, Chain(prims, n - 1, sense, code.cdr, env, x.frames))
  }

  function LetBindings(code: Datum): Datum {
    if Car(code).Sym? then Car(Cdr(code)) else Car(code)
  }

  // let with its bindings evaluated: a new frame, holding also the procedure if the let is named.
  function LetBody(prims: Prims, n: nat, code: Datum, vals: Datum, env: nat, frames: Frames): Outcome
    requires HasCar(code)
    decreases n
  {
    if n == 0 then Timeout
    else
      var slots := BindNames(LetBindings(code), vals, []);
      if !Car(code).Sym? then Body(prims, n - 1, Cdr(code), |frames| + 1, frames + [Frame(slots, env)])
      else
        match NamesOf(LetBindings(code))
        case NoNames => Fails(BadLet)
        case Names(formals) =>
          var loop := Closure(Pair(formals, Cdr(Cdr(code))), |frames| + 1);
          Body(prims, n - 1, Cdr(Cdr(code)), |frames| + 1, frames + [Frame([Slot(code.car, loop)] + slots, env)])
  }

  function Special(prims: Prims, n: nat, form: Form, code: Datum, env: nat, frames: Frames): Outcome
    decreases n, 1
  {
    if n == 0 then Timeout
    else
      match form
      case FQuote => if HasCar(code) then Value(Car(code), frames, 0) else Fails(Outside)
      case FLambda =>
        if Find(frames, env, HOOK, true).At? then Fails(Outside) else Value(Closure(code, env), frames, 0)
      case FIf =>
        if !HasCar(code) then Fails(Outside)
        else
          var x := Eval(prims, n - 1, Car(code), env, frames);
          if !x.Value? then x
          else if Truth(x.v) then
            if HasCar(Cdr(code)) then After(x.height + 1, Eval(prims, n - 1, Car(Cdr(code)), env, x.frames))
               else Fails(Outside)
          else if HasCar(Cdr(code)) && HasCar(Cdr(Cdr(code))) then
            After(x.height + 1, Eval(prims, n - 1, Car(Cdr(Cdr(code))), env, x.frames))
          else Fails(Outside)
      case FBegin => Body(prims, n, code, env, frames)
      case FDefine =>
        (match DefinitionOf(code)
         case NoDefinition(r) => Fails(r)
         case Definition(name, expr) =>
           var x := Eval(prims, n - 1, expr, env, frames);
           if x.Value? then Value(name, Define(x.frames, env, name, x.v), x.height + 1) else x)
      case FSet =>
        if !HasCar(code) then Fails(Outside)
        else if Car(code).Str? then Fails(Immutable)
        else if !HasCar(Cdr(code)) then Fails(Outside)
        else
          var x := Eval(prims, n - 1, Car(Cdr(code)), env, frames);
          if !x.Value? then x
          else if !Car(code).Sym? then Fails(Outside)
          else
            var p := Find(x.frames, env, Car(code), true);
            if p.At? then Value(x.v, SetSlot(x.frames, p, x.v), x.height + 1) else Fails(Unbound)
      case FLet =>
        if !HasCar(code) || (Car(code).Sym? && !HasCar(Cdr(code))) then Fails(Outside)
        else
          var vals := Inits(prims, n - 1, LetBindings(code), env, frames);
          if !vals.Value? then vals
          else After(vals.height, LetBody(prims, n - 1, code, vals.v, env, vals.frames))
      case FAnd => if code.Nil? then Value(T, frames, 0) else Chain(prims, n, true, code, env, frames)
      case FOr => if code.Nil? then Value(F, frames, 0) else Chain(prims, n, false, code, env, frames)
      case FOther => Fails(Outside)
  }
}
