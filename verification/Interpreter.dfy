/** The interpreter object: its registers, and the evaluation cycle that works on them in place. */
module Interpreter {
  import opened SchemeData
  import opened BigStep
  import opened Registers
  import opened Agreement
  import opened Evaluation
  import opened WellScoped

  // How a round of the cycle ends: go on, finished with a value, or an error.
  datatype Signal = More | Finished | Raised(reason: Reason)

  class Scheme {
    const prims: Prims
    var op: Op
    var args: Datum
    var envir: nat
    var code: Datum
    var value: Datum
    var dump: seq<Saved>
    var frames: Frames

    constructor (prims: Prims, code: Datum, envir: nat, frames: Frames)
      ensures this.prims == prims && State() == Machine(OpEval, Nil, envir, code, Nil, [], frames)
    {
      this.prims, this.op, this.args, this.envir := prims, OpEval, Nil, envir;
      this.code, this.value, this.dump, this.frames := code, Nil, [], frames;
    }

    function State(): Machine
      reads this
    {
      Machine(op, args, envir, code, value, dump, frames)
    }

    // The registers are in the status s, as the signal says.
    ghost predicate Is(r: Signal, s: Status)
      reads this
    {
      match s
      case Go(m) => r == More && State() == m
      case Halt(v, f) => r == Finished && value == v && frames == f
      case Stop(reason) => r == Raised(reason)
    }

    method FindSlotInEnv(env: nat, hdl: Datum, all: bool) returns (p: Place)
      requires Nested(frames) && env <= |frames|
      ensures p == Find(frames, env, hdl, all)
    {
      var x: nat := env;
      while x != 0
        invariant x <= env && Find(frames, env, hdl, all) == Find(frames, x, hdl, all)
        decreases x
      {
        var slots := frames[x - 1].slots;
        var y := 0;
        while y < |slots| && slots[y].key != hdl
          invariant y <= |slots| && SlotOf(slots, hdl, 0) == SlotOf(slots, hdl, y)
        {
          y := y + 1;
        }
        if y < |slots| {
          return At(x, y);
        }
        if !all {
          return Nowhere;
        }
        x := frames[x - 1].parent;
      }
      return Nowhere;
    }

    method NewFrameInEnv(oldEnv: nat)
      modifies this
      ensures State() == old(State()).(envir := old(|frames|) + 1, frames := old(frames) + [Frame([], oldEnv)])
    {
      frames := frames + [Frame([], oldEnv)];
      envir := |frames|;
    }

    method NewSlotInEnv(variable: Datum, v: Datum)
      modifies this
      ensures State() == old(State()).(frames := AddSlot(old(frames), envir, variable, v))
    {
      frames := AddSlot(frames, envir, variable, v);
    }

    method SSave(op0: Op, args0: Datum, code0: Datum)
      modifies this
      ensures State() == old(State()).(dump := Save(old(dump), op0, args0, envir, code0))
    {
      dump := Save(dump, op0, args0, envir, code0);
    }

    method SReturn(a: Datum) returns (r: Signal)
      modifies this
      ensures Is(r, Return(old(dump), a, old(frames)))
    {
      value := a;
      if dump == [] {
        return Finished;
      }
      op, args, envir, code := dump[0].op, dump[0].args, dump[0].envir, dump[0].code;
      dump := dump[1..];
      return More;
    }

    method ReverseInPlace(term: Datum, list: Datum) returns (result: Datum)
      ensures result == RevOnto(list, term)
    {
      var p := list;
      result := term;
      while p.Pair?
        invariant RevOnto(p, result) == RevOnto(list, term)
        decreases p
      {
        p, result := p.cdr, Pair(p.car, result);
      }
    }

    method EvalOp() returns (r: Signal)
      requires Nested(frames) && envir <= |frames|
      modifies this
      ensures Is(r, StepEval(old(State())))
    {
      if code.Sym? {
        var x := FindSlotInEnv(envir, code, true);
        if x == Nowhere {
          return Raised(Unbound);
        }
        r := SReturn(ValueIn(frames, x));
      } else if code.Pair? {
        var x := code.car;
        if IsKeyword(x) {
          op, code := OpOf(FormOf(x)), code.cdr;
        } else {
          SSave(OpE0Args, Nil, code);
          code := code.car;
        }
        return More;
      } else {
        r := SReturn(code);
      }
    }

    // The end of a list of operands or of let bindings.
    method Collect(next: Op) returns (r: Signal)
      modifies this
      ensures Is(r, Collected(old(State()), next))
    {
      args := ReverseInPlace(Nil, Pair(value, args));
      code, args := Car(args), Cdr(args);
      op := next;
      return More;
    }

    method ArgsOp() returns (r: Signal)
      modifies this
      ensures Is(r, StepE1Args(old(State())))
    {
      if !code.Pair? {
        r := Collect(OpApply);
        return;
      }
      args := Pair(value, args);
      SSave(OpE1Args, args, code.cdr);
      op, code, args := OpEval, code.car, Nil;
      return More;
    }

    // Binding the formals of a procedure in the frame just made for its call.
    method BindArguments(formals: Datum) returns (bad: Signal)
      requires frames != [] && envir == |frames| && frames[envir - 1].slots == []
      modifies `frames
      ensures match BindFormals(formals, args, [])
              case Bound(slots) => bad == More
                                   && frames == old(frames)[envir - 1 := Frame(slots, old(frames)[envir - 1].parent)]
              case Bad(reason) => bad == Raised(reason)
    {
      var x, y := formals, args;
      while x.Pair?
        invariant |frames| == old(|frames|)
                  && frames == old(frames)[envir - 1 := Frame(frames[envir - 1].slots, old(frames)[envir - 1].parent)]
        invariant BindFormals(formals, args, []) == BindFormals(x, y, frames[envir - 1].slots)
        decreases x
      {
        if !y.Pair? {
          return Raised(NotEnoughArguments);
        }
        frames := AddSlot(frames, envir, x.car, y.car);
        x, y := x.cdr, y.cdr;
      }
      if x.Sym? {
        frames := AddSlot(frames, envir, x, y);
      } else if !x.Nil? {
        return Raised(NotASymbol);
      }
      return More;
    }

    method ApplyOp() returns (r: Signal)
      modifies this
      ensures Is(r, StepApply(old(State())))
    {
      match code {
        case Proc(id) =>
          op := OpProc(id);
          return More;
        case Closure(body, env) =>
          if !HasCar(body) {
            return Raised(Outside);
          }
          NewFrameInEnv(env);
          r := BindArguments(Car(body));
          if r == More {
            op, args, code := OpBegin, Nil, Cdr(body);
          }
        case _ =>
          return Raised(NotAFunction);
      }
    }

    method DefineOp() returns (r: Signal)
      modifies this
      ensures Is(r, StepDef0(old(State())))
    {
      if !HasCar(code) {
        return Raised(Outside);
      }
      if Car(code).Str? {
        return Raised(Immutable);
      }
      var x;
      var expr;
      if Car(code).Pair? {
        x := code.car.car;
        expr := Pair(LAMBDA, Pair(code.car.cdr, code.cdr));
      } else {
        if !HasCar(Cdr(code)) {
          return Raised(Outside);
        }
        x := Car(code);
        expr := Car(Cdr(code));
      }
      if !x.Sym? {
        return Raised(NotASymbol);
      }
      code := expr;
      SSave(OpDef1, Nil, x);
      op := OpEval;
      return More;
    }

    method DefineEndOp() returns (r: Signal)
      requires Nested(frames) && envir <= |frames|
      modifies this
      ensures Is(r, Return(old(dump), old(code), Define(old(frames), old(envir), old(code), old(value))))
    {
      var x := FindSlotInEnv(envir, code, false);
      if x != Nowhere {
        frames := SetSlot(frames, x, value);
      } else {
        NewSlotInEnv(code, value);
      }
      r := SReturn(code);
    }

    method SetOp() returns (r: Signal)
      modifies this
      ensures Is(r, StepSet0(old(State())))
    {
      if !HasCar(code) {
        return Raised(Outside);
      }
      if Car(code).Str? {
        return Raised(Immutable);
      }
      if !HasCar(Cdr(code)) {
        return Raised(Outside);
      }
      SSave(OpSet1, Nil, Car(code));
      op, code := OpEval, Car(Cdr(code));
      return More;
    }

    method SetEndOp() returns (r: Signal)
      requires Nested(frames) && envir <= |frames|
      modifies this
      ensures Is(r, StepSet1(old(State())))
    {
      if !code.Sym? {
        return Raised(Outside);
      }
      var y := FindSlotInEnv(envir, code, true);
      if y == Nowhere {
        return Raised(Unbound);
      }
      frames := SetSlot(frames, y, value);
      r := SReturn(value);
    }

    method BeginOp() returns (r: Signal)
      modifies this
      ensures Is(r, StepBegin(old(State())))
    {
      if !code.Pair? {
        r := SReturn(code);
        return;
      }
      if code.cdr != Nil {
        SSave(OpBegin, Nil, code.cdr);
      }
      op, code := OpEval, code.car;
      return More;
    }

    method IfOp() returns (r: Signal)
      modifies this
      ensures Is(r, StepIf0(old(State())))
    {
      if !HasCar(code) {
        return Raised(Outside);
      }
      SSave(OpIf1, Nil, Cdr(code));
      op, code := OpEval, Car(code);
      return More;
    }

    method IfEndOp() returns (r: Signal)
      modifies this
      ensures Is(r, StepIf1(old(State())))
    {
      if !HasCar(code) || (!Truth(value) && !HasCar(Cdr(code))) {
        return Raised(Outside);
      }
      code := if Truth(value) then Car(code) else Car(Cdr(code));
      op := OpEval;
      return More;
    }

    method LetOp() returns (r: Signal)
      modifies this
      ensures Is(r, StepLet0(old(State())))
    {
      if !HasCar(code) || (Car(code).Sym? && !HasCar(Cdr(code))) {
        return Raised(Outside);
      }
      args, value := Nil, code;
      code := if Car(code).Sym? then Car(Cdr(code)) else Car(code);
      op := OpLet1;
      return More;
    }

    method LetNextOp() returns (r: Signal)
      modifies this
      ensures Is(r, StepLet1(old(State())))
    {
      if !code.Pair? {
        r := Collect(OpLet2);
        return;
      }
      if !code.car.Pair? || !code.car.cdr.Pair? {
        return Raised(BadLet);
      }
      args := Pair(value, args);
      SSave(OpLet1, args, code.cdr);
      op, code, args := OpEval, code.car.cdr.car, Nil;
      return More;
    }

    // The values of a let in the frame just made for it.
    method BindValues(bindings: Datum)
      requires frames != [] && envir == |frames| && frames[envir - 1].slots == []
      modifies `frames
      ensures frames == old(frames)[envir - 1 := Frame(BindNames(bindings, args, []), old(frames)[envir - 1].parent)]
    {
      var x, y := bindings, args;
      while y.Pair?
        invariant |frames| == old(|frames|)
                  && frames == old(frames)[envir - 1 := Frame(frames[envir - 1].slots, old(frames)[envir - 1].parent)]
        invariant BindNames(bindings, args, []) == BindNames(x, y, frames[envir - 1].slots)
        decreases y
      {
        frames := AddSlot(frames, envir, Car(Car(x)), y.car);
        x, y := Cdr(x), y.cdr;
      }
    }

    // The formals of a named let, collected last first and turned round.
    method LoopFormals(bindings: Datum) returns (n: Names)
      ensures n == NamesOf(bindings)
    {
      var x, names := bindings, Nil;
      while x != Nil
        invariant match NamesOf(x)
                  case Names(rest) => NamesOf(bindings) == Names(RevOnto(names, rest))
                  case NoNames => NamesOf(bindings) == NoNames
        decreases x
      {
        if !x.Pair? || !IsList(x.car) {
          return NoNames;
        }
        names := Pair(Car(x.car), names);
        x := x.cdr;
      }
      var formals := ReverseInPlace(Nil, names);
      return Names(formals);
    }

    method LetEndOp() returns (r: Signal)
      modifies this
      ensures Is(r, StepLet2(old(State())))
    {
      NewFrameInEnv(envir);
      BindValues(LetBindings(code));
      if Car(code).Sym? {
        var n := LoopFormals(Car(Cdr(code)));
        if n == NoNames {
          return Raised(BadLet);
        }
        NewSlotInEnv(Car(code), Closure(Pair(n.formals, Cdr(Cdr(code))), envir));
        code := Cdr(Cdr(code));
      } else {
        code := Cdr(code);
      }
      args, op := Nil, OpBegin;
      return More;
    }

    method ChainOp(sense: bool, first: bool) returns (r: Signal)
      modifies this
      ensures Is(r, if first then StepChain0(old(State()), sense) else StepChain1(old(State()), sense))
    {
      if first && code.Nil? {
        r := SReturn(if sense then T else F);
        return;
      }
      if !first && (Truth(value) != sense || code.Nil?) {
        r := SReturn(value);
        return;
      }
      if !code.Pair? {
        return Raised(Outside);
      }
      SSave(if sense then OpAnd1 else OpOr1, Nil, code.cdr);
      op, code := OpEval, code.car;
      return More;
    }
 
    // The operations that only build or pass on a value.
    method SimpleOp() returns (r: Signal)
      requires Nested(frames) && envir <= |frames|
      requires op in {OpE0Args, OpLambda, OpQuote} || op.OpProc?
      modifies this
      ensures Is(r, Step(prims, old(State())))
    {
      match op {
        case OpE0Args =>
          op, code := OpE1Args, Cdr(code);
          return More;
        case OpLambda =>
          var f := FindSlotInEnv(envir, HOOK, true);
          if f != Nowhere {
            return Raised(Outside);
          }
          value := code;
          r := SReturn(Closure(value, envir));
        case OpQuote =>
          if !HasCar(code) {
            return Raised(Outside);
          }
          r := SReturn(Car(code));
        case OpProc(id) =>
          match prims(id, args) {
            case Returns(v) => r := SReturn(v);
            case Rejects => return Raised(BadArgument);
          }
      }
    }

    // One round of the cycle.
    method Opexe() returns (r: Signal)
      requires Nested(frames) && envir <= |frames|
      modifies this
      ensures Is(r, Step(prims, old(State())))
    {
      hide StepEval, StepE1Args, StepApply, StepDef0, StepSet0, StepSet1, StepBegin, StepIf0, StepIf1, StepLet0,
           StepLet1, StepLet2,
        StepChain0, StepChain1, Return, Find, Define, Is, Nested;
      match op {
        case OpEval => r := EvalOp();
        case OpE1Args => r := ArgsOp();
        case OpApply => r := ApplyOp();
        case OpDef0 => r := DefineOp();
        case OpDef1 => r := DefineEndOp();
        case OpSet0 => r := SetOp();
        case OpSet1 => r := SetEndOp();
        case OpBegin => r := BeginOp();
        case OpIf0 => r := IfOp();
        case OpIf1 => r := IfEndOp();
        case OpLet0 => r := LetOp();
        case OpLet1 => r := LetNextOp();
        case OpLet2 => r := LetEndOp();
        case OpAnd0 => r := ChainOp(true, true);
        case OpAnd1 => r := ChainOp(true, false);
        case OpOr0 => r := ChainOp(false, true);
        case OpOr1 => r := ChainOp(false, false);
        case OpOther => r := NoOp();
        case _ => r := SimpleOp();
      }
    }

    method NoOp() returns (r: Signal)
      ensures Is(r, Stop(Outside))
    {
      return Raised(Outside);
    }

    // The evaluation cycle; steps is how long it takes, if it ends at all.
    method EvalCycle(ghost steps: nat) returns (r: Signal)
      requires Good(State()) && PrimsGood(prims) && !Run(prims, Go(State()), steps).Go?
      modifies this
      ensures Is(r, Run(prims, Go(old(State())), steps))
    {
      hide Good, PrimsGood, Step, StatusGood;
      ghost var left := steps;
      r := More;
      while r == More
        invariant r == More ==> Good(State()) && left > 0
                                && Run(prims, Go(State()), left) == Run(prims, Go(old(State())), steps)
        invariant r != More ==> Is(r, Run(prims, Go(old(State())), steps))
        decreases left
      {
        Scoped(State());
        ghost var m := State();
        r := Opexe();
        CycleOn(prims, m, left);
        left := left - 1;
      }
    }

    lemma Scoped(m: Machine)
      requires Good(m)
      ensures Nested(m.frames) && m.envir <= |m.frames|
    {
    }

    // scheme_eval: if the evaluator has an answer at the depth n, this is it.
    method SchemeEval(expr: Datum, ghost n: nat) returns (r: Signal)
      requires Good(State()) && PrimsGood(prims) && Within(expr, |frames|)
      requires !Eval(prims, n, expr, envir, frames).Timeout?
      modifies this
      ensures match old(Eval(prims, n, expr, envir, frames))
              case Value(v, f, _) => r == Finished && value == v && frames == f
              case Fails(reason) => r == Raised(reason)
              case Timeout => false
    {
      op, args, code, dump := OpEval, Nil, expr, [];
      ghost var m := State();
      EvalAgrees(prims, n, m);
      ghost var steps := EndOf(prims, m, Eval(prims, n, expr, envir, frames), n);
      r := EvalCycle(steps);
    }
  }

  lemma CycleOn(prims: Prims, m: Machine, left: nat)
    requires Good(m) && PrimsGood(prims) && left > 0
    ensures Run(prims, Go(m), left) == Run(prims, Step(prims, m), left - 1)
    ensures Step(prims, m).Go? ==> Good(Step(prims, m).m)
    ensures !Step(prims, m).Go? ==> Run(prims, Go(m), left) == Step(prims, m)
  {
    StepGood(prims, m);
    if !Step(prims, m).Go? {
      NoMore(prims, Step(prims, m), left - 1);
    }
  }
}
