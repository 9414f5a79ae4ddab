/** The evaluator as a register machine with a dump stack. */
module Registers {
  import opened SchemeData
  import opened BigStep

  datatype Op = OpEval | OpE0Args | OpE1Args | OpApply | OpProc(id: nat) | OpLambda | OpQuote | OpDef0 | OpDef1
              | OpSet0 | OpSet1 | OpBegin | OpIf0 | OpIf1 | OpLet0 | OpLet1 | OpLet2
               | OpAnd0 | OpAnd1 | OpOr0 | OpOr1 | OpOther

  // What s_save puts on the dump.
  datatype Saved = Saved(op: Op, args: Datum, envir: nat, code: Datum)

  datatype Machine = Machine(op: Op, args: Datum, envir: nat, code: Datum, value: Datum, dump: seq<Saved>,
                             frames: Frames)

  datatype Status = Go(m: Machine) | Halt(v: Datum, frames: Frames) | Stop(reason: Reason)

  // s_save
  function Save(dump: seq<Saved>, op: Op, args: Datum, envir: nat, code: Datum): seq<Saved> {
    [Saved(op, args, envir, code)] + dump
  }

  // s_return: what was saved last goes on with the value v.
  function Return(dump: seq<Saved>, v: Datum, frames: Frames): Status {
    if dump == [] then Halt(v, frames)
    else Go(Machine(dump[0].op, dump[0].args, dump[0].envir, dump[0].code, v, dump[1..], frames))
  }

  function OpOf(form: Form): Op {
    match form
    case FQuote => OpQuote
    case FLambda => OpLambda
    case FIf => OpIf0
    case FBegin => OpBegin
    case FDefine => OpDef0
    case FSet => OpSet0
    case FLet => OpLet0
    case FAnd => OpAnd0
    case FOr => OpOr0
    case FOther => OpOther
  }

  // s_save followed by evaluating e.
  function SaveEval(m: Machine, op: Op, args: Datum, code: Datum, e: Datum): Status {
    Go(m.(op := OpEval, args := Nil, code := e, dump := Save(m.dump, op, args, m.envir, code)))
  }

  function StepEval(m: Machine): Status {
    match m.code
    case Sym(_) =>
      var p := Find(m.frames, m.envir, m.code, true);
      if p.At? then Return(m.dump, ValueIn(m.frames, p), m.frames) else Stop(Unbound)
    case Pair(x, rest) =>
      if IsKeyword(x) then Go(m.(op := OpOf(FormOf(x)), code := rest))
      else Go(m.(code := x, dump := Save(m.dump, OpE0Args, Nil, m.envir, m.code)))
    case _ => Return(m.dump, m.code, m.frames)
  }

  // Collecting values in args, last first; at the end the list is turned round and split.
  function Collected(m: Machine, op: Op): Status {
    var all := RevOnto(Pair(m.value, m.args), Nil);
    Go(m.(op := op, code := Car(all), args := Cdr(all)))
  }

  function StepE1Args(m: Machine): Status {
    if m.code.Pair? then SaveEval(m, OpE1Args, Pair(m.value, m.args), m.code.cdr, m.code.car) else Collected(m, OpApply)
  }

  function StepApply(m: Machine): Status {
    match m.code
    case Proc(id) => Go(m.(op := OpProc(id)))
    case Closure(code, env) =>
      if !HasCar(code) then Stop(Outside)
      else
        (match BindFormals(Car(code), m.args, [])
         case Bad(r) => Stop(r)
         case Bound(slots) =>
           Go(m.(op := OpBegin, args := Nil, code := Cdr(code), envir := |m.frames| + 1,
                 frames := m.frames + [Frame(slots, env)])))
    case _ => Stop(NotAFunction)
  }

  function StepDef0(m: Machine): Status {
    match DefinitionOf(m.code)
    case NoDefinition(r) => Stop(r)
    case Definition(name, expr) => Go(m.(op := OpEval, code := expr, dump := Save(m.dump, OpDef1, Nil, m.envir, name)))
  }

  function StepSet0(m: Machine): Status {
    if !HasCar(m.code) then Stop(Outside)
    else if Car(m.code).Str? then Stop(Immutable)
    else if !HasCar(Cdr(m.code)) then Stop(Outside)
    else Go(m.(op := OpEval, code := Car(Cdr(m.code)), dump := Save(m.dump, OpSet1, Nil, m.envir, Car(m.code))))
  }

  function StepSet1(m: Machine): Status {
    if !m.code.Sym? then Stop(Outside)
    else
      var p := Find(m.frames, m.envir, m.code, true);
      if p.At? then Return(m.dump, m.value, SetSlot(m.frames, p, m.value)) else Stop(Unbound)
  }

  function StepBegin(m: Machine): Status {
    if !m.code.Pair? then Return(m.dump, m.code, m.frames)
    else Go(m.(op := OpEval, code := m.code.car,
               dump := if m.code.cdr.Nil? then m.dump else Save(m.dump, OpBegin, Nil, m.envir, m.code.cdr)))
  }

  function StepIf0(m: Machine): Status {
    if !HasCar(m.code) then Stop(Outside)
    else Go(m.(op := OpEval, code := Car(m.code), dump := Save(m.dump, OpIf1, Nil, m.envir, Cdr(m.code))))
  }

  function StepIf1(m: Machine): Status {
    if Truth(m.value) then
      if HasCar(m.code) then Go(m.(op := OpEval, code := Car(m.code))) else Stop(Outside)
    else if HasCar(m.code) && HasCar(Cdr(m.code)) then Go(m.(op := OpEval, code := Car(Cdr(m.code))))
    else Stop(Outside)
  }

  function StepLet0(m: Machine): Status {
    if !HasCar(m.code) || (Car(m.code).Sym? && !HasCar(Cdr(m.code))) then Stop(Outside)
    else Go(m.(op := OpLet1, args := Nil, value := m.code, code := LetBindings(m.code)))
  }

  function StepLet1(m: Machine): Status {
    if !m.code.Pair? then Collected(m, OpLet2)
    else if !m.code.car.Pair? || !m.code.car.cdr.Pair? then Stop(BadLet)
    else SaveEval(m, OpLet1, Pair(m.value, m.args), m.code.cdr, m.code.car.cdr.car)
  }

  function StepLet2(m: Machine): Status {
    var slots := BindNames(LetBindings(m.code), m.args, []);
    var env := |m.frames| + 1;
    if !Car(m.code).Sym? then
      Go(m.(op := OpBegin, args := Nil, code := Cdr(m.code), envir := env,
            frames := m.frames + [Frame(slots, m.envir)]))
    else
      match NamesOf(LetBindings(m.code))
      case NoNames => Stop(BadLet)
      case Names(formals) =>
        var loop := Closure(Pair(formals, Cdr(Cdr(m.code))), env);
        Go(m.(op := OpBegin, args := Nil, code := Cdr(Cdr(m.code)), envir := env,
              frames := m.frames + [Frame([Slot(Car(m.code), loop)] + slots, m.envir)]))
  }

  // The next expression of an and or an or.
  function ChainNext(m: Machine, op: Op): Status {
    if !m.code.Pair? then Stop(Outside)
    else Go(m.(op := OpEval, code := m.code.car, dump := Save(m.dump, op, Nil, m.envir, m.code.cdr)))
  }

  function StepChain0(m: Machine, sense: bool): Status {
    if m.code.Nil? then Return(m.dump, if sense then T else F, m.frames)
       else ChainNext(m, if sense then OpAnd1 else OpOr1)
  }

  function StepChain1(m: Machine, sense: bool): Status {
    if Truth(m.value) != sense || m.code.Nil? then Return(m.dump, m.value, m.frames)
    else ChainNext(m, if sense then OpAnd1 else OpOr1)
  }

  // One round of the evaluation cycle.
  function Step(prims: Prims, m: Machine): Status {
    match m.op
    case OpEval => StepEval(m)
    case OpE0Args => Go(m.(op := OpE1Args, code := Cdr(m.code)))
    case OpE1Args => StepE1Args(m)
    case OpApply => StepApply(m)
    case OpProc(id) =>
      (match prims(id, m.args)
       case Returns(v) => Return(m.dump, v, m.frames)
       case Rejects => Stop(BadArgument))
    case OpLambda =>
      if Find(m.frames, m.envir, HOOK, true).At? then Stop(Outside)
         else Return(m.dump, Closure(m.code, m.envir), m.frames)
    case OpQuote => if HasCar(m.code) then Return(m.dump, Car(m.code), m.frames) else Stop(Outside)
    case OpDef0 => StepDef0(m)
    case OpDef1 => Return(m.dump, m.code, Define(m.frames, m.envir, m.code, m.value))
    case OpSet0 => StepSet0(m)
    case OpSet1 => StepSet1(m)
    case OpBegin => StepBegin(m)
    case OpIf0 => StepIf0(m)
    case OpIf1 => StepIf1(m)
    case OpLet0 => StepLet0(m)
    case OpLet1 => StepLet1(m)
    case OpLet2 => StepLet2(m)
    case OpAnd0 => StepChain0(m, true)
    case OpAnd1 => StepChain1(m, true)
    case OpOr0 => StepChain0(m, false)
    case OpOr1 => StepChain1(m, false)
    case OpOther => Stop(Outside)
  }

  function Next(prims: Prims, s: Status): Status {
    if s.Go? then Step(prims, s.m) else s
  }

  function Run(prims: Prims, s: Status, k: nat): Status
    decreases k
  {
    if k == 0 then s else Run(prims, Next(prims, s), k - 1)
  }

  // The greatest height of the dump in the first k states from s on.
  function Peak(prims: Prims, s: Status, k: nat): nat
    decreases k
  {
    if k == 0 || !s.Go? then 0 else Max(|s.m.dump|, Peak(prims, Next(prims, s), k - 1))
  }

  // In one or more steps the machine gets from s to t, and the dump grows to exactly the height h.
  ghost predicate Leads(prims: Prims, s: Status, t: Status, h: nat) {
    s.Go? && exists k: nat :: k > 0 && Run(prims, s, k) == t && Peak(prims, s, k) == h
  }

  lemma {:induction false} RunMore(prims: Prims, s: Status, j: nat, k: nat)
    ensures Run(prims, s, j + k) == Run(prims, Run(prims, s, j), k)
    ensures Peak(prims, s, j + k) == Max(Peak(prims, s, j), Peak(prims, Run(prims, s, j), k))
    decreases j
  {
    if j > 0 {
      RunMore(prims, Next(prims, s), j - 1, k);
      if !s.Go? {
        NoMore(prims, s, j);
        NoMore(prims, s, k);
        NoMore(prims, s, j + k);
      }
    }
  }

  lemma {:induction false} NoMore(prims: Prims, s: Status, k: nat)
    requires !s.Go?
    ensures Run(prims, s, k) == s && Peak(prims, s, k) == 0
  {
    if k > 0 {
      NoMore(prims, s, k - 1);
    }
  }

  lemma OneStep(prims: Prims, m: Machine)
    ensures Leads(prims, Go(m), Step(prims, m), |m.dump|)
  {
    assert Run(prims, Go(m), 1) == Run(prims, Step(prims, m), 0);
    assert Peak(prims, Go(m), 1) == Max(|m.dump|, Peak(prims, Step(prims, m), 0));
  }

  lemma LeadsThen(prims: Prims, s: Status, t: Status, u: Status, g: nat, h: nat)
    requires Leads(prims, s, t, g) && Leads(prims, t, u, h)
    ensures Leads(prims, s, u, Max(g, h))
  {
    var j: nat :| j > 0 && Run(prims, s, j) == t && Peak(prims, s, j) == g;
    var k: nat :| k > 0 && Run(prims, t, k) == u && Peak(prims, t, k) == h;
    RunMore(prims, s, j, k);
  }

  // It is the greatest one.
  lemma {:induction false} PeakIs(prims: Prims, s: Status, k: nat)
    ensures forall i: nat :: i < k && Run(prims, s, i).Go? ==> |Run(prims, s, i).m.dump| <= Peak(prims, s, k)
    ensures k > 0 && s.Go? ==>
              exists i: nat :: i < k && Run(prims, s, i).Go? && |Run(prims, s, i).m.dump| == Peak(prims, s, k)
    decreases k
  {
    if k > 0 && s.Go? {
      var t := Next(prims, s);
      PeakIs(prims, t, k - 1);
      assert Run(prims, s, 0) == s;
      forall i: nat | i < k && Run(prims, s, i).Go? ensures |Run(prims, s, i).m.dump| <= Peak(prims, s, k) {
        assert i > 0 ==> Run(prims, s, i) == Run(prims, t, i - 1);
      }
      if |s.m.dump| < Peak(prims, s, k) {
        var j: nat :| j < k - 1 && Run(prims, t, j).Go? && |Run(prims, t, j).m.dump| == Peak(prims, t, k - 1);
        assert Run(prims, s, j + 1) == Run(prims, t, j);
      }
    } else {
      forall i: nat | i < k ensures !Run(prims, s, i).Go? {
        NoMore(prims, s, i);
      }
    }
  }

  // A run that still goes on after k steps goes on after fewer.
  lemma StillGoing(prims: Prims, s: Status, j: nat, k: nat)
    requires j <= k && Run(prims, s, k).Go?
    ensures Run(prims, s, j).Go?
  {
    RunMore(prims, s, j, k - j);
    if !Run(prims, s, j).Go? {
      NoMore(prims, Run(prims, s, j), k - j);
    }
  }
}
