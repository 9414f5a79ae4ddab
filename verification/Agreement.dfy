/** The register machine computes what the recursive evaluator says, and nothing else. */
module Agreement {
  import opened SchemeData
  import opened BigStep
  import opened Registers

  // The machine in state m does what outcome o, reached at depth n, says: it gets to t, with the dump
  // growing to the height top; or it stops for the same reason; or it is still running after n steps.
  ghost predicate YieldsAt(prims: Prims, m: Machine, o: Outcome, n: nat, t: Status, top: nat) {
    match o
    case Value(_, _, _) => Leads(prims, Go(m), t, top)
    case Fails(r) => exists k: nat :: Run(prims, Go(m), k) == Stop(r)
    case Timeout => Run(prims, Go(m), n).Go?
  }

  function Height(o: Outcome): nat {
    if o.Value? then o.height else 0
  }

  // The state in which the evaluation that m begins hands over its value.
  function Back(m: Machine, o: Outcome): Status {
    if o.Value? then Return(m.dump, o.v, o.frames) else Go(m)
  }

  ghost predicate Agrees(prims: Prims, m: Machine, o: Outcome, n: nat) {
    YieldsAt(prims, m, o, n, Back(m, o), |m.dump| + Height(o))
  }

  // What u does, m does that leads to u.
  lemma Enter(prims: Prims, m: Machine, u: Machine, g: nat, o: Outcome, n: nat, t: Status, top: nat)
    requires n > 0 && Leads(prims, Go(m), Go(u), g) && YieldsAt(prims, u, o, n - 1, t, top)
    ensures YieldsAt(prims, m, o, n, t, Max(g, top))
  {
    match o
    case Value(_, _, _) => LeadsThen(prims, Go(m), Go(u), t, g, top);
    case Fails(r) => {
      var j: nat :| j > 0 && Run(prims, Go(m), j) == Go(u) && Peak(prims, Go(m), j) == g;
      var k: nat :| Run(prims, Go(u), k) == Stop(r);
      RunMore(prims, Go(m), j, k);
    }
    case Timeout => {
      var j: nat :| j > 0 && Run(prims, Go(m), j) == Go(u) && Peak(prims, Go(m), j) == g;
      RunMore(prims, Go(m), j, n - 1);
      StillGoing(prims, Go(m), n, j + (n - 1));
    }
  }

  // A step to an end.
  lemma Ends(prims: Prims, m: Machine, o: Outcome, n: nat)
    requires match o
             case Value(v, frames, h) => h == 0 && Step(prims, m) == Return(m.dump, v, frames)
             case Fails(r) => Step(prims, m) == Stop(r)
             case Timeout => n == 0
    ensures Agrees(prims, m, o, n)
  {
    OneStep(prims, m);
    assert o.Fails? ==> Run(prims, Go(m), 1) == Run(prims, Step(prims, m), 0);
  }

  // After a subexpression has failed or run on, so has the whole.
  lemma Broken(prims: Prims, m: Machine, u: Machine, g: nat, o: Outcome, n: nat)
    requires n > 0 && Leads(prims, Go(m), Go(u), g) && Agrees(prims, u, o, n - 1) && !o.Value?
    ensures Agrees(prims, m, o, n)
  {
    Enter(prims, m, u, g, o, n, Back(u, o), |u.dump| + Height(o));
  }

  // After a subexpression has its value, the machine is where that was saved.
  lemma Known(prims: Prims, m: Machine, u: Machine, g: nat, o: Outcome, n: nat)
    requires n > 0 && Leads(prims, Go(m), Go(u), g) && Agrees(prims, u, o, n - 1) && o.Value?
    ensures Leads(prims, Go(m), Return(u.dump, o.v, o.frames), Max(g, |u.dump| + o.height))
  {
    Enter(prims, m, u, g, o, n, Back(u, o), |u.dump| + Height(o));
  }

  // A computation that goes on in u with the same dump.
  lemma GoesOn(prims: Prims, m: Machine, u: Machine, g: nat, o: Outcome, n: nat)
    requires n > 0 && Leads(prims, Go(m), Go(u), |m.dump| + g) && Agrees(prims, u, o, n - 1) && u.dump == m.dump
    ensures Agrees(prims, m, After(g, o), n)
  {
    Enter(prims, m, u, |m.dump| + g, o, n, Back(u, o), |u.dump| + Height(o));
  }

  // From m the machine gets to u, which steps on.
  lemma StepOn(prims: Prims, m: Machine, u: Machine, g: nat)
    requires Leads(prims, Go(m), Go(u), g)
    ensures Leads(prims, Go(m), Step(prims, u), Max(g, |u.dump|))
  {
    OneStep(prims, u);
    LeadsThen(prims, Go(m), Go(u), Step(prims, u), g, |u.dump|);
  }

  // ---------- the forms ----------

  lemma {:induction false} EvalAgrees(prims: Prims, n: nat, m: Machine)
    requires m.op == OpEval
    ensures Agrees(prims, m, Eval(prims, n, m.code, m.envir, m.frames), n)
    decreases n
  {
    hide Leads, Agrees, Special, EvalAll, Apply, IsKeyword, FormOf;
    var o := Eval(prims, n, m.code, m.envir, m.frames);
    if n == 0 || !m.code.Pair? {
      Ends(prims, m, o, n);
    } else if IsKeyword(m.code.car) {
      OneStep(prims, m);
      var u := m.(op := OpOf(FormOf(m.code.car)), code := m.code.cdr);
      SpecialAgrees(prims, n - 1, u, FormOf(m.code.car));
      GoesOn(prims, m, u, 0, o, n);
    } else {
      CombinationAgrees(prims, n, m);
    }
  }

  lemma {:induction false} CombinationAgrees(prims: Prims, n: nat, m: Machine)
    requires n > 0 && m.op == OpEval && m.code.Pair? && !IsKeyword(m.code.car)
    ensures Agrees(prims, m, Eval(prims, n, m.code, m.envir, m.frames), n)
    decreases n, 0
  {
    hide Leads, Agrees, Special, EvalAll, Apply, IsKeyword, FormOf;
    OneStep(prims, m);
    var u := m.(code := m.code.car, dump := Save(m.dump, OpE0Args, Nil, m.envir, m.code));
    var f := Eval(prims, n - 1, u.code, m.envir, m.frames);
    EvalAgrees(prims, n - 1, u);
    if !f.Value? {
      Broken(prims, m, u, |m.dump|, f, n);
      return;
    }
    Known(prims, m, u, |m.dump|, f, n);
    var w := Machine(OpE0Args, Nil, m.envir, m.code, f.v, m.dump, f.frames);
    assert u.dump[1..] == m.dump;
    StepOn(prims, m, w, |m.dump| + f.height + 1);
    var x := w.(op := OpE1Args, code := m.code.cdr);
    var args := EvalAll(prims, n - 1, x.code, m.envir, f.frames);
    var y := EvalAllAgrees(prims, n - 1, x);
    Enter(prims, m, x, |m.dump| + f.height + 1, args, n, Go(y), |m.dump| + Height(args));
    if !args.Value? {
      Relay(prims, m, args, n, Go(y), Max(|m.dump| + f.height + 1, |m.dump| + Height(args)));
      return;
    }
    ApplyAgrees(prims, n - 1, y);
    GoesOn(prims, m, y, Max(f.height + 1, args.height), Apply(prims, n - 1, f.v, args.v, args.frames), n);
  }

  // A failure does not depend on the state aimed at.
  lemma Relay(prims: Prims, m: Machine, o: Outcome, n: nat, t: Status, top: nat)
    requires YieldsAt(prims, m, o, n, t, top) && !o.Value?
    ensures Agrees(prims, m, o, n)
  {
  }

  // The state in which a list of values has been collected behind the values in m.
  ghost predicate Gathered(m: Machine, y: Machine, o: Outcome, op: Op) {
    o.Value? ==> (var all := RevOnto(m.args, Pair(m.value, o.v));
                  && y.op == op && y.code == Car(all) && y.args == Cdr(all) && y.envir == m.envir && y.dump == m.dump
                  && y.frames == o.frames)
  }

  lemma {:induction false} EvalAllAgrees(prims: Prims, n: nat, m: Machine) returns (y: Machine)
    requires m.op == OpE1Args
    ensures (var o := EvalAll(prims, n, m.code, m.envir, m.frames);
             YieldsAt(prims, m, o, n, Go(y), |m.dump| + Height(o)) && Gathered(m, y, o, OpApply))
    decreases n
  {
    hide Leads, Agrees, Eval;
    y := m;
    OneStep(prims, m);
    if n > 0 {
      if !m.code.Pair? {
        y := Collected(m, OpApply).m;
      } else {
        var u := SaveEval(m, OpE1Args, Pair(m.value, m.args), m.code.cdr, m.code.car).m;
        var x := Eval(prims, n - 1, u.code, m.envir, m.frames);
        EvalAgrees(prims, n - 1, u);
        if !x.Value? {
          Broken(prims, m, u, |m.dump|, x, n);
          Unfold(prims, m, x, n, Go(y));
          return;
        }
        Known(prims, m, u, |m.dump|, x, n);
        var w := Machine(OpE1Args, Pair(m.value, m.args), m.envir, m.code.cdr, x.v, m.dump, x.frames);
        assert u.dump[1..] == m.dump;
        y := EvalAllAgrees(prims, n - 1, w);
        var rest := EvalAll(prims, n - 1, w.code, m.envir, x.frames);
        Enter(prims, m, w, |m.dump| + x.height + 1, rest, n, Go(y), |m.dump| + Height(rest));
      }
    }
  }

  lemma Unfold(prims: Prims, m: Machine, o: Outcome, n: nat, t: Status)
    requires Agrees(prims, m, o, n) && !o.Value?
    ensures YieldsAt(prims, m, o, n, t, |m.dump| + Height(o))
  {
  }

  lemma {:induction false} ApplyAgrees(prims: Prims, n: nat, m: Machine)
    requires m.op == OpApply
    ensures Agrees(prims, m, Apply(prims, n, m.code, m.args, m.frames), n)
    decreases n
  {
    hide Leads, Agrees, Body, BindFormals;
    var o := Apply(prims, n, m.code, m.args, m.frames);
    if n == 0 {
      Ends(prims, m, o, n);
    } else if m.code.Proc? {
      OneStep(prims, m);
      var u := m.(op := OpProc(m.code.id));
      Ends(prims, u, o, n - 1);
      GoesOn(prims, m, u, 0, o, n);
    } else if m.code.Closure? && HasCar(m.code.code) && BindFormals(Car(m.code.code), m.args, []).Bound? {
      OneStep(prims, m);
      var u := StepApply(m).m;
      BodyAgrees(prims, n - 1, u);
      GoesOn(prims, m, u, 0, Body(prims, n - 1, u.code, u.envir, u.frames), n);
    } else {
      Ends(prims, m, o, n);
    }
  }

  lemma {:induction false} BodyAgrees(prims: Prims, n: nat, m: Machine)
    requires m.op == OpBegin
    ensures Agrees(prims, m, Body(prims, n, m.code, m.envir, m.frames), n)
    decreases n, 0
  {
    hide Leads, Agrees, Eval;
    var o := Body(prims, n, m.code, m.envir, m.frames);
    if n == 0 || !m.code.Pair? {
      Ends(prims, m, o, n);
      return;
    }
    OneStep(prims, m);
    var u := StepBegin(m).m;
    var x := Eval(prims, n - 1, u.code, m.envir, m.frames);
    EvalAgrees(prims, n - 1, u);
    if m.code.cdr.Nil? {
      GoesOn(prims, m, u, 0, x, n);
    } else if !x.Value? {
      Broken(prims, m, u, |m.dump|, x, n);
    } else {
      Known(prims, m, u, |m.dump|, x, n);
      var w := Machine(OpBegin, Nil, m.envir, m.code.cdr, x.v, m.dump, x.frames);
      assert u.dump[1..] == m.dump;
      BodyAgrees(prims, n - 1, w);
      GoesOn(prims, m, w, x.height + 1, Body(prims, n - 1, w.code, m.envir, x.frames), n);
    }
  }

  lemma {:induction false} InitsAgree(prims: Prims, n: nat, m: Machine) returns (y: Machine)
    requires m.op == OpLet1
    ensures (var o := Inits(prims, n, m.code, m.envir, m.frames);
             YieldsAt(prims, m, o, n, Go(y), |m.dump| + Height(o)) && Gathered(m, y, o, OpLet2))
    decreases n
  {
    hide Leads, Agrees, Eval;
    y := m;
    OneStep(prims, m);
    if n > 0 {
      if !m.code.Pair? {
        y := Collected(m, OpLet2).m;
      } else if !m.code.car.Pair? || !m.code.car.cdr.Pair? {
        Ends(prims, m, Fails(BadLet), n);
        Unfold(prims, m, Fails(BadLet), n, Go(y));
      } else {
        y := InitsNext(prims, n, m);
      }
    }
  }

  lemma {:induction false} InitsNext(prims: Prims, n: nat, m: Machine) returns (y: Machine)
    requires n > 0 && m.op == OpLet1 && m.code.Pair? && m.code.car.Pair? && m.code.car.cdr.Pair?
    ensures (var o := Inits(prims, n, m.code, m.envir, m.frames);
             YieldsAt(prims, m, o, n, Go(y), |m.dump| + Height(o)) && Gathered(m, y, o, OpLet2))
    decreases n, 0
  {
    hide Leads, Agrees, Eval;
    y := m;
    OneStep(prims, m);
    var u := SaveEval(m, OpLet1, Pair(m.value, m.args), m.code.cdr, m.code.car.cdr.car).m;
    var x := Eval(prims, n - 1, u.code, m.envir, m.frames);
    EvalAgrees(prims, n - 1, u);
    if !x.Value? {
      Broken(prims, m, u, |m.dump|, x, n);
      Unfold(prims, m, x, n, Go(y));
      return;
    }
    Known(prims, m, u, |m.dump|, x, n);
    var w := Machine(OpLet1, Pair(m.value, m.args), m.envir, m.code.cdr, x.v, m.dump, x.frames);
    assert u.dump[1..] == m.dump;
    y := InitsAgree(prims, n - 1, w);
    var rest := Inits(prims, n - 1, w.code, m.envir, x.frames);
    Enter(prims, m, w, |m.dump| + x.height + 1, rest, n, Go(y), |m.dump| + Height(rest));
  }

  // and, or: the first expression and, once a value has not decided, the next ones.
  lemma {:induction false} ChainAgrees(prims: Prims, n: nat, m: Machine, sense: bool)
    requires !m.code.Nil?
    requires if sense then m.op == OpAnd0 || (m.op == OpAnd1 && Truth(m.value))
             else m.op == OpOr0 || (m.op == OpOr1 && !Truth(m.value))
    ensures Agrees(prims, m, Chain(prims, n, sense, m.code, m.envir, m.frames), n)
    decreases n, 0
  {
    hide Leads, Agrees, Eval, Truth;
    var o := Chain(prims, n, sense, m.code, m.envir, m.frames);
    if n == 0 || !m.code.Pair? {
      Ends(prims, m, o, n);
      return;
    }
    OneStep(prims, m);
    var op := if sense then OpAnd1 else OpOr1;
    var u := ChainNext(m, op).m;
    var x := Eval(prims, n - 1, u.code, m.envir, m.frames);
    EvalAgrees(prims, n - 1, u);
    if !x.Value? {
      Broken(prims, m, u, |m.dump|, x, n);
      return;
    }
    Known(prims, m, u, |m.dump|, x, n);
    var w := Machine(op, Nil, m.envir, m.code.cdr, x.v, m.dump, x.frames);
    assert u.dump[1..] == m.dump;
    if Truth(x.v) != sense || w.code.Nil? {
      StepOn(prims, m, w, |m.dump| + x.height + 1);
      Direct(prims, m, o, n);
    } else {
      ChainAgrees(prims, n - 1, w, sense);
      GoesOn(prims, m, w, x.height + 1, Chain(prims, n - 1, sense, w.code, m.envir, x.frames), n);
    }
  }

  lemma Direct(prims: Prims, m: Machine, o: Outcome, n: nat)
    requires o.Value? && Leads(prims, Go(m), Return(m.dump, o.v, o.frames), |m.dump| + o.height)
    ensures Agrees(prims, m, o, n)
  {
  }

  lemma {:induction false} LetBodyAgrees(prims: Prims, n: nat, m: Machine)
    requires m.op == OpLet2 && HasCar(m.code)
    ensures Agrees(prims, m, LetBody(prims, n, m.code, m.args, m.envir, m.frames), n)
    decreases n
  {
    hide Leads, Agrees, Body, BindNames, NamesOf;
    var o := LetBody(prims, n, m.code, m.args, m.envir, m.frames);
    if n == 0 || !StepLet2(m).Go? {
      Ends(prims, m, o, n);
    } else {
      OneStep(prims, m);
      var u := StepLet2(m).m;
      BodyAgrees(prims, n - 1, u);
      GoesOn(prims, m, u, 0, Body(prims, n - 1, u.code, u.envir, u.frames), n);
    }
  }

  lemma {:induction false} SpecialAgrees(prims: Prims, n: nat, m: Machine, form: Form)
    requires m.op == OpOf(form)
    ensures Agrees(prims, m, Special(prims, n, form, m.code, m.envir, m.frames), n)
    decreases n, 2
  {
    hide Leads, Agrees, Eval, Body, Chain, LetBody, Inits, Define, DefinitionOf, SetSlot;
    var o := Special(prims, n, form, m.code, m.envir, m.frames);
    if n == 0 {
      Ends(prims, m, o, n);
      return;
    }
    match form
    case FIf => IfAgrees(prims, n, m);
    case FBegin => BodyAgrees(prims, n, m);
    case FDefine => DefineAgrees(prims, n, m);
    case FSet => SetAgrees(prims, n, m);
    case FLet => LetAgrees(prims, n, m);
    case FAnd => AndOrAgrees(prims, n, m, true);
    case FOr => AndOrAgrees(prims, n, m, false);
    case _ => Ends(prims, m, o, n);
  }

  lemma {:induction false} AndOrAgrees(prims: Prims, n: nat, m: Machine, sense: bool)
    requires n > 0 && m.op == if sense then OpAnd0 else OpOr0
    ensures Agrees(prims, m, Special(prims, n, if sense then FAnd else FOr, m.code, m.envir, m.frames), n)
    decreases n, 1
  {
    hide Leads, Agrees, Chain;
    if m.code.Nil? {
      Ends(prims, m, Special(prims, n, if sense then FAnd else FOr, m.code, m.envir, m.frames), n);
    } else {
      ChainAgrees(prims, n, m, sense);
    }
  }

  lemma {:induction false} IfAgrees(prims: Prims, n: nat, m: Machine)
    requires n > 0 && m.op == OpIf0
    ensures Agrees(prims, m, Special(prims, n, FIf, m.code, m.envir, m.frames), n)
    decreases n, 0
  {
    hide Leads, Agrees, Eval, Truth;
    var o := Special(prims, n, FIf, m.code, m.envir, m.frames);
    if !HasCar(m.code) {
      Ends(prims, m, o, n);
      return;
    }
    OneStep(prims, m);
    var u := StepIf0(m).m;
    var x := Eval(prims, n - 1, u.code, m.envir, m.frames);
    EvalAgrees(prims, n - 1, u);
    if !x.Value? {
      Broken(prims, m, u, |m.dump|, x, n);
      return;
    }
    Known(prims, m, u, |m.dump|, x, n);
    var w := Machine(OpIf1, Nil, m.envir, Cdr(m.code), x.v, m.dump, x.frames);
    assert u.dump[1..] == m.dump;
    StepOn(prims, m, w, |m.dump| + x.height + 1);
    if StepIf1(w).Go? {
      var y := StepIf1(w).m;
      EvalAgrees(prims, n - 1, y);
      GoesOn(prims, m, y, x.height + 1, Eval(prims, n - 1, y.code, m.envir, x.frames), n);
    } else {
      Stopped(prims, m, o, n, |m.dump| + x.height + 1);
    }
  }

  lemma Stopped(prims: Prims, m: Machine, o: Outcome, n: nat, top: nat)
    requires o.Fails? && Leads(prims, Go(m), Stop(o.reason), top)
    ensures Agrees(prims, m, o, n)
  {
  }

  lemma {:induction false} DefineAgrees(prims: Prims, n: nat, m: Machine)
    requires n > 0 && m.op == OpDef0
    ensures Agrees(prims, m, Special(prims, n, FDefine, m.code, m.envir, m.frames), n)
    decreases n, 0
  {
    hide Leads, Agrees, Eval, Define, DefinitionOf;
    var o := Special(prims, n, FDefine, m.code, m.envir, m.frames);
    if DefinitionOf(m.code).NoDefinition? {
      Ends(prims, m, o, n);
      return;
    }
    OneStep(prims, m);
    var u := StepDef0(m).m;
    var x := Eval(prims, n - 1, u.code, m.envir, m.frames);
    EvalAgrees(prims, n - 1, u);
    if !x.Value? {
      Broken(prims, m, u, |m.dump|, x, n);
      return;
    }
    Known(prims, m, u, |m.dump|, x, n);
    var w := Machine(OpDef1, Nil, m.envir, DefinitionOf(m.code).name, x.v, m.dump, x.frames);
    assert u.dump[1..] == m.dump;
    StepOn(prims, m, w, |m.dump| + x.height + 1);
    Direct(prims, m, o, n);
  }

  lemma {:induction false} SetAgrees(prims: Prims, n: nat, m: Machine)
    requires n > 0 && m.op == OpSet0
    ensures Agrees(prims, m, Special(prims, n, FSet, m.code, m.envir, m.frames), n)
    decreases n, 0
  {
    hide Leads, Agrees, Eval, SetSlot, Find;
    var o := Special(prims, n, FSet, m.code, m.envir, m.frames);
    if !StepSet0(m).Go? {
      Ends(prims, m, o, n);
      return;
    }
    OneStep(prims, m);
    var u := StepSet0(m).m;
    var x := Eval(prims, n - 1, u.code, m.envir, m.frames);
    EvalAgrees(prims, n - 1, u);
    if !x.Value? {
      Broken(prims, m, u, |m.dump|, x, n);
      return;
    }
    Known(prims, m, u, |m.dump|, x, n);
    var w := Machine(OpSet1, Nil, m.envir, Car(m.code), x.v, m.dump, x.frames);
    assert u.dump[1..] == m.dump;
    StepOn(prims, m, w, |m.dump| + x.height + 1);
    if o.Value? {
      Direct(prims, m, o, n);
    } else {
      Stopped(prims, m, o, n, |m.dump| + x.height + 1);
    }
  }

  lemma {:induction false} LetAgrees(prims: Prims, n: nat, m: Machine)
    requires n > 0 && m.op == OpLet0
    ensures Agrees(prims, m, Special(prims, n, FLet, m.code, m.envir, m.frames), n)
    decreases n, 0
  {
    hide Leads, Agrees, Inits, LetBody, LetBindings, YieldsAt;
    var o := Special(prims, n, FLet, m.code, m.envir, m.frames);
    if !StepLet0(m).Go? {
      Ends(prims, m, o, n);
      return;
    }
    OneStep(prims, m);
    var u := StepLet0(m).m;
    var vals := Inits(prims, n - 1, u.code, m.envir, m.frames);
    var y := InitsAgree(prims, n - 1, u);
    Enter(prims, m, u, |m.dump|, vals, n, Go(y), |m.dump| + Height(vals));
    if !vals.Value? {
      Relay(prims, m, vals, n, Go(y), |m.dump| + Height(vals));
      return;
    }
    Reached(prims, m, vals, n, Go(y), |m.dump| + vals.height);
    LetBodyAgrees(prims, n - 1, y);
    GoesOn(prims, m, y, vals.height, LetBody(prims, n - 1, m.code, vals.v, m.envir, vals.frames), n);
  }

  lemma Reached(prims: Prims, m: Machine, o: Outcome, n: nat, t: Status, top: nat)
    requires YieldsAt(prims, m, o, n, t, top) && o.Value?
    ensures Leads(prims, Go(m), t, top)
  {
  }
}
