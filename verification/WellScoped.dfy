/** Environments never dangle: the machine refers to existing frames only, and every frame's parent
    is an older frame, so that every search for a variable ends. */
module WellScoped {
  import opened SchemeData
  import opened BigStep
  import opened Registers

  // Every closure in d closes over one of the first n frames.
  predicate Within(d: Datum, n: nat) {
    match d
    case Pair(a, b) => Within(a, n) && Within(b, n)
    case Closure(code, env) => env <= n && Within(code, n)
    case _ => true
  }

  predicate SlotsWithin(slots: seq<Slot>, n: nat) {
    forall j :: 0 <= j < |slots| ==> Within(slots[j].val, n)
  }

  ghost predicate FramesGood(frames: Frames) {
    Nested(frames) && forall i :: 0 <= i < |frames| ==> SlotsWithin(frames[i].slots, |frames|)
  }

  ghost predicate SavedGood(s: Saved, n: nat) {
    s.envir <= n && Within(s.args, n) && Within(s.code, n)
  }

  ghost predicate DumpGood(dump: seq<Saved>, n: nat) {
    forall i :: 0 <= i < |dump| ==> SavedGood(dump[i], n)
  }

  ghost predicate Good(m: Machine) {
    match m
    case Machine(op, args, envir, code, value, dump, frames) =>
      && envir <= |frames| && Within(args, |frames|) && Within(code, |frames|) && Within(value, |frames|)
      && DumpGood(dump, |frames|) && FramesGood(frames)
  }

  // Primitive procedures return nothing but what they are given.
  ghost predicate PrimsGood(prims: Prims) {
    forall id, args, n :: Within(args, n) && prims(id, args).Returns? ==> Within(prims(id, args).v, n)
  }

  ghost predicate StatusGood(s: Status, n: nat) {
    match s
    case Go(m) => Good(m) && |m.frames| >= n
    case Halt(v, frames) => Within(v, |frames|) && FramesGood(frames) && |frames| >= n
    case Stop(_) => true
  }

  lemma {:induction false} More(d: Datum, n: nat, k: nat)
    requires Within(d, n) && n <= k
    ensures Within(d, k)
  {
    match d
    case Pair(a, b) => More(a, n, k); More(b, n, k);
    case Closure(code, env) => More(code, n, k);
    case _ =>
  }

  lemma PartsWithin(d: Datum, n: nat)
    requires Within(d, n)
    ensures Within(Car(d), n) && Within(Cdr(d), n) && Within(Car(Cdr(d)), n) && Within(Cdr(Cdr(d)), n)
            && Within(Car(Cdr(Car(d))), n)
  {
    assert Within(Cdr(d), n);
    assert Within(Car(d), n);
    assert Within(Cdr(Car(d)), n);
  }

  lemma MoreDump(dump: seq<Saved>, n: nat, k: nat)
    requires DumpGood(dump, n) && n <= k
    ensures DumpGood(dump, k)
  {
    forall i | 0 <= i < |dump| ensures SavedGood(dump[i], k) {
      assert SavedGood(dump[i], n);
      More(dump[i].args, n, k);
      More(dump[i].code, n, k);
    }
  }

  // A new frame with good slots.
  lemma NewFrame(frames: Frames, slots: seq<Slot>, parent: nat)
    requires FramesGood(frames) && parent <= |frames| && SlotsWithin(slots, |frames| + 1)
    ensures FramesGood(frames + [Frame(slots, parent)])
  {
    var more := frames + [Frame(slots, parent)];
    forall i | 0 <= i < |more| ensures more[i].parent <= i && SlotsWithin(more[i].slots, |more|) {
      if i < |frames| {
        assert more[i] == frames[i];
        assert SlotsWithin(frames[i].slots, |frames|);
        forall j | 0 <= j < |more[i].slots| ensures Within(more[i].slots[j].val, |more|) {
          More(frames[i].slots[j].val, |frames|, |more|);
        }
      }
    }
  }

  lemma {:induction false} RevWithin(d: Datum, term: Datum, n: nat)
    requires Within(d, n) && Within(term, n)
    ensures Within(RevOnto(d, term), n)
    decreases d
  {
    if d.Pair? {
      RevWithin(d.cdr, Pair(d.car, term), n);
    }
  }

  lemma {:induction false} FormalsWithin(x: Datum, y: Datum, slots: seq<Slot>, n: nat)
    requires Within(y, n) && SlotsWithin(slots, n)
    ensures BindFormals(x, y, slots).Bound? ==> SlotsWithin(BindFormals(x, y, slots).slots, n)
  {
    if x.Pair? && y.Pair? {
      FormalsWithin(x.cdr, y.cdr, [Slot(x.car, y.car)] + slots, n);
    }
  }

  lemma {:induction false} NamesWithin(x: Datum, y: Datum, slots: seq<Slot>, n: nat)
    requires Within(y, n) && SlotsWithin(slots, n)
    ensures SlotsWithin(BindNames(x, y, slots), n)
    decreases y
  {
    if y.Pair? {
      NamesWithin(Cdr(x), y.cdr, [Slot(Car(Car(x)), y.car)] + slots, n);
    }
  }

  lemma {:induction false} FormalNamesWithin(x: Datum, n: nat)
    requires Within(x, n)
    ensures NamesOf(x).Names? ==> Within(NamesOf(x).formals, n)
  {
    if x.Pair? {
      FormalNamesWithin(x.cdr, n);
    }
  }

  lemma ReturnGood(dump: seq<Saved>, v: Datum, frames: Frames, n: nat)
    requires DumpGood(dump, |frames|) && Within(v, |frames|) && FramesGood(frames) && |frames| >= n
    ensures StatusGood(Return(dump, v, frames), n)
  {
    if dump != [] {
      assert SavedGood(dump[0], |frames|);
    }
  }

  lemma ValueGood(frames: Frames, p: Place)
    requires FramesGood(frames) && p.At? && 0 < p.env <= |frames| && p.i < |frames[p.env - 1].slots|
    ensures Within(ValueIn(frames, p), |frames|)
  {
    assert SlotsWithin(frames[p.env - 1].slots, |frames|);
  }

  lemma SetGood(frames: Frames, p: Place, v: Datum)
    requires FramesGood(frames) && p.At? && 0 < p.env <= |frames| && p.i < |frames[p.env - 1].slots|
             && Within(v, |frames|)
    ensures FramesGood(SetSlot(frames, p, v)) && |SetSlot(frames, p, v)| == |frames|
  {
    var more := SetSlot(frames, p, v);
    forall i | 0 <= i < |more| ensures more[i].parent <= i && SlotsWithin(more[i].slots, |more|) {
      assert SlotsWithin(frames[i].slots, |frames|);
    }
  }

  lemma DefineGood(frames: Frames, env: nat, key: Datum, v: Datum)
    requires FramesGood(frames) && Within(v, |frames|)
    ensures FramesGood(Define(frames, env, key, v)) && |Define(frames, env, key, v)| == |frames|
  {
    var p := Find(frames, env, key, false);
    if p.At? {
      SetGood(frames, p, v);
    } else {
      var more := AddSlot(frames, env, key, v);
      forall i | 0 <= i < |more| ensures more[i].parent <= i && SlotsWithin(more[i].slots, |more|) {
        assert SlotsWithin(frames[i].slots, |frames|);
      }
    }
  }

  lemma SaveGood(m: Machine, op: Op, args: Datum, code: Datum)
    requires Good(m) && Within(args, |m.frames|) && Within(code, |m.frames|)
    ensures DumpGood(Save(m.dump, op, args, m.envir, code), |m.frames|)
  {
    var dump := Save(m.dump, op, args, m.envir, code);
    forall i | 0 <= i < |dump| ensures SavedGood(dump[i], |m.frames|) {
      if i > 0 {
        assert dump[i] == m.dump[i - 1];
      }
    }
  }

  // Going on with the same frames, more or less on the dump.
  lemma GoGood(m: Machine, u: Machine)
    requires Good(m) && u.frames == m.frames && u.envir == m.envir
    requires Within(u.args, |m.frames|) && Within(u.code, |m.frames|) && Within(u.value, |m.frames|)
             && DumpGood(u.dump, |m.frames|)
    ensures StatusGood(Go(u), |m.frames|)
  {
  }

  // Evaluating e with something saved.
  lemma PushGood(m: Machine, op: Op, args: Datum, code: Datum, u: Machine)
    requires Good(m) && u.frames == m.frames && u.envir == m.envir && u.value == m.value
             && u.dump == Save(m.dump, op, args, m.envir, code)
    requires Within(args, |m.frames|) && Within(code, |m.frames|) && Within(u.args, |m.frames|)
             && Within(u.code, |m.frames|)
    ensures StatusGood(Go(u), |m.frames|)
  {
    SaveGood(m, op, args, code);
    GoGood(m, u);
  }

  lemma EvalGood(m: Machine)
    requires Good(m)
    ensures StatusGood(StepEval(m), |m.frames|)
  {
    match m.code
    case Sym(_) => {
      var p := Find(m.frames, m.envir, m.code, true);
      if p.At? {
        ValueGood(m.frames, p);
        ReturnGood(m.dump, ValueIn(m.frames, p), m.frames, |m.frames|);
      }
    }
    case Pair(x, rest) => {
      if !IsKeyword(x) {
        PushGood(m, OpE0Args, Nil, m.code, m.(code := x, dump := Save(m.dump, OpE0Args, Nil, m.envir, m.code)));
      }
    }
    case _ => ReturnGood(m.dump, m.code, m.frames, |m.frames|);
  }

  lemma CollectedGood(m: Machine, op: Op)
    requires Good(m)
    ensures StatusGood(Collected(m, op), |m.frames|)
  {
    RevWithin(Pair(m.value, m.args), Nil, |m.frames|);
    GoGood(m, Collected(m, op).m);
  }

  lemma ArgsGood(m: Machine)
    requires Good(m)
    ensures StatusGood(StepE1Args(m), |m.frames|)
  {
    if m.code.Pair? {
      PushGood(m, OpE1Args, Pair(m.value, m.args), m.code.cdr, StepE1Args(m).m);
    } else {
      CollectedGood(m, OpApply);
    }
  }

  lemma ApplyGood(m: Machine)
    requires Good(m)
    ensures StatusGood(StepApply(m), |m.frames|)
  {
    if m.code.Closure? && HasCar(m.code.code) && BindFormals(Car(m.code.code), m.args, []).Bound? {
      var u := StepApply(m).m;
      var slots := BindFormals(Car(m.code.code), m.args, []).slots;
      FormalsWithin(Car(m.code.code), m.args, [], |m.frames|);
      assert Within(m.code.code, |m.frames|);
      EnterGood(m, u, slots, m.code.env);
    }
  }

  // Entering a new environment.
  lemma EnterGood(m: Machine, u: Machine, slots: seq<Slot>, parent: nat)
    requires Good(m) && u.frames == m.frames + [Frame(slots, parent)] && u.envir == |m.frames| + 1 && u.dump == m.dump
    requires u.args == Nil && Within(u.code, |m.frames|) && u.value == m.value && parent <= |m.frames|
    requires SlotsWithin(slots, |m.frames|) || SlotsWithin(slots, |m.frames| + 1)
    ensures StatusGood(Go(u), |m.frames|)
  {
    var n := |m.frames|;
    if SlotsWithin(slots, n) {
      forall j | 0 <= j < |slots| ensures Within(slots[j].val, n + 1) {
        More(slots[j].val, n, n + 1);
      }
    }
    NewFrame(m.frames, slots, parent);
    MoreDump(m.dump, n, n + 1);
    More(u.code, n, n + 1);
    More(u.value, n, n + 1);
  }

  lemma LambdaGood(m: Machine)
    requires Good(m)
    ensures StatusGood(Return(m.dump, Closure(m.code, m.envir), m.frames), |m.frames|)
    ensures HasCar(m.code) ==> StatusGood(Return(m.dump, Car(m.code), m.frames), |m.frames|)
  {
    ReturnGood(m.dump, Closure(m.code, m.envir), m.frames, |m.frames|);
    if HasCar(m.code) {
      ReturnGood(m.dump, Car(m.code), m.frames, |m.frames|);
    }
  }

  lemma DefinitionWithin(code: Datum, n: nat)
    requires Within(code, n) && DefinitionOf(code).Definition?
    ensures Within(DefinitionOf(code).name, n) && Within(DefinitionOf(code).expr, n)
  {
    var x := code.car;
    assert Within(x, n) && Within(code.cdr, n);
    if x.Pair? {
      assert Within(Pair(x.cdr, code.cdr), n);
    } else {
      assert Within(Car(code.cdr), n);
    }
  }

  lemma DefinesGood(m: Machine)
    requires Good(m)
    ensures StatusGood(StepDef0(m), |m.frames|)
    ensures StatusGood(Return(m.dump, m.code, Define(m.frames, m.envir, m.code, m.value)), |m.frames|)
  {
    DefineGood(m.frames, m.envir, m.code, m.value);
    ReturnGood(m.dump, m.code, Define(m.frames, m.envir, m.code, m.value), |m.frames|);
    if DefinitionOf(m.code).Definition? {
      DefinitionWithin(m.code, |m.frames|);
      PushGood(m, OpDef1, Nil, DefinitionOf(m.code).name, StepDef0(m).m);
    }
  }

  lemma AssignGood(m: Machine)
    requires Good(m)
    ensures StatusGood(StepSet0(m), |m.frames|) && StatusGood(StepSet1(m), |m.frames|)
  {
    PartsWithin(m.code, |m.frames|);
    if StepSet0(m).Go? {
      PushGood(m, OpSet1, Nil, Car(m.code), StepSet0(m).m);
    }
    var p := Find(m.frames, m.envir, m.code, true);
    if p.At? {
      SetGood(m.frames, p, m.value);
      ReturnGood(m.dump, m.value, SetSlot(m.frames, p, m.value), |m.frames|);
    }
  }

  lemma BeginGood(m: Machine)
    requires Good(m)
    ensures StatusGood(StepBegin(m), |m.frames|)
  {
    if !m.code.Pair? {
      ReturnGood(m.dump, m.code, m.frames, |m.frames|);
    } else if !m.code.cdr.Nil? {
      PushGood(m, OpBegin, Nil, m.code.cdr, StepBegin(m).m);
    }
  }

  lemma IfGood(m: Machine)
    requires Good(m)
    ensures StatusGood(StepIf0(m), |m.frames|) && StatusGood(StepIf1(m), |m.frames|)
  {
    PartsWithin(m.code, |m.frames|);
    if StepIf0(m).Go? {
      PushGood(m, OpIf1, Nil, Cdr(m.code), StepIf0(m).m);
    }
  }

  lemma LetStartGood(m: Machine)
    requires Good(m)
    ensures StatusGood(StepLet0(m), |m.frames|) && StatusGood(StepLet1(m), |m.frames|)
  {
    PartsWithin(m.code, |m.frames|);
    if !m.code.Pair? {
      CollectedGood(m, OpLet2);
    } else if m.code.car.Pair? && m.code.car.cdr.Pair? {
      PushGood(m, OpLet1, Pair(m.value, m.args), m.code.cdr, StepLet1(m).m);
    }
  }

  lemma LetGood(m: Machine)
    requires Good(m)
    ensures StatusGood(StepLet2(m), |m.frames|)
  {
    var n := |m.frames|;
    var slots := BindNames(LetBindings(m.code), m.args, []);
    NamesWithin(LetBindings(m.code), m.args, [], n);
    PartsWithin(m.code, n);
    if !Car(m.code).Sym? {
      EnterGood(m, StepLet2(m).m, slots, m.envir);
    } else if NamesOf(LetBindings(m.code)).Names? {
      FormalNamesWithin(LetBindings(m.code), n);
      var loop := Closure(Pair(NamesOf(LetBindings(m.code)).formals, Cdr(Cdr(m.code))), n + 1);
      More(loop.code, n, n + 1);
      var all := [Slot(Car(m.code), loop)] + slots;
      forall j | 0 <= j < |all| ensures Within(all[j].val, n + 1) {
        if j > 0 {
          More(slots[j - 1].val, n, n + 1);
        }
      }
      EnterGood(m, StepLet2(m).m, all, m.envir);
    }
  }

  lemma ChainGood(m: Machine, sense: bool)
    requires Good(m)
    ensures StatusGood(StepChain0(m, sense), |m.frames|) && StatusGood(StepChain1(m, sense), |m.frames|)
  {
    ReturnGood(m.dump, if sense then T else F, m.frames, |m.frames|);
    ReturnGood(m.dump, m.value, m.frames, |m.frames|);
    if m.code.Pair? {
      var op := if sense then OpAnd1 else OpOr1;
      PushGood(m, op, Nil, m.code.cdr, ChainNext(m, op).m);
    }
  }

  lemma ProcGood(prims: Prims, m: Machine, id: nat)
    requires Good(m) && PrimsGood(prims) && prims(id, m.args).Returns?
    ensures StatusGood(Return(m.dump, prims(id, m.args).v, m.frames), |m.frames|)
  {
    var n := |m.frames|;
    assert Within(m.args, n);
    ReturnGood(m.dump, prims(id, m.args).v, m.frames, n);
  }

  // Every step keeps it so, and frames are never given up.
  lemma StepGood(prims: Prims, m: Machine)
    requires Good(m) && PrimsGood(prims)
    ensures StatusGood(Step(prims, m), |m.frames|)
  {
    hide StepEval, StepE1Args, StepApply, StepDef0, StepSet0, StepSet1, StepBegin, StepIf0, StepIf1, StepLet0, StepLet1,
         StepLet2,
      StepChain0, StepChain1, Return, Find, Define, PrimsGood;
    match m.op
    case OpEval => EvalGood(m);
    case OpE0Args => GoGood(m, Step(prims, m).m);
    case OpE1Args => ArgsGood(m);
    case OpApply => ApplyGood(m);
    case OpProc(id) => if prims(id, m.args).Returns? { ProcGood(prims, m, id); }
    case OpLambda => LambdaGood(m);
    case OpQuote => LambdaGood(m);
    case OpDef0 => DefinesGood(m);
    case OpDef1 => DefinesGood(m);
    case OpSet0 => AssignGood(m);
    case OpSet1 => AssignGood(m);
    case OpBegin => BeginGood(m);
    case OpIf0 => IfGood(m);
    case OpIf1 => IfGood(m);
    case OpLet0 => LetStartGood(m);
    case OpLet1 => LetStartGood(m);
    case OpLet2 => LetGood(m);
    case OpAnd0 => ChainGood(m, true);
    case OpAnd1 => ChainGood(m, true);
    case OpOr0 => ChainGood(m, false);
    case OpOr1 => ChainGood(m, false);
    case OpOther =>
  }

  // So does every run.
  lemma {:induction false} RunGood(prims: Prims, s: Status, k: nat, n: nat)
    requires StatusGood(s, n) && PrimsGood(prims)
    ensures StatusGood(Run(prims, s, k), n)
    decreases k
  {
    if k > 0 {
      if s.Go? {
        StepGood(prims, s.m);
        Fewer(Next(prims, s), |s.m.frames|, n);
      }
      RunGood(prims, Next(prims, s), k - 1, n);
    }
  }

  lemma Fewer(s: Status, n: nat, k: nat)
    requires StatusGood(s, n) && k <= n
    ensures StatusGood(s, k)
  {
  }
}
