/** What calls and let mean, said of the outcomes of their parts and of the frame that the body sees. */
module CallLaws {
  import opened SchemeData
  import opened BigStep
  import opened FormLaws

  // The list of the data es, ended by end.
  function ListOf(es: seq<Datum>, end: Datum): Datum {
    if es == [] then end else Pair(es[0], ListOf(es[1..], end))
  }

  // The expressions es evaluated one after another, from the first, have the values vs.
  ghost predicate InTurn(prims: Prims, n: nat, es: seq<Datum>, env: nat, frames: Frames, vs: seq<Datum>, after: Frames)
    decreases |es|
  {
    && n > 0
    && if es == [] then vs == [] && after == frames
       else vs != [] && var x := Eval(prims, n - 1, es[0], env, frames);
            x.Value? && x.v == vs[0] && InTurn(prims, n - 1, es[1..], env, x.frames, vs[1..], after)
  }

  lemma {:induction false} OperandsInTurn(prims: Prims, n: nat, es: seq<Datum>, env: nat, frames: Frames,
                                          vs: seq<Datum>, after: Frames)
    requires InTurn(prims, n, es, env, frames, vs, after)
    ensures (var o := EvalAll(prims, n, ListOf(es, Nil), env, frames);
             o.Value? && o.v == ListOf(vs, Nil) && o.frames == after)
    decreases |es|
  {
    if es != [] {
      OperandsInTurn(prims, n - 1, es[1..], env, Eval(prims, n - 1, es[0], env, frames).frames, vs[1..], after);
    }
  }

  // The slots of a call, newest first: each formal with its argument, and with a symbol behind the formals
  // the list of the arguments that are left.
  ghost predicate CallSlots(slots: seq<Slot>, formals: seq<Datum>, end: Datum, vs: seq<Datum>) {
    var k := |formals|;
    && k <= |vs|
    && |slots| == k + (if end == Nil then 0 else 1)
    && (forall i :: 0 <= i < k ==> slots[|slots| - 1 - i] == Slot(formals[i], vs[i]))
    && (end != Nil ==> slots[0] == Slot(end, ListOf(vs[k..], Nil)))
  }

  lemma {:induction false} SlotsOfCall(formals: seq<Datum>, end: Datum, vs: seq<Datum>, slots: seq<Slot>)
    returns (more: seq<Slot>)
    requires |formals| <= |vs| && (end == Nil || end.Sym?)
    ensures BindFormals(ListOf(formals, end), ListOf(vs, Nil), slots) == Bound(more + slots)
    ensures CallSlots(more, formals, end, vs)
    decreases |formals|
  {
    if formals == [] {
      more := if end == Nil then [] else [Slot(end, ListOf(vs, Nil))];
      assert vs[0..] == vs;
    } else {
      var first := Slot(formals[0], vs[0]);
      var rest := SlotsOfCall(formals[1..], end, vs[1..], [first] + slots);
      more := rest + [first];
      assert rest + ([first] + slots) == more + slots;
      assert vs[1..][|formals| - 1..] == vs[|formals|..];
      forall i | 0 <= i < |formals| ensures more[|more| - 1 - i] == Slot(formals[i], vs[i]) {
        if i > 0 {
          assert rest[|rest| - 1 - (i - 1)] == Slot(formals[1..][i - 1], vs[1..][i - 1]);
        }
      }
    }
  }

  // Not a form: a constant, a list, or a symbol that is no form's name.
  ghost predicate Operator(f: Datum) {
    f.Sym? ==> !FormName(f.name)
  }

  lemma ApplicationStep(prims: Prims, n: nat, f: Datum, rest: Datum, env: nat, frames: Frames)
    requires Operator(f)
    ensures (var o := Eval(prims, n + 1, Pair(f, rest), env, frames);
             var x := Eval(prims, n, f, env, frames);
             if !x.Value? then o == x
             else
               var args := EvalAll(prims, n, rest, env, x.frames);
               if !args.Value? then o == args
               else o == After(Max(x.height + 1, args.height), Apply(prims, n, x.v, args.v, args.frames)))
  {
    assert !IsKeyword(f);
  }

  // The outcomes agree but for the height.
  ghost predicate Alike(a: Outcome, b: Outcome) {
    if a.Value? then b.Value? && a.v == b.v && a.frames == b.frames else a == b
  }

  // A call of a procedure: the operator, then the operands, then the body in a frame of the arguments.
  lemma CallLaw(prims: Prims, n: nat, f: Datum, es: seq<Datum>, env: nat, frames: Frames,
                formals: seq<Datum>, end: Datum, body: Datum, home: nat, vs: seq<Datum>, after: Frames)
    returns (slots: seq<Slot>)
    requires Operator(f) && n > 0 && |formals| <= |vs| && (end == Nil || end.Sym?)
    requires (var x := Eval(prims, n, f, env, frames);
              && x.Value? && x.v == Closure(Pair(ListOf(formals, end), body), home)
              && InTurn(prims, n, es, env, x.frames, vs, after))
    ensures CallSlots(slots, formals, end, vs)
    ensures Alike(Eval(prims, n + 1, Pair(f, ListOf(es, Nil)), env, frames),
                  Eval(prims, n, Pair(Sym("begin"), body), |after| + 1, after + [Frame(slots, home)]))
  {
    ApplicationStep(prims, n, f, ListOf(es, Nil), env, frames);
    OperandsInTurn(prims, n, es, env, Eval(prims, n, f, env, frames).frames, vs, after);
    slots := SlotsOfCall(formals, end, vs, []);
    assert slots + [] == slots;
    BeginIsBody(prims, n - 1, body, |after| + 1, after + [Frame(slots, home)]);
  }

  lemma BeginIsBody(prims: Prims, n: nat, body: Datum, env: nat, frames: Frames)
    ensures Eval(prims, n + 1, Pair(Sym("begin"), body), env, frames) == Body(prims, n, body, env, frames)
  {
    FormStep(prims, n, Sym("begin"), body, env, frames);
    if n > 0 {
      assert Special(prims, n, FBegin, body, env, frames) == Body(prims, n, body, env, frames);
    }
  }

  // Too few arguments, formals that do not end in () or a symbol, and operators that are no procedures.
  lemma BadCallLaw(prims: Prims, n: nat, f: Datum, es: seq<Datum>, env: nat, frames: Frames,
                   formals: seq<Datum>, end: Datum, body: Datum, home: nat, vs: seq<Datum>, after: Frames)
    requires Operator(f) && n > 0
    requires (var x := Eval(prims, n, f, env, frames); x.Value? && InTurn(prims, n, es, env, x.frames, vs, after))
    ensures (var x := Eval(prims, n, f, env, frames);
             var o := Eval(prims, n + 1, Pair(f, ListOf(es, Nil)), env, frames);
             && (!x.v.Closure? && !x.v.Proc? ==> o == Fails(NotAFunction))
             && (x.v == Closure(Pair(ListOf(formals, end), body), home) && !end.Pair? ==>
                   && (|formals| > |vs| ==> o == Fails(NotEnoughArguments))
                   && (|formals| <= |vs| && end != Nil && !end.Sym? ==> o == Fails(NotASymbol))))
  {
    hide Eval, EvalAll, InTurn, Operator, BindFormals, ListOf;
    ApplicationStep(prims, n, f, ListOf(es, Nil), env, frames);
    var x := Eval(prims, n, f, env, frames);
    OperandsInTurn(prims, n, es, env, x.frames, vs, after);
    var args := EvalAll(prims, n, ListOf(es, Nil), env, x.frames);
    if !end.Pair? {
      BadFormals(formals, end, vs, []);
    }
  }

  lemma {:induction false} BadFormals(formals: seq<Datum>, end: Datum, vs: seq<Datum>, slots: seq<Slot>)
    requires !end.Pair?
    ensures (var b := BindFormals(ListOf(formals, end), ListOf(vs, Nil), slots);
             && (|formals| > |vs| ==> b == Bad(NotEnoughArguments))
             && (|formals| <= |vs| && end != Nil && !end.Sym? ==> b == Bad(NotASymbol)))
    decreases |formals|
  {
    if formals != [] && vs != [] {
      BadFormals(formals[1..], end, vs[1..], [Slot(formals[0], vs[0])] + slots);
    }
  }

  // A primitive procedure gets the list of its arguments.
  lemma PrimitiveLaw(prims: Prims, n: nat, f: Datum, es: seq<Datum>, env: nat, frames: Frames, id: nat,
                     vs: seq<Datum>, after: Frames)
    requires Operator(f) && n > 0
    requires (var x := Eval(prims, n, f, env, frames);
              x.Value? && x.v == Proc(id) && InTurn(prims, n, es, env, x.frames, vs, after))
    ensures (var o := Eval(prims, n + 1, Pair(f, ListOf(es, Nil)), env, frames);
             match prims(id, ListOf(vs, Nil))
             case Returns(v) => o.Value? && o.v == v && o.frames == after
             case Rejects => o == Fails(BadArgument))
  {
    ApplicationStep(prims, n, f, ListOf(es, Nil), env, frames);
    OperandsInTurn(prims, n, es, env, Eval(prims, n, f, env, frames).frames, vs, after);
  }

  // The first operand that has no value decides.
  lemma {:induction false} OperandLaw(prims: Prims, n: nat, f: Datum, es: seq<Datum>, e: Datum, rest: Datum, env: nat,
                                      frames: Frames, vs: seq<Datum>, after: Frames)
    requires Operator(f) && n > |es|
    requires (var x := Eval(prims, n, f, env, frames); x.Value? && InTurn(prims, n, es, env, x.frames, vs, after))
    requires !Eval(prims, n - |es| - 1, e, env, after).Value?
    ensures Eval(prims, n + 1, Pair(f, ListOf(es, Pair(e, rest))), env, frames)
            == Eval(prims, n - |es| - 1, e, env, after)
  {
    ApplicationStep(prims, n, f, ListOf(es, Pair(e, rest)), env, frames);
    OperandFails(prims, n, es, e, rest, env, Eval(prims, n, f, env, frames).frames, vs, after);
  }

  lemma {:induction false} OperandFails(prims: Prims, n: nat, es: seq<Datum>, e: Datum, rest: Datum, env: nat,
                                        frames: Frames, vs: seq<Datum>, after: Frames)
    requires n > |es| && InTurn(prims, n, es, env, frames, vs, after)
    requires !Eval(prims, n - |es| - 1, e, env, after).Value?
    ensures EvalAll(prims, n, ListOf(es, Pair(e, rest)), env, frames) == Eval(prims, n - |es| - 1, e, env, after)
    decreases |es|
  {
    if es != [] {
      OperandFails(prims, n - 1, es[1..], e, rest, env, Eval(prims, n - 1, es[0], env, frames).frames, vs[1..], after);
    }
  }

  // ---------- let ----------

  // The bindings ((name expression . more) ...).
  function BindingsOf(names: seq<Datum>, es: seq<Datum>, more: seq<Datum>): Datum
    requires |names| == |es| == |more|
  {
    if names == [] then Nil
    else Pair(Pair(names[0], Pair(es[0], more[0])), BindingsOf(names[1..], es[1..], more[1..]))
  }

  lemma {:induction false} InitsInTurn(prims: Prims, n: nat, names: seq<Datum>, es: seq<Datum>, more: seq<Datum>,
                                       env: nat, frames: Frames, vs: seq<Datum>, after: Frames)
    requires |names| == |es| == |more| && InTurn(prims, n, es, env, frames, vs, after)
    ensures (var o := Inits(prims, n, BindingsOf(names, es, more), env, frames);
             o.Value? && o.v == ListOf(vs, Nil) && o.frames == after)
    ensures |vs| == |es|
    decreases |es|
  {
    if es != [] {
      InitsInTurn(prims, n - 1, names[1..], es[1..], more[1..], env, Eval(prims, n - 1, es[0], env, frames).frames,
                  vs[1..], after);
    }
  }

  lemma {:induction false} SlotsOfLet(names: seq<Datum>, es: seq<Datum>, more: seq<Datum>, vs: seq<Datum>,
                                      slots: seq<Slot>) returns (all: seq<Slot>)
    requires |names| == |es| == |more| == |vs|
    ensures BindNames(BindingsOf(names, es, more), ListOf(vs, Nil), slots) == all + slots
    ensures CallSlots(all, names, Nil, vs)
    decreases |names|
  {
    if names == [] {
      all := [];
    } else {
      var first := Slot(names[0], vs[0]);
      var rest := SlotsOfLet(names[1..], es[1..], more[1..], vs[1..], [first] + slots);
      all := rest + [first];
      assert rest + ([first] + slots) == all + slots;
      forall i | 0 <= i < |names| ensures all[|all| - 1 - i] == Slot(names[i], vs[i]) {
        if i > 0 {
          assert rest[|rest| - 1 - (i - 1)] == Slot(names[1..][i - 1], vs[1..][i - 1]);
        }
      }
    }
  }

  // let: the expressions in turn, then the body in a frame of the names with the values.
  lemma LetLaw(prims: Prims, n: nat, names: seq<Datum>, es: seq<Datum>, more: seq<Datum>, body: Datum, env: nat,
               frames: Frames, vs: seq<Datum>, after: Frames) returns (slots: seq<Slot>)
    requires |names| == |es| == |more| && n > 0 && InTurn(prims, n, es, env, frames, vs, after)
    ensures CallSlots(slots, names, Nil, vs)
    ensures Alike(Eval(prims, n + 2, Pair(Sym("let"), Pair(BindingsOf(names, es, more), body)), env, frames),
                  Eval(prims, n, Pair(Sym("begin"), body), |after| + 1, after + [Frame(slots, env)]))
  {
    FormStep(prims, n + 1, Sym("let"), Pair(BindingsOf(names, es, more), body), env, frames);
    InitsInTurn(prims, n, names, es, more, env, frames, vs, after);
    slots := SlotsOfLet(names, es, more, vs, []);
    assert slots + [] == slots;
    BeginIsBody(prims, n - 1, body, |after| + 1, after + [Frame(slots, env)]);
  }

  // A named let: its frame also binds the name, to a procedure of the names that runs the body again in
  // that same environment.
  lemma NamedLetLaw(prims: Prims, n: nat, name: string, names: seq<Datum>, es: seq<Datum>, more: seq<Datum>,
                    body: Datum, env: nat, frames: Frames, vs: seq<Datum>, after: Frames)
    returns (slots: seq<Slot>)
    requires |names| == |es| == |more| && n > 0 && InTurn(prims, n, es, env, frames, vs, after)
    requires forall i :: 0 <= i < |more| ==> more[i] == Nil
    ensures CallSlots(slots, names, Nil, vs)
    ensures (var loop := Closure(Pair(ListOf(names, Nil), body), |after| + 1);
             Alike(Eval(prims, n + 2, Pair(Sym("let"), Pair(Sym(name), Pair(BindingsOf(names, es, more), body))), env,
                        frames),
                   Eval(prims, n, Pair(Sym("begin"), body), |after| + 1,
                        after + [Frame([Slot(Sym(name), loop)] + slots, env)])))
  {
    FormStep(prims, n + 1, Sym("let"), Pair(Sym(name), Pair(BindingsOf(names, es, more), body)), env, frames);
    InitsInTurn(prims, n, names, es, more, env, frames, vs, after);
    slots := SlotsOfLet(names, es, more, vs, []);
    assert slots + [] == slots;
    NamesAre(names, es, more);
    var loop := Closure(Pair(ListOf(names, Nil), body), |after| + 1);
    BeginIsBody(prims, n - 1, body, |after| + 1, after + [Frame([Slot(Sym(name), loop)] + slots, env)]);
  }

  lemma {:induction false} NamesAre(names: seq<Datum>, es: seq<Datum>, more: seq<Datum>)
    requires |names| == |es| == |more| && forall i :: 0 <= i < |more| ==> more[i] == Nil
    ensures NamesOf(BindingsOf(names, es, more)) == Names(ListOf(names, Nil))
  {
    if names != [] {
      NamesAre(names[1..], es[1..], more[1..]);
      assert IsList(Nil) && IsList(Pair(es[0], Nil)) && IsList(Pair(names[0], Pair(es[0], Nil)));
      assert more[0] == Nil;
    }
  }

  // A binding without an expression is an error, after the bindings before it have been evaluated.
  lemma BadLetLaw(prims: Prims, n: nat, d: Datum, rest: Datum, body: Datum, env: nat, frames: Frames)
    requires n > 2 && (!d.Pair? || !d.cdr.Pair?)
    ensures Eval(prims, n, Pair(Sym("let"), Pair(Pair(d, rest), body)), env, frames) == Fails(BadLet)
  {
    FormStep(prims, n - 1, Sym("let"), Pair(Pair(d, rest), body), env, frames);
  }
}
