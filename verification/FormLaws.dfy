/** What each form of the evaluator's language means, said of the outcomes of its parts alone. */
module FormLaws {
  import opened SchemeData
  import opened BigStep

  // The names of the forms; every other symbol is a variable.
  ghost predicate FormName(s: string) {
    s == "quote" || s == "lambda" || s == "if" || s == "begin" || s == "define" || s == "set!" || s == "let"
    || s == "and" || s == "or" || s == "let*" || s == "letrec" || s == "cond" || s == "delay"
    || s == "cons-stream" || s == "macro" || s == "case"
  }

  // A form is evaluated by its name.
  lemma FormStep(prims: Prims, n: nat, d: Datum, code: Datum, env: nat, frames: Frames)
    requires IsKeyword(d)
    ensures Eval(prims, n + 1, Pair(d, code), env, frames) == Special(prims, n, FormOf(d), code, env, frames)
  {
  }

  // ---------- variables ----------

  // The variable is seen from the environment env as the slot i of the frame e: the newest slot for it in
  // that frame, with none for it in the frames from env up to there.
  ghost predicate Seen(frames: Frames, env: nat, key: Datum, e: nat, i: nat)
    decreases env
  {
    && 0 < env <= |frames|
    && var f := frames[env - 1];
       if e == env then i < |f.slots| && f.slots[i].key == key && forall j :: 0 <= j < i ==> f.slots[j].key != key
       else (forall j :: 0 <= j < |f.slots| ==> f.slots[j].key != key)
            && f.parent < env && Seen(frames, f.parent, key, e, i)
  }

  lemma {:induction false} FindExactly(frames: Frames, env: nat, key: Datum, e: nat, i: nat)
    ensures Find(frames, env, key, true) == At(e, i) <==> Seen(frames, env, key, e, i)
    decreases env
  {
    if 0 < env <= |frames| {
      var f := frames[env - 1];
      SlotFound(f.slots, key, 0);
      if SlotOf(f.slots, key, 0) >= |f.slots| && f.parent < env {
        FindExactly(frames, f.parent, key, e, i);
      }
    }
  }

  lemma VariableLaw(prims: Prims, n: nat, s: string, env: nat, frames: Frames, e: nat, i: nat)
    requires n > 0
    ensures (var o := Eval(prims, n, Sym(s), env, frames);
             && (Seen(frames, env, Sym(s), e, i) ==>
                   0 < e <= |frames| && i < |frames[e - 1].slots| && o == Value(frames[e - 1].slots[i].val, frames, 0))
             && ((forall e', i' :: !Seen(frames, env, Sym(s), e', i')) ==> o == Fails(Unbound)))
  {
    FindExactly(frames, env, Sym(s), e, i);
    var p := Find(frames, env, Sym(s), true);
    if p.At? {
      FindExactly(frames, env, Sym(s), p.env, p.i);
    }
  }

  // ---------- constants ----------

  // Everything but symbols and pairs means itself, also the empty list.
  lemma ConstantLaw(prims: Prims, n: nat, d: Datum, env: nat, frames: Frames)
    requires n > 0 && !d.Sym? && !d.Pair?
    ensures Eval(prims, n, d, env, frames) == Value(d, frames, 0)
  {
  }

  lemma QuoteLaw(prims: Prims, n: nat, x: Datum, rest: Datum, env: nat, frames: Frames)
    requires n > 1
    ensures Eval(prims, n, Pair(Sym("quote"), Pair(x, rest)), env, frames) == Value(x, frames, 0)
  {
    FormStep(prims, n - 1, Sym("quote"), Pair(x, rest), env, frames);
  }

  // A procedure keeps its code and the environment it is made in.
  lemma LambdaLaw(prims: Prims, n: nat, code: Datum, env: nat, frames: Frames)
    requires n > 1 && forall e, i :: !Seen(frames, env, Sym("*compile-hook*"), e, i)
    ensures Eval(prims, n, Pair(Sym("lambda"), code), env, frames) == Value(Closure(code, env), frames, 0)
  {
    FormStep(prims, n - 1, Sym("lambda"), code, env, frames);
    var p := Find(frames, env, HOOK, true);
    if p.At? {
      FindExactly(frames, env, HOOK, p.env, p.i);
    }
  }

  // The forms that are not part of the model, and lambda with a compile hook.
  lemma OutsideLaw(prims: Prims, n: nat, s: string, code: Datum, env: nat, frames: Frames, e: nat, i: nat)
    requires n > 1
    requires s in ["let*", "letrec", "cond", "delay", "cons-stream", "macro", "case"]
             || (s == "lambda" && Seen(frames, env, Sym("*compile-hook*"), e, i))
    ensures Eval(prims, n, Pair(Sym(s), code), env, frames) == Fails(Outside)
  {
    FindExactly(frames, env, HOOK, e, i);
    FormStep(prims, n - 1, Sym(s), code, env, frames);
  }

  // ---------- conditionals ----------

  // The outcome o of a form whose last part has the outcome l, after one of the height h.
  ghost predicate Follows(o: Outcome, h: nat, l: Outcome) {
    if l.Value? then o == Value(l.v, l.frames, if l.height < h then h else l.height) else o == l
  }

  // if: z for #f, y for everything else, also for () and 0.
  lemma IfLaw(prims: Prims, n: nat, c: Datum, y: Datum, z: Datum, env: nat, frames: Frames)
    ensures (var o := Eval(prims, n + 2, Pair(Sym("if"), Pair(c, Pair(y, Pair(z, Nil)))), env, frames);
             var x := Eval(prims, n, c, env, frames);
             && (!x.Value? ==> o == x)
             && (x.Value? && x.v != F ==> Follows(o, x.height + 1, Eval(prims, n, y, env, x.frames)))
             && (x.Value? && x.v == F ==> Follows(o, x.height + 1, Eval(prims, n, z, env, x.frames))))
  {
    FormStep(prims, n + 1, Sym("if"), Pair(c, Pair(y, Pair(z, Nil))), env, frames);
  }

  // Without an else the value for #f is that of ().
  lemma IfShortLaw(prims: Prims, n: nat, c: Datum, y: Datum, env: nat, frames: Frames)
    ensures (var o := Eval(prims, n + 2, Pair(Sym("if"), Pair(c, Pair(y, Nil))), env, frames);
             var x := Eval(prims, n, c, env, frames);
             && (!x.Value? ==> o == x)
             && (x.Value? && x.v != F ==> Follows(o, x.height + 1, Eval(prims, n, y, env, x.frames)))
             && (x.Value? && x.v == F && n > 0 ==> o == Value(Nil, x.frames, x.height + 1)))
  {
    FormStep(prims, n + 1, Sym("if"), Pair(c, Pair(y, Nil)), env, frames);
    var x := Eval(prims, n, c, env, frames);
    if x.Value? && n > 0 {
      ConstantLaw(prims, n, Nil, env, x.frames);
    }
  }

  // and: #t without expressions, else the first value that is #f, or the last value.
  lemma AndLaw(prims: Prims, n: nat, a: Datum, rest: Datum, env: nat, frames: Frames)
    ensures Eval(prims, n + 2, Pair(Sym("and"), Nil), env, frames) == Value(T, frames, 0)
    ensures (var o := Eval(prims, n + 2, Pair(Sym("and"), Pair(a, rest)), env, frames);
             var x := Eval(prims, n, a, env, frames);
             && (!x.Value? ==> o == x)
             && (x.Value? && (x.v == F || rest == Nil) ==> o == Value(x.v, x.frames, x.height + 1))
             && (x.Value? && x.v != F && rest.Pair? && n > 0 ==>
                   Follows(o, x.height + 1, Eval(prims, n + 1, Pair(Sym("and"), rest), env, x.frames))))
  {
    FormStep(prims, n + 1, Sym("and"), Nil, env, frames);
    FormStep(prims, n + 1, Sym("and"), Pair(a, rest), env, frames);
    assert Special(prims, n + 1, FAnd, Pair(a, rest), env, frames)
        == Chain(prims, n + 1, true, Pair(a, rest), env, frames);
    var x := Eval(prims, n, a, env, frames);
    if x.Value? && rest.Pair? && n > 0 {
      FormStep(prims, n, Sym("and"), rest, env, x.frames);
      assert Special(prims, n, FAnd, rest, env, x.frames) == Chain(prims, n, true, rest, env, x.frames);
    }
  }

  // or: #f without expressions, else the first value that is not #f, or the last value.
  lemma OrLaw(prims: Prims, n: nat, a: Datum, rest: Datum, env: nat, frames: Frames)
    ensures Eval(prims, n + 2, Pair(Sym("or"), Nil), env, frames) == Value(F, frames, 0)
    ensures (var o := Eval(prims, n + 2, Pair(Sym("or"), Pair(a, rest)), env, frames);
             var x := Eval(prims, n, a, env, frames);
             && (!x.Value? ==> o == x)
             && (x.Value? && (x.v != F || rest == Nil) ==> o == Value(x.v, x.frames, x.height + 1))
             && (x.Value? && x.v == F && rest.Pair? && n > 0 ==>
                   Follows(o, x.height + 1, Eval(prims, n + 1, Pair(Sym("or"), rest), env, x.frames))))
  {
    FormStep(prims, n + 1, Sym("or"), Nil, env, frames);
    FormStep(prims, n + 1, Sym("or"), Pair(a, rest), env, frames);
    assert Special(prims, n + 1, FOr, Pair(a, rest), env, frames)
        == Chain(prims, n + 1, false, Pair(a, rest), env, frames);
    var x := Eval(prims, n, a, env, frames);
    if x.Value? && rest.Pair? && n > 0 {
      FormStep(prims, n, Sym("or"), rest, env, x.frames);
      assert Special(prims, n, FOr, rest, env, x.frames) == Chain(prims, n, false, rest, env, x.frames);
    }
  }

  // begin: each expression in turn, the last one without anything pending.
  lemma BeginLaw(prims: Prims, n: nat, a: Datum, rest: Datum, env: nat, frames: Frames)
    ensures Eval(prims, n + 2, Pair(Sym("begin"), Nil), env, frames) == Value(Nil, frames, 0)
    ensures (var o := Eval(prims, n + 2, Pair(Sym("begin"), Pair(a, rest)), env, frames);
             var x := Eval(prims, n, a, env, frames);
             && (rest == Nil ==> o == x)
             && (rest != Nil && !x.Value? ==> o == x)
             && (rest != Nil && x.Value? && n > 0 ==>
                   Follows(o, x.height + 1, Eval(prims, n + 1, Pair(Sym("begin"), rest), env, x.frames))))
  {
    FormStep(prims, n + 1, Sym("begin"), Nil, env, frames);
    FormStep(prims, n + 1, Sym("begin"), Pair(a, rest), env, frames);
    assert Special(prims, n + 1, FBegin, Pair(a, rest), env, frames) == Body(prims, n + 1, Pair(a, rest), env, frames);
    var x := Eval(prims, n, a, env, frames);
    if x.Value? && n > 0 {
      FormStep(prims, n, Sym("begin"), rest, env, x.frames);
      assert Special(prims, n, FBegin, rest, env, x.frames) == Body(prims, n, rest, env, x.frames);
    }
  }

  // ---------- definitions and assignments ----------

  // The frames with the slot i of the frame e holding v, and with a new slot in front of the frame e.
  ghost predicate Assigned(frames: Frames, after: Frames, e: nat, i: nat, v: Datum) {
    && 0 < e <= |frames| && i < |frames[e - 1].slots|
    && after == frames[e - 1 := Frame(frames[e - 1].slots[i := Slot(frames[e - 1].slots[i].key, v)],
                                      frames[e - 1].parent)]
  }

  ghost predicate Added(frames: Frames, after: Frames, e: nat, key: Datum, v: Datum) {
    && 0 < e <= |frames|
    && after == frames[e - 1 := Frame([Slot(key, v)] + frames[e - 1].slots, frames[e - 1].parent)]
  }

  // define: the variable's slot in the innermost frame, a new one if there is none; the value is the symbol.
  lemma DefineLaw(prims: Prims, n: nat, s: string, e: Datum, rest: Datum, env: nat, frames: Frames, i: nat)
    ensures (var o := Eval(prims, n + 2, Pair(Sym("define"), Pair(Sym(s), Pair(e, rest))), env, frames);
             var x := Eval(prims, n, e, env, frames);
             && (!x.Value? ==> o == x)
             && (x.Value? ==> o.Value? && o.v == Sym(s) && o.height == x.height + 1)
             && (x.Value? && Seen(x.frames, env, Sym(s), env, i) ==> Assigned(x.frames, o.frames, env, i, x.v))
             && (x.Value? && 0 < env <= |x.frames| && (forall j :: !Seen(x.frames, env, Sym(s), env, j)) ==>
                   Added(x.frames, o.frames, env, Sym(s), x.v)))
  {
    FormStep(prims, n + 1, Sym("define"), Pair(Sym(s), Pair(e, rest)), env, frames);
    var x := Eval(prims, n, e, env, frames);
    if x.Value? && 0 < env <= |x.frames| {
      var slots := x.frames[env - 1].slots;
      SlotFound(slots, Sym(s), 0);
      var k := SlotOf(slots, Sym(s), 0);
      assert k < |slots| ==> Seen(x.frames, env, Sym(s), env, k);
    }
  }

  // (define (f . formals) . body) defines f as the procedure.
  lemma DefineProcedureLaw(prims: Prims, n: nat, s: string, formals: Datum, body: Datum, env: nat, frames: Frames)
    ensures Eval(prims, n, Pair(Sym("define"), Pair(Pair(Sym(s), formals), body)), env, frames)
            == Eval(prims, n, Pair(Sym("define"), Pair(Sym(s), Pair(Pair(Sym("lambda"), Pair(formals, body)), Nil))),
                    env, frames)
  {
    if n > 0 {
      FormStep(prims, n - 1, Sym("define"), Pair(Pair(Sym(s), formals), body), env, frames);
      FormStep(prims, n - 1, Sym("define"), Pair(Sym(s), Pair(Pair(Sym("lambda"), Pair(formals, body)), Nil)), env,
               frames);
    }
  }

  // Literals cannot be defined or assigned, and only symbols can.
  lemma BadDefineLaw(prims: Prims, n: nat, d: Datum, e: Datum, rest: Datum, env: nat, frames: Frames)
    requires n > 1 && !d.Sym?
    ensures (var o := Eval(prims, n, Pair(Sym("define"), Pair(d, Pair(e, rest))), env, frames);
             && (d.Str? ==> o == Fails(Immutable))
             && (!d.Str? && (d.Pair? ==> !d.car.Sym?) ==> o == Fails(NotASymbol)))
    ensures d.Str? ==> Eval(prims, n, Pair(Sym("set!"), Pair(d, Pair(e, rest))), env, frames) == Fails(Immutable)
  {
    FormStep(prims, n - 1, Sym("define"), Pair(d, Pair(e, rest)), env, frames);
    FormStep(prims, n - 1, Sym("set!"), Pair(d, Pair(e, rest)), env, frames);
  }

  // set!: the variable's slot, wherever it is seen; the value is the new one.
  lemma SetLaw(prims: Prims, n: nat, s: string, e: Datum, rest: Datum, env: nat, frames: Frames, k: nat, i: nat)
    ensures (var o := Eval(prims, n + 2, Pair(Sym("set!"), Pair(Sym(s), Pair(e, rest))), env, frames);
             var x := Eval(prims, n, e, env, frames);
             && (!x.Value? ==> o == x)
             && (x.Value? && Seen(x.frames, env, Sym(s), k, i) ==>
                   o.Value? && o.v == x.v && o.height == x.height + 1 && Assigned(x.frames, o.frames, k, i, x.v))
             && (x.Value? && (forall k', i' :: !Seen(x.frames, env, Sym(s), k', i')) ==> o == Fails(Unbound)))
  {
    FormStep(prims, n + 1, Sym("set!"), Pair(Sym(s), Pair(e, rest)), env, frames);
    var x := Eval(prims, n, e, env, frames);
    if x.Value? {
      FindExactly(x.frames, env, Sym(s), k, i);
      var p := Find(x.frames, env, Sym(s), true);
      if p.At? {
        FindExactly(x.frames, env, Sym(s), p.env, p.i);
      }
    }
  }
}
