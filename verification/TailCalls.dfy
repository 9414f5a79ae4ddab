/** How much dump a loop needs that is written as a procedure calling itself. */
module TailCalls {
  import opened SchemeData
  import opened BigStep
  import opened FormLaws

  function X(): Datum {
    Sym("x")
  }

  function Loop(): Datum {
    Sym("loop")
  }

  function Call(f: Datum, a: Datum): Datum {
    Pair(f, Pair(a, Nil))
  }

  function One(a: Datum): Datum {
    Pair(a, Nil)
  }

  function IfExpr(c: Datum, y: Datum, z: Datum): Datum {
    Pair(Sym("if"), Pair(c, Pair(y, One(z))))
  }

  function AndExpr(c: Datum, z: Datum): Datum {
    Pair(Sym("and"), Pair(c, One(z)))
  }

  // (lambda (x) (if (test x) x (loop (next x)))), test and next being primitive procedures.
  function IfLoop(test: nat, next: nat): Datum {
    Pair(One(X()), One(IfExpr(Call(Proc(test), X()), X(), Call(Loop(), Call(Proc(next), X())))))
  }

  // (lambda (x) (and (test x) (loop (next x))))
  function AndLoop(test: nat, next: nat): Datum {
    Pair(One(X()), One(AndExpr(Call(Proc(test), X()), Call(Loop(), Call(Proc(next), X())))))
  }

  // In the environment env the variable loop is the procedure with that code.
  ghost predicate Bound(frames: Frames, env: nat, code: Datum) {
    var p := Find(frames, env, Loop(), true);
    p.At? && ValueIn(frames, p) == Closure(code, env)
  }

  // New frames do not change what a variable means in an old environment.
  lemma {:induction false} FindLater(frames: Frames, more: Frames, env: nat, key: Datum)
    requires env <= |frames|
    ensures (var p := Find(frames, env, key, true); var q := Find(frames + more, env, key, true);
             q == p && (p.At? ==> ValueIn(frames + more, q) == ValueIn(frames, p)))
    decreases env
  {
    if env > 0 && SlotOf(frames[env - 1].slots, key, 0) >= |frames[env - 1].slots| && frames[env - 1].parent < env {
      FindLater(frames, more, frames[env - 1].parent, key);
    }
  }

  // The environment of a call: x is the argument, loop what it was.
  ghost predicate Inside(frames: Frames, env: nat, a: Datum, code: Datum, home: nat) {
    var p := Find(frames, env, X(), true);
    var q := Find(frames, env, Loop(), true);
    p.At? && ValueIn(frames, p) == a && q.At? && ValueIn(frames, q) == Closure(code, home) && home <= |frames|
      && Bound(frames, home, code)
  }

  lemma Called(frames: Frames, home: nat, a: Datum, code: Datum)
    requires Bound(frames, home, code)
    ensures Inside(frames + [Frame([Slot(X(), a)], home)], |frames| + 1, a, code, home)
  {
    var more := frames + [Frame([Slot(X(), a)], home)];
    FindLater(frames, [Frame([Slot(X(), a)], home)], home, Loop());
    var env := |frames| + 1;
    assert SlotOf(more[env - 1].slots, X(), 0) == 0;
    assert SlotOf(more[env - 1].slots, Loop(), 0) == SlotOf(more[env - 1].slots, Loop(), 1) == 1;
    assert Find(more, env, Loop(), true) == Find(more, home, Loop(), true);
  }

  // Calling a primitive procedure on x needs one pending operation.
  lemma PrimCall(prims: Prims, n: nat, id: nat, a: Datum, env: nat, frames: Frames)
    requires (var p := Find(frames, env, X(), true); p.At? && ValueIn(frames, p) == a)
    ensures (var o := Eval(prims, n, Call(Proc(id), X()), env, frames);
             o.Value? ==> prims(id, One(a)).Returns? && o == Value(prims(id, One(a)).v, frames, 1))
  {
    if n > 2 {
      assert Eval(prims, n - 1, Proc(id), env, frames) == Value(Proc(id), frames, 0);
      assert Eval(prims, n - 2, X(), env, frames) == Value(a, frames, 0);
      assert EvalAll(prims, n - 2, Nil, env, frames) == Value(Nil, frames, 0);
      assert EvalAll(prims, n - 1, One(X()), env, frames) == Value(One(a), frames, 1);
    } else if n == 2 {
      assert Eval(prims, 0, X(), env, frames) == Timeout;
      assert EvalAll(prims, 1, One(X()), env, frames) == Timeout;
    } else if n == 1 {
      assert Eval(prims, 0, Proc(id), env, frames) == Timeout;
    }
  }

  // Calling loop on the next x: the call itself needs nothing beyond what its argument needs.
  lemma LoopCall(prims: Prims, n: nat, next: nat, a: Datum, code: Datum, env: nat, home: nat, frames: Frames)
    requires Inside(frames, env, a, code, home)
    ensures (var o := Eval(prims, n, Call(Loop(), Call(Proc(next), X())), env, frames);
             o.Value? ==> n > 0 && prims(next, One(a)).Returns?
                          && o == After(2, Apply(prims, n - 1, Closure(code, home), One(prims(next, One(a)).v),
                                                 frames)))
  {
    var e := Call(Proc(next), X());
    if n > 2 {
      PrimCall(prims, n - 2, next, a, env, frames);
      assert Eval(prims, n - 1, Loop(), env, frames) == Value(Closure(code, home), frames, 0);
      assert EvalAll(prims, n - 2, Nil, env, frames) == Value(Nil, frames, 0);
      assert EvalAll(prims, n - 1, One(e), env, frames).Value? ==> Eval(prims, n - 2, e, env, frames).Value?;
    } else if n == 2 {
      assert Eval(prims, 0, e, env, frames) == Timeout;
      assert EvalAll(prims, 1, One(e), env, frames) == Timeout;
    } else if n == 1 {
      assert Eval(prims, 0, Loop(), env, frames) == Timeout;
    }
  }

  // Entering the procedure: its body is evaluated in an environment of its own.
  lemma Entered(prims: Prims, n: nat, a: Datum, e: Datum, home: nat, frames: Frames) returns (env: nat, inner: Frames)
    requires Bound(frames, home, Pair(One(X()), One(e)))
    ensures Inside(inner, env, a, Pair(One(X()), One(e)), home) && |inner| == |frames| + 1
    ensures (var o := Apply(prims, n, Closure(Pair(One(X()), One(e)), home), One(a), frames);
             o.Value? ==> n >= 2 && o == Eval(prims, n - 2, e, env, inner))
  {
    env, inner := |frames| + 1, frames + [Frame([Slot(X(), a)], home)];
    Called(frames, home, a, Pair(One(X()), One(e)));
    assert BindFormals(One(X()), One(a), []) == BindFormals(Nil, Nil, [Slot(X(), a)]);
    if n >= 2 {
      assert Body(prims, n - 1, One(e), env, inner) == Eval(prims, n - 2, e, env, inner);
    }
  }

  // if evaluates its condition with one pending operation and its branch with none.
  lemma IfNeeds(prims: Prims, n: nat, c: Datum, y: Datum, z: Datum, env: nat, frames: Frames)
    ensures (var o := Eval(prims, n, IfExpr(c, y, z), env, frames);
             o.Value? ==> n > 1 && (var x := Eval(prims, n - 2, c, env, frames);
                                    && x.Value?
                                    && (x.v != F ==> o == After(x.height + 1, Eval(prims, n - 2, y, env, x.frames)))
                                    && (x.v == F ==> o == After(x.height + 1,
                                                                   Eval(prims, n - 2, z, env, x.frames)))))
  {
    assert IsKeyword(Sym("if")) && FormOf(Sym("if")) == FIf;
    if n > 0 {
      assert Eval(prims, n, IfExpr(c, y, z), env, frames)
          == Special(prims, n - 1, FIf, Pair(c, Pair(y, One(z))), env, frames);
    }
  }

  // and evaluates each expression with one pending operation, the last one too.
  lemma AndNeeds(prims: Prims, n: nat, c: Datum, z: Datum, env: nat, frames: Frames)
    ensures (var o := Eval(prims, n, AndExpr(c, z), env, frames);
             o.Value? ==> n > 1 && (var x := Eval(prims, n - 2, c, env, frames);
                                    && x.Value?
                                    && (if x.v == F then o == Value(x.v, x.frames, x.height + 1)
                                        else n > 2 && (var l := Eval(prims, n - 3, z, env, x.frames);
                                                       l.Value? && o == Value(l.v, l.frames,
                                                                              Max(x.height + 1, l.height + 1))))))
  {
    hide Eval;
    if n > 1 {
      var x := Eval(prims, n - 2, c, env, frames);
      AndLaw(prims, n - 2, c, One(z), env, frames);
      if n > 2 && x.Value? {
        AndLaw(prims, n - 3, z, Nil, env, x.frames);
      }
    }
    if n <= 2 {
      AtOnce(prims, n, Sym("and"), c, z, env, frames);
    }
  }

  // or evaluates each expression with one pending operation, the last one too.
  lemma OrNeeds(prims: Prims, n: nat, c: Datum, z: Datum, env: nat, frames: Frames)
    ensures (var o := Eval(prims, n, Pair(Sym("or"), Pair(c, One(z))), env, frames);
             o.Value? ==> n > 1 && (var x := Eval(prims, n - 2, c, env, frames);
                                    && x.Value?
                                    && (if x.v != F then o == Value(x.v, x.frames, x.height + 1)
                                        else n > 2 && (var l := Eval(prims, n - 3, z, env, x.frames);
                                                       l.Value? && o == Value(l.v, l.frames,
                                                                              Max(x.height + 1, l.height + 1))))))
  {
    hide Eval;
    if n > 1 {
      var x := Eval(prims, n - 2, c, env, frames);
      OrLaw(prims, n - 2, c, One(z), env, frames);
      if n > 2 && x.Value? {
        OrLaw(prims, n - 3, z, Nil, env, x.frames);
      }
    }
    if n <= 2 {
      AtOnce(prims, n, Sym("or"), c, z, env, frames);
    }
  }

  lemma AtOnce(prims: Prims, n: nat, d: Datum, c: Datum, z: Datum, env: nat, frames: Frames)
    requires n <= 2 && (d == Sym("and") || d == Sym("or"))
    ensures !Eval(prims, n, Pair(d, Pair(c, One(z))), env, frames).Value?
  {
    if n > 0 {
      FormStep(prims, n - 1, d, Pair(c, One(z)), env, frames);
    }
    if n == 2 {
      assert Eval(prims, 0, c, env, frames) == Timeout;
    }
  }

  // A loop that calls itself from a branch of if needs a dump of two frames, for any number of rounds.
  lemma {:induction false} IfLoopFlat(prims: Prims, n: nat, test: nat, next: nat, a: Datum, home: nat, frames: Frames)
    requires Bound(frames, home, IfLoop(test, next))
    ensures (var o := Apply(prims, n, Closure(IfLoop(test, next), home), One(a), frames); o.Value? ==> o.height == 2)
    decreases n
  {
    hide Eval, Apply, Find, Bound;
    var inner := IfLoopUnrolls(prims, n, test, next, a, home, frames);
    if n > 4 && prims(next, One(a)).Returns? {
      IfLoopFlat(prims, n - 5, test, next, prims(next, One(a)).v, home, inner);
    }
  }

  // One round: the test, and then x itself or the next call.
  lemma IfLoopUnrolls(prims: Prims, n: nat, test: nat, next: nat, a: Datum, home: nat,
                      frames: Frames) returns (inner: Frames)
    requires Bound(frames, home, IfLoop(test, next))
    ensures Bound(inner, home, IfLoop(test, next))
    ensures (var o := Apply(prims, n, Closure(IfLoop(test, next), home), One(a), frames);
             o.Value? ==> n > 3 && (o.height == 2 || (n > 4 && prims(next, One(a)).Returns?
                          && (var r := Apply(prims, n - 5, Closure(IfLoop(test, next), home),
                                             One(prims(next, One(a)).v), inner);
                              r.Value? && o.height == Max(2, r.height)))))
  {
    var e := IfExpr(Call(Proc(test), X()), X(), Call(Loop(), Call(Proc(next), X())));
    assert IfLoop(test, next) == Pair(One(X()), One(e));
    hide Eval, Apply, Find, Inside, Bound, Call, IfLoop, IfExpr, X, Loop, One;
    var env;
    env, inner := Entered(prims, n, a, e, home, frames);
    InsideBound(inner, env, a, IfLoop(test, next), home);
    if n >= 2 {
      IfLoopRound(prims, n - 2, test, next, a, IfLoop(test, next), env, home, inner);
    }
  }

  lemma IfLoopRound(prims: Prims, n: nat, test: nat, next: nat, a: Datum, code: Datum, env: nat, home: nat,
                    frames: Frames)
    requires Inside(frames, env, a, code, home)
    ensures (var o := Eval(prims, n, IfExpr(Call(Proc(test), X()), X(), Call(Loop(), Call(Proc(next), X()))), env,
                           frames);
             o.Value? ==> n > 1 && (o.height == 2 || (n > 2 && prims(next, One(a)).Returns?
                          && (var r := Apply(prims, n - 3, Closure(code, home), One(prims(next, One(a)).v), frames);
                              r.Value? && o.height == Max(2, r.height)))))
  {
    hide Eval, Apply, Find, Inside, Call, IfExpr, X, Loop, One;
    IfNeeds(prims, n, Call(Proc(test), X()), X(), Call(Loop(), Call(Proc(next), X())), env, frames);
    if n >= 2 {
      Pieces(prims, n - 2, test, next, a, code, env, home, frames);
    }
  }

  lemma InsideBound(frames: Frames, env: nat, a: Datum, code: Datum, home: nat)
    requires Inside(frames, env, a, code, home)
    ensures Bound(frames, home, code)
  {
  }

  // The expressions of the procedure body.
  lemma Pieces(prims: Prims, n: nat, test: nat, next: nat, a: Datum, code: Datum, env: nat, home: nat, frames: Frames)
    requires Inside(frames, env, a, code, home)
    ensures (var o := Eval(prims, n, Call(Proc(test), X()), env, frames);
             o.Value? ==> prims(test, One(a)).Returns? && o == Value(prims(test, One(a)).v, frames, 1))
    ensures Eval(prims, n, X(), env, frames).Value? ==> Eval(prims, n, X(), env, frames).height == 0
    ensures (var o := Eval(prims, n, Call(Loop(), Call(Proc(next), X())), env, frames);
             o.Value? ==> n > 0 && prims(next, One(a)).Returns?
                          && o == After(2, Apply(prims, n - 1, Closure(code, home), One(prims(next, One(a)).v),
                                                 frames)))
  {
    PrimCall(prims, n, test, a, env, frames);
    LoopCall(prims, n, next, a, code, env, home, frames);
  }

  // How many times in a row the test holds, up to n.
  ghost function Rounds(prims: Prims, n: nat, test: nat, next: nat, a: Datum): nat {
    if n == 0 then 0
    else
      match prims(test, One(a))
      case Rejects => 0
      case Returns(v) =>
        if v == F || prims(next, One(a)).Rejects? then 0
           else 1 + Rounds(prims, n - 1, test, next, prims(next, One(a)).v)
  }

  // The same loop written with and needs one more frame for every round.
  lemma {:induction false} AndLoopClimbs(prims: Prims, n: nat, test: nat, next: nat, a: Datum, home: nat,
                                         frames: Frames)
    requires Bound(frames, home, AndLoop(test, next))
    ensures (var o := Apply(prims, n, Closure(AndLoop(test, next), home), One(a), frames);
             o.Value? ==> forall r: nat :: r >= n ==> o.height == 2 + Rounds(prims, r, test, next, a))
    decreases n
  {
    hide Eval, Apply, Find, Bound;
    var inner := AndLoopUnrolls(prims, n, test, next, a, home, frames);
    if n > 5 && prims(next, One(a)).Returns? {
      AndLoopClimbs(prims, n - 6, test, next, prims(next, One(a)).v, home, inner);
    }
  }

  lemma AndLoopUnrolls(prims: Prims, n: nat, test: nat, next: nat, a: Datum, home: nat,
                       frames: Frames) returns (inner: Frames)
    requires Bound(frames, home, AndLoop(test, next))
    ensures Bound(inner, home, AndLoop(test, next))
    ensures (var o := Apply(prims, n, Closure(AndLoop(test, next), home), One(a), frames);
             o.Value? ==> n > 3 && prims(test, One(a)).Returns?
                          && (if prims(test, One(a)).v == F then o.height == 2
                              else n > 5 && prims(next, One(a)).Returns?
                                   && (var r := Apply(prims, n - 6, Closure(AndLoop(test, next), home),
                                                      One(prims(next, One(a)).v), inner);
                                       r.Value? && o.height == Max(2, Max(2, r.height) + 1))))
  {
    var e := AndExpr(Call(Proc(test), X()), Call(Loop(), Call(Proc(next), X())));
    assert AndLoop(test, next) == Pair(One(X()), One(e));
    hide Eval, Apply, Find, Inside, Bound, Call, AndLoop, AndExpr, X, Loop, One;
    var env;
    env, inner := Entered(prims, n, a, e, home, frames);
    InsideBound(inner, env, a, AndLoop(test, next), home);
    if n >= 2 {
      AndLoopRound(prims, n - 2, test, next, a, AndLoop(test, next), env, home, inner);
    }
  }

  lemma AndLoopRound(prims: Prims, n: nat, test: nat, next: nat, a: Datum, code: Datum, env: nat, home: nat,
                     frames: Frames)
    requires Inside(frames, env, a, code, home)
    ensures (var o := Eval(prims, n, AndExpr(Call(Proc(test), X()), Call(Loop(), Call(Proc(next), X()))), env, frames);
             o.Value? ==> n > 1 && prims(test, One(a)).Returns?
                          && (if prims(test, One(a)).v == F then o.height == 2
                              else n > 3 && prims(next, One(a)).Returns?
                                   && (var r := Apply(prims, n - 4, Closure(code, home), One(prims(next, One(a)).v),
                                                      frames);
                                       r.Value? && o.height == Max(2, Max(2, r.height) + 1))))
  {
    hide Eval, Apply, Find, Inside, Call, AndExpr, X, Loop, One;
    AndNeeds(prims, n, Call(Proc(test), X()), Call(Loop(), Call(Proc(next), X())), env, frames);
    if n >= 2 {
      Pieces(prims, n - 2, test, next, a, code, env, home, frames);
    }
    if n >= 3 {
      Pieces(prims, n - 3, test, next, a, code, env, home, frames);
    }
  }
}
