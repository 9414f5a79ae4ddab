/** Whole runs of the machine, and how much dump they need. */
module Evaluation {
  import opened SchemeData
  import opened BigStep
  import opened Registers
  import opened Agreement

  // A machine that has been given an expression to evaluate, with nothing pending.
  predicate Fresh(m: Machine) {
    m.op == OpEval && m.dump == []
  }

  lemma SamePeak(prims: Prims, s: Status, j: nat, k: nat)
    requires !Run(prims, s, j).Go? && !Run(prims, s, k).Go?
    ensures Run(prims, s, j) == Run(prims, s, k) && Peak(prims, s, j) == Peak(prims, s, k)
  {
    if j <= k {
      RunMore(prims, s, j, k - j);
      NoMore(prims, Run(prims, s, j), k - j);
    } else {
      RunMore(prims, s, k, j - k);
      NoMore(prims, Run(prims, s, k), j - k);
    }
  }

  // The machine halts with a value exactly when the evaluator gives it, and the dump then grew
  // exactly as high as the evaluator says.
  lemma HaltsExactly(prims: Prims, m: Machine, v: Datum, frames: Frames, h: nat)
    requires Fresh(m)
    ensures (exists k: nat :: Run(prims, Go(m), k) == Halt(v, frames) && Peak(prims, Go(m), k) == h)
       <==> (exists n: nat :: Eval(prims, n, m.code, m.envir, m.frames) == Value(v, frames, h))
  {
    if k: nat :| Run(prims, Go(m), k) == Halt(v, frames) && Peak(prims, Go(m), k) == h {
      EvalAgrees(prims, k, m);
      var o := Eval(prims, k, m.code, m.envir, m.frames);
      var j := EndOf(prims, m, o, k);
      SamePeak(prims, Go(m), j, k);
      assert Eval(prims, k, m.code, m.envir, m.frames) == Value(v, frames, h);
    }
    if n: nat :| Eval(prims, n, m.code, m.envir, m.frames) == Value(v, frames, h) {
      EvalAgrees(prims, n, m);
      var j := EndOf(prims, m, Value(v, frames, h), n);
    }
  }

  // The machine stops with an error exactly when the evaluator does, and for the same reason.
  lemma FailsExactly(prims: Prims, m: Machine, r: Reason)
    requires Fresh(m)
    ensures (exists k: nat :: Run(prims, Go(m), k) == Stop(r))
       <==> (exists n: nat :: Eval(prims, n, m.code, m.envir, m.frames) == Fails(r))
  {
    if k: nat :| Run(prims, Go(m), k) == Stop(r) {
      EvalAgrees(prims, k, m);
      var o := Eval(prims, k, m.code, m.envir, m.frames);
      var j := EndOf(prims, m, o, k);
      SamePeak(prims, Go(m), j, k);
      assert Eval(prims, k, m.code, m.envir, m.frames) == Fails(r);
    }
    if n: nat :| Eval(prims, n, m.code, m.envir, m.frames) == Fails(r) {
      EvalAgrees(prims, n, m);
      var j := EndOf(prims, m, Fails(r), n);
    }
  }

  // It runs for ever exactly when the evaluator has no answer at any depth.
  lemma RunsForEver(prims: Prims, m: Machine)
    requires Fresh(m)
    ensures (forall k: nat :: Run(prims, Go(m), k).Go?) <==> (forall n: nat :: Eval(prims, n, m.code, m.envir,
                                                                                    m.frames).Timeout?)
  {
    if n: nat :| !Eval(prims, n, m.code, m.envir, m.frames).Timeout? {
      EvalAgrees(prims, n, m);
      var j := EndOf(prims, m, Eval(prims, n, m.code, m.envir, m.frames), n);
    }
    if k: nat :| !Run(prims, Go(m), k).Go? {
      EvalAgrees(prims, k, m);
      assert !Eval(prims, k, m.code, m.envir, m.frames).Timeout?;
    }
  }

  // Where the run of a fresh machine ends.
  lemma EndOf(prims: Prims, m: Machine, o: Outcome, n: nat) returns (j: nat)
    requires Fresh(m) && Agrees(prims, m, o, n)
    ensures match o
            case Value(v, frames, h) => Run(prims, Go(m), j) == Halt(v, frames) && Peak(prims, Go(m), j) == h
            case Fails(r) => Run(prims, Go(m), j) == Stop(r)
            case Timeout => j == n && Run(prims, Go(m), n).Go?
  {
    match o
    case Value(v, frames, h) => {
      var i: nat :| i > 0 && Run(prims, Go(m), i) == Halt(v, frames) && Peak(prims, Go(m), i) == |m.dump| + h;
      j := i;
    }
    case Fails(r) => {
      var i: nat :| Run(prims, Go(m), i) == Stop(r);
      j := i;
    }
    case Timeout => j := n;
  }
}
