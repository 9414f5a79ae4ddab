/** The prover as it runs: registers and a stack of choices that are overwritten in place. */
module ProverObject {
  import opened Unification
  import opened Resolution
  import opened Prover
  import opened BindingList

  class Search {
    const db: Database
    var q: seq<Choice>
    var env: Env
    var n: int
    var nl: seq<int>
    var alt: seq<Clause>
    var tp1: seq<Goal>
    var tp2: seq<seq<Goal>>

    constructor (db: Database, goals: seq<Goal>)
      ensures this.db == db && Mach() == Start(goals)
    {
      this.db := db;
      q, env, n, nl, alt, tp1, tp2 := [], [], 1, [0], [], goals, [];
    }

    function Mach(): Machine
      reads this
    {
      Machine(Choice(n, nl, alt, tp1, tp2, env), q)
    }

    // The loop of lookup1 and lookup2: scan the environment from its newest binding, and start again
    // with what the variable is bound to.
    method LookUp(n: int, x: Any) returns (m: int, y: Any)
      requires Chains(env)
      ensures (m, y) == Lookup(env, n, x)
    {
      m, y := n, x;
      while IsVar(y)
        invariant Lookup(env, m, y) == Lookup(env, n, x)
        decreases if IsVar(y) && Find(env, m, y) < |env| then Find(env, m, y) + 1 else 0
      {
        var i := 0;
        while i < |env| && !(env[i].n == m && env[i].x == y)
          invariant 0 <= i <= |env|
          invariant forall j :: 0 <= j < i ==> !(env[j].n == m && env[j].x == y)
        {
          i := i + 1;
        }
        if i == |env| {
          return;
        }
        m, y := env[i].m, env[i].y;
      }
    }

    // unify
    method UnifyTerms(ghost depth: nat, n1: int, x1: Any, n2: int, x2: Any) returns (ok: bool)
      requires Chains(env) && !Unify(depth, env, n1, x1, n2, x2).Stuck?
      modifies this`env
      ensures Chains(env)
      ensures Unify(depth, old(env), n1, x1, n2, x2) == (if ok then Yes(env) else No)
      ensures !ok ==> env == old(env)
      decreases depth
    {
      var m1, y1 := LookUp(n1, x1);
      var m2, y2 := LookUp(n2, x2);
      if m1 == m2 && y1 == y2 {
        return true;
      }
      if IsVar(y1) {
        if y1 != At {
          env := [Binding(m1, y1, m2, y2)] + env;
        }
        return true;
      }
      if IsVar(y2) {
        if y2 != At {
          env := [Binding(m2, y2, m1, y1)] + env;
        }
        return true;
      }
      if !y1.Cell? || !y2.Cell? {
        return y1 == y2;
      }
      var saved := env;
      ok := UnifyTerms(depth - 1, m1, y1.car, m2, y2.car);
      if ok {
        ok := UnifyTerms(depth - 1, m1, y1.cdr, m2, y2.cdr);
      }
      if !ok {
        env := saved;
      }
    }

    // The registers of the newest alternative.
    method Restore() returns (some: bool)
      modifies this
      ensures Backtrack(old(q)) == if some then Running(Mach()) else Exhausted
    {
      if q == [] {
        tp1, tp2, alt := [], [], [];
        return false;
      }
      var c := q[0];
      q := q[1..];
      env, n, nl, alt, tp1, tp2 := c.env, c.n, c.nl, c.alt, c.tp1, c.tp2;
      return true;
    }

    // prove: run until an answer is found or no alternative is left.  steps bounds the rounds of the
    // run and depth the nesting of unifications in it.
    method Prove(ghost steps: nat, ghost depth: nat) returns (found: bool)
      requires MachineShape(Mach())
      requires Run(steps, depth, db, Mach()).Answer? || Run(steps, depth, db, Mach()).Exhausted?
      modifies this
      ensures Run(steps, depth, db, old(Mach())) == if found then Answer(Mach()) else Exhausted
    {
      ghost var left := steps;
      found := true;
      while found && (tp1 != [] || tp2 != [])
        invariant found ==> MachineShape(Mach())
        invariant found ==> Run(left, depth, db, Mach()) == Run(steps, depth, db, old(Mach()))
        invariant !found ==> Run(steps, depth, db, old(Mach())) == Exhausted
        decreases found, left
      {
        found := Round(depth);
        left := left - 1;
      }
    }

    // lup, in the environment of an answer; d bounds the nesting of the term.
    method LookUpAll(ghost d: nat, n: int, x: Any) returns (t: Any)
      requires Chains(env) && Fill(d, env, n, x).Term?
      ensures t == Fill(d, env, n, x).x
      decreases d
    {
      var m, y := LookUp(n, x);
      if !y.Cell? {
        return y;
      }
      var a := LookUpAll(d - 1, m, y.car);
      var b := LookUpAll(d - 1, m, y.cdr);
      return Cell(a, b);
    }

    // The loop over the bindings at the end of prove: those of the query's variables, oldest first.
    method QueryBindings(ghost d: nat) returns (e: seq<Pair>)
      requires Chains(env) && QueryFills(d, env)
      ensures e == ListOf(d, env, |env|)
    {
      e := [];
      var i := 0;
      while i < |env|
        invariant 0 <= i <= |env| && e == ListOf(d, env, i)
      {
        if env[i].n == 0 {
          var t := LookUpAll(d, 0, env[i].x);
          e := [Pair(env[i].x, Shown(t))] + e;
        }
        i := i + 1;
      }
    }

    // prove, with what it returns.
    method ProveQuery(ghost steps: nat, ghost depth: nat, ghost d: nat) returns (r: Reply)
      requires MachineShape(Mach())
      requires Run(steps, depth, db, Mach()).Answer? || Run(steps, depth, db, Mach()).Exhausted?
      requires (var s := Run(steps, depth, db, Mach()); s.Answer? ==> QueryFills(d, s.m.cur.env))
      modifies this
      ensures Replies(d, old(Run(steps, depth, db, Mach())), r)
    {
      var found := Prove(steps, depth);
      if !found {
        return Failed;
      }
      var e := QueryBindings(d);
      return if e == [] then Proved else Bindings(e);
    }

    // One round of the loop.
    method Round(ghost depth: nat) returns (some: bool)
      requires MachineShape(Mach()) && (tp1 != [] || tp2 != []) && !Step(depth, db, Mach()).Lost?
      modifies this
      ensures Step(depth, db, old(Mach())) == if some then Running(Mach()) else Exhausted
    {
      some := true;
      if alt != [] {
        var e := env;
        var ok := UnifyTerms(depth, nl[0], tp1[0].args, n, alt[0].head);
        if !ok {
          alt := alt[1..];
          if alt == [] {
            some := Restore();
          }
        } else {
          if alt[1..] != [] {
            q := [Choice(n, nl, alt[1..], tp1, tp2, e)] + q;
          }
          nl := [n] + nl;
          n := n + 1;
          tp2 := [tp1[1..]] + tp2;
          tp1 := alt[0].body;
          alt := [];
        }
      } else if tp1 == [] {
        tp1 := tp2[0];
        tp2 := tp2[1..];
        nl := nl[1..];
      } else {
        alt := Clauses(db, tp1[0].pred);
        if alt == [] {
          some := Restore();
        }
      }
    }
  }
}
