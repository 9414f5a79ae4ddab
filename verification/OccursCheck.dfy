/** Which environments some valuation satisfies: exactly those whose bindings would all have passed the
    occurs check that unify leaves out. */
module OccursCheck {
  import opened Unification

  // Each variable of a level is bound at most once, and only variables are.
  ghost predicate Once(env: Env) {
    && (forall i :: 0 <= i < |env| ==> IsVar(env[i].x))
    && (forall i, j :: 0 <= i < j < |env| ==> env[i].n != env[j].n || env[i].x != env[j].x)
  }

  // The variable x of level n occurs in the term t of level m, after at most d bindings have been followed.
  predicate OccursIn(d: nat, env: Env, n: int, x: Any, m: int, t: Any)
    decreases d, t
  {
    if IsVar(t) then
      (n == m && x == t)
      || (d > 0 && Bound(env, m, t) && OccursIn(d - 1, env, n, x, env[Find(env, m, t)].m, env[Find(env, m, t)].y))
    else t.Cell? && (OccursIn(d, env, n, x, m, t.car) || OccursIn(d, env, n, x, m, t.cdr))
  }

  ghost predicate Occurs(env: Env, n: int, x: Any, m: int, t: Any) {
    exists d: nat :: OccursIn(d, env, n, x, m, t)
  }

  // The check for a new binding.
  ghost predicate Passes(env: Env, b: Binding) {
    !Occurs(env, b.n, b.x, b.m, b.y)
  }

  // Every binding would have passed it when it was made.
  ghost predicate AllPass(env: Env) {
    env != [] ==> Passes(env[1..], env[0]) && AllPass(env[1..])
  }

  // ---------- ranks ----------

  // A rank of the variables that falls from a bound variable to those of the term it stands for.
  type Rank = (int, Any) -> nat

  ghost predicate Under(rank: Rank, m: int, t: Any, k: nat) {
    if IsVar(t) then rank(m, t) < k else t.Cell? ==> Under(rank, m, t.car, k) && Under(rank, m, t.cdr, k)
  }

  ghost predicate Falls(rank: Rank, b: Binding) {
    Under(rank, b.m, b.y, rank(b.n, b.x))
  }

  ghost predicate Ranked(rank: Rank, env: Env) {
    forall i :: 0 <= i < |env| ==> Falls(rank, env[i])
  }

  ghost predicate Acyclic(env: Env) {
    exists rank: Rank :: Ranked(rank, env)
  }

  lemma {:induction false} UnderMore(rank: Rank, m: int, t: Any, k: nat, k': nat)
    requires Under(rank, m, t, k) && k <= k'
    ensures Under(rank, m, t, k')
  {
    if !IsVar(t) && t.Cell? {
      UnderMore(rank, m, t.car, k, k');
      UnderMore(rank, m, t.cdr, k, k');
    }
  }

  lemma {:induction false} RankedBelow(rank: Rank, b: Binding, env: Env)
    ensures Ranked(rank, [b] + env) <==> Falls(rank, b) && Ranked(rank, env)
  {
    var more := [b] + env;
    if Ranked(rank, more) {
      assert Falls(rank, more[0]);
      forall i | 0 <= i < |env| ensures Falls(rank, env[i]) {
        assert Falls(rank, more[i + 1]);
      }
    }
  }

  // ---------- a ranked environment is satisfied ----------

  // The value of a term if unbound variables have the values that free gives them.
  ghost function Solved(rank: Rank, env: Env, free: Valuation, m: int, t: Any, k: nat): Any
    requires Ranked(rank, env) && Under(rank, m, t, k)
    decreases k, t
  {
    if IsVar(t) then
      if Bound(env, m, t) then
        var b := env[Find(env, m, t)];
        assert Falls(rank, b);
        Solved(rank, env, free, b.m, b.y, rank(m, t))
      else free(m, t)
    else if t.Cell? then Cell(Solved(rank, env, free, m, t.car, k), Solved(rank, env, free, m, t.cdr, k))
    else t
  }

  ghost function Solution(rank: Rank, env: Env, free: Valuation): Valuation
    requires Ranked(rank, env)
  {
    (m, x) => if IsVar(x) then Solved(rank, env, free, m, x, rank(m, x) + 1) else Nil
  }

  lemma {:induction false} SolvedIsValue(rank: Rank, env: Env, free: Valuation, m: int, t: Any, k: nat)
    requires Ranked(rank, env) && Under(rank, m, t, k)
    ensures Solved(rank, env, free, m, t, k) == Value(Solution(rank, env, free), m, t)
  {
    if IsVar(t) {
      assert Under(rank, m, t, rank(m, t) + 1);
    } else if t.Cell? {
      SolvedIsValue(rank, env, free, m, t.car, k);
      SolvedIsValue(rank, env, free, m, t.cdr, k);
    }
  }

  lemma {:induction false} SolutionSatisfies(rank: Rank, env: Env, free: Valuation)
    requires Ranked(rank, env) && Once(env)
    ensures Satisfies(Solution(rank, env, free), env)
    ensures forall m, x :: IsVar(x) && !Bound(env, m, x) ==> Solution(rank, env, free)(m, x) == free(m, x)
  {
    var v := Solution(rank, env, free);
    forall i | 0 <= i < |env| ensures Holds(v, env[i]) {
      var b := env[i];
      assert Falls(rank, b);
      assert Find(env, b.n, b.x) == i;
      SolvedIsValue(rank, env, free, b.m, b.y, rank(b.n, b.x));
    }
    forall m, x | IsVar(x) && !Bound(env, m, x) ensures v(m, x) == free(m, x) {
      assert Under(rank, m, x, rank(m, x) + 1);
    }
  }

  // ---------- a satisfied environment is ranked ----------

  // The place of its binding, from the newest one on, and 0 for a variable that is not bound.
  function Place(env: Env, n: int, x: Any): nat {
    if Find(env, n, x) < |env| then Find(env, n, x) + 1 else 0
  }

  // Variables with greater values come first; among equal ones, those bound to others.
  ghost function BySize(v: Valuation, env: Env): Rank {
    (n, x) => Weight(Size(v(n, x)), |env| + 1, Place(env, n, x))
  }

  function Weight(a: nat, l: nat, b: nat): nat {
    assert a * l >= 0;
    a * l + b
  }

  lemma RoomFor(a: nat, b: nat, l: nat, c: nat)
    requires a < b && c < l
    ensures Weight(a, l, c) < Weight(b, l, 0)
  {
    assert b * l == a * l + (b - a) * l;
    assert (b - a - 1) * l >= 0;
  }

  lemma {:induction false} PartsUnder(v: Valuation, env: Env, m: int, t: Any, size: nat)
    requires Size(Value(v, m, t)) < size
    ensures Under(BySize(v, env), m, t, Weight(size, |env| + 1, 0))
  {
    hide Weight;
    if IsVar(t) {
      RoomFor(Size(v(m, t)), size, |env| + 1, Place(env, m, t));
    } else if t.Cell? {
      PartsUnder(v, env, m, t.car, size);
      PartsUnder(v, env, m, t.cdr, size);
    }
  }

  lemma {:induction false} SatisfiedFalls(v: Valuation, env: Env, i: nat)
    requires Chains(env) && Once(env) && i < |env| && Holds(v, env[i])
    ensures Falls(BySize(v, env), env[i])
  {
    hide Weight;
    var rank, b := BySize(v, env), env[i];
    assert Find(env, b.n, b.x) == i;
    if IsVar(b.y) {
      var j := Find(env, b.m, b.y);
      assert j < |env| ==> j < i;
      WeightFalls(Size(v(b.n, b.x)), |env| + 1, Place(env, b.m, b.y), i + 1);
    } else if b.y.Cell? {
      var size := Size(v(b.n, b.x));
      var k := Weight(size, |env| + 1, 0);
      WeightFalls(size, |env| + 1, 0, i + 1);
      PartsUnder(v, env, b.m, b.y.car, size);
      PartsUnder(v, env, b.m, b.y.cdr, size);
      UnderMore(rank, b.m, b.y.car, k, rank(b.n, b.x));
      UnderMore(rank, b.m, b.y.cdr, k, rank(b.n, b.x));
    }
  }

  lemma WeightFalls(a: nat, l: nat, b: nat, c: nat)
    requires b < c
    ensures Weight(a, l, b) < Weight(a, l, c)
  {
  }

  lemma {:induction false} SatisfiedRanked(v: Valuation, env: Env)
    requires Chains(env) && Once(env) && Satisfies(v, env)
    ensures Ranked(BySize(v, env), env)
  {
    forall i | 0 <= i < |env| ensures Falls(BySize(v, env), env[i]) {
      assert Holds(v, env[i]);
      SatisfiedFalls(v, env, i);
    }
  }

  // Some valuation satisfies the bindings exactly if they can be ranked.
  lemma {:induction false} SolvableRanked(env: Env)
    requires Chains(env) && Once(env)
    ensures (exists v: Valuation :: Satisfies(v, env)) <==> Acyclic(env)
  {
    hide Satisfies, Ranked, Once, Chains;
    if v: Valuation :| Satisfies(v, env) {
      SatisfiedRanked(v, env);
    }
    if rank: Rank :| Ranked(rank, env) {
      SolutionSatisfies(rank, env, (m, x) => Nil);
    }
  }

  // ---------- and exactly if they pass the check ----------

  // A variable that occurs in a term ranks below everything that the term does.
  lemma {:induction false} OccursUnder(d: nat, rank: Rank, env: Env, n: int, x: Any, m: int, t: Any, k: nat)
    requires Ranked(rank, env) && OccursIn(d, env, n, x, m, t) && Under(rank, m, t, k)
    ensures rank(n, x) < k
    decreases d, t
  {
    if IsVar(t) {
      if !(n == m && x == t) {
        var b := env[Find(env, m, t)];
        assert Falls(rank, b);
        OccursUnder(d - 1, rank, env, n, x, b.m, b.y, rank(m, t));
      }
    } else if OccursIn(d, env, n, x, m, t.car) {
      OccursUnder(d, rank, env, n, x, m, t.car, k);
    } else {
      OccursUnder(d, rank, env, n, x, m, t.cdr, k);
    }
  }

  // The ranks of the variables from which x can be reached, raised by more.
  ghost function Raised(rank: Rank, env: Env, n: int, x: Any, more: nat): Rank {
    (m, t) => if Occurs(env, n, x, m, t) then rank(m, t) + more else rank(m, t)
  }

  // A rank above all variables of a term.
  ghost function Above(rank: Rank, m: int, t: Any): (k: nat)
    ensures Under(rank, m, t, k)
  {
    if IsVar(t) then rank(m, t) + 1
    else if t.Cell? then
      var a, b := Above(rank, m, t.car), Above(rank, m, t.cdr);
      var k := if a < b then b else a;
      UnderMore(rank, m, t.car, a, k);
      UnderMore(rank, m, t.cdr, b, k);
      k
    else 0
  }

  lemma {:induction false} OccursParts(env: Env, n: int, x: Any, m: int, t: Any)
    requires !IsVar(t) && t.Cell?
    ensures Occurs(env, n, x, m, t) <==> Occurs(env, n, x, m, t.car) || Occurs(env, n, x, m, t.cdr)
  {
    if d: nat :| OccursIn(d, env, n, x, m, t) {
      assert OccursIn(d, env, n, x, m, t.car) || OccursIn(d, env, n, x, m, t.cdr);
    }
    if d: nat :| OccursIn(d, env, n, x, m, t.car) {
      assert OccursIn(d, env, n, x, m, t);
    }
    if d: nat :| OccursIn(d, env, n, x, m, t.cdr) {
      assert OccursIn(d, env, n, x, m, t);
    }
  }

  // What occurs in the term that a variable stands for occurs in the variable.
  lemma {:induction false} OccursBehind(env: Env, n: int, x: Any, m: int, t: Any)
    requires Bound(env, m, t)
    requires (var b := env[Find(env, m, t)]; Occurs(env, n, x, b.m, b.y))
    ensures Occurs(env, n, x, m, t)
  {
    var b := env[Find(env, m, t)];
    var d: nat :| OccursIn(d, env, n, x, b.m, b.y);
    assert OccursIn(d + 1, env, n, x, m, t);
  }

  // A term from which x cannot be reached is not raised at all, any other by no more than that.
  lemma {:induction false} RaisedUnder(rank: Rank, env: Env, n: int, x: Any, more: nat, m: int, t: Any, k: nat)
    requires Under(rank, m, t, k)
    ensures Under(Raised(rank, env, n, x, more), m, t, if Occurs(env, n, x, m, t) then k + more else k)
  {
    if !IsVar(t) && t.Cell? {
      OccursParts(env, n, x, m, t);
      hide Occurs, Raised;
      var raised := Raised(rank, env, n, x, more);
      RaisedUnder(rank, env, n, x, more, m, t.car, k);
      RaisedUnder(rank, env, n, x, more, m, t.cdr, k);
      if Occurs(env, n, x, m, t) {
        UnderMore(raised, m, t.car, if Occurs(env, n, x, m, t.car) then k + more else k, k + more);
        UnderMore(raised, m, t.cdr, if Occurs(env, n, x, m, t.cdr) then k + more else k, k + more);
      }
    }
  }

  lemma {:induction false} RaisedRanked(rank: Rank, env: Env, n: int, x: Any, more: nat)
    requires Ranked(rank, env) && Once(env)
    ensures Ranked(Raised(rank, env, n, x, more), env)
  {
    var raised := Raised(rank, env, n, x, more);
    forall i | 0 <= i < |env| ensures Falls(raised, env[i]) {
      var b := env[i];
      assert Falls(rank, b);
      assert Find(env, b.n, b.x) == i;
      if Occurs(env, n, x, b.m, b.y) {
        OccursBehind(env, n, x, b.n, b.x);
      }
      var k := rank(b.n, b.x);
      RaisedUnder(rank, env, n, x, more, b.m, b.y, k);
      UnderMore(raised, b.m, b.y, if Occurs(env, n, x, b.m, b.y) then k + more else k, raised(b.n, b.x));
    }
  }

  // A new binding keeps the environment acyclic exactly if it passes the check.
  lemma {:induction false} CheckExactly(env: Env, b: Binding)
    requires Once([b] + env) && Acyclic(env)
    ensures Acyclic([b] + env) <==> Passes(env, b)
  {
    OnceBelow(b, env);
    if rank: Rank :| Ranked(rank, [b] + env) {
      RankedBelow(rank, b, env);
      if d: nat :| OccursIn(d, env, b.n, b.x, b.m, b.y) {
        OccursUnder(d, rank, env, b.n, b.x, b.m, b.y, rank(b.n, b.x));
        assert false;
      }
    }
    if Passes(env, b) {
      var rank: Rank :| Ranked(rank, env);
      var k := Above(rank, b.m, b.y);
      var raised := Raised(rank, env, b.n, b.x, k);
      RaisedRanked(rank, env, b.n, b.x, k);
      RaisedUnder(rank, env, b.n, b.x, k, b.m, b.y, k);
      assert OccursIn(0, env, b.n, b.x, b.n, b.x);
      assert Occurs(env, b.n, b.x, b.n, b.x);
      UnderMore(raised, b.m, b.y, k, raised(b.n, b.x));
      RankedBelow(raised, b, env);
    }
  }

  lemma {:induction false} OnceBelow(b: Binding, env: Env)
    requires Once([b] + env)
    ensures Once(env) && IsVar(b.x)
  {
    var more := [b] + env;
    assert more[0] == b;
    forall i | 0 <= i < |env| ensures IsVar(env[i].x) {
      assert more[i + 1] == env[i];
    }
    forall i, j | 0 <= i < j < |env| ensures env[i].n != env[j].n || env[i].x != env[j].x {
      assert more[i + 1] == env[i] && more[j + 1] == env[j];
    }
  }

  // So the environment is acyclic exactly if all bindings pass.
  lemma {:induction false} AcyclicExactly(env: Env)
    requires Once(env)
    ensures Acyclic(env) <==> AllPass(env)
  {
    if env == [] {
      assert Ranked((n, x) => 0, env);
    } else {
      var b, rest := env[0], env[1..];
      assert env == [b] + rest;
      OnceBelow(b, rest);
      AcyclicExactly(rest);
      if rank: Rank :| Ranked(rank, env) {
        RankedBelow(rank, b, rest);
        assert Acyclic(rest);
      }
      if Acyclic(rest) {
        CheckExactly(rest, b);
      }
    }
  }

  // Some valuation satisfies the bindings exactly if they all pass the check.
  lemma {:induction false} SolvableExactly(env: Env)
    requires Chains(env) && Once(env)
    ensures (exists v: Valuation :: Satisfies(v, env)) <==> AllPass(env)
  {
    SolvableRanked(env);
    AcyclicExactly(env);
  }
}
