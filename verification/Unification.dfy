/** Unification of two expressions over a triangular environment, without an occurs check. */
module Unification {

  // PicoLisp data.  Symbols are told apart by their names.
  datatype Any = Nil | Num(n: int) | Sym(name: string) | Cell(car: Any, cdr: Any)

  // A pattern variable is a symbol whose name starts with '@'; the symbol At is the anonymous one.
  predicate IsVar(x: Any) {
    x.Sym? && |x.name| > 0 && x.name[0] == '@'
  }

  const At: Any := Sym("@")

  predicate NoAt(x: Any) {
    x != At && (x.Cell? ==> NoAt(x.car) && NoAt(x.cdr))
  }

  // The variable x of level n stands for the expression y of level m.
  datatype Binding = Binding(n: int, x: Any, m: int, y: Any)

  // The newest binding comes first.
  type Env = seq<Binding>

  // The position of the newest binding of x at level n, or |env|.
  function Find(env: Env, n: int, x: Any): (i: nat)
    ensures i <= |env|
    ensures i < |env| ==> env[i].n == n && env[i].x == x
    ensures forall j :: 0 <= j < i ==> !(env[j].n == n && env[j].x == x)
  {
    if env == [] then 0
    else if env[0].n == n && env[0].x == x then 0
    else 1 + Find(env[1..], n, x)
  }

  predicate Bound(env: Env, n: int, x: Any) {
    IsVar(x) && Find(env, n, x) < |env|
  }

  // A variable that a binding leads to was not bound by that binding or an older one, so a chain of
  // lookups always goes on to a newer binding.
  ghost predicate Chains(env: Env) {
    forall i, j :: 0 <= i <= j < |env| && IsVar(env[i].y) ==> !(env[j].n == env[i].m && env[j].x == env[i].y)
  }

  // Following bindings until a term or an unbound variable is reached.
  function Lookup(env: Env, n: int, x: Any): (r: (int, Any))
    requires Chains(env)
    ensures !Bound(env, r.0, r.1)
    decreases if IsVar(x) && Find(env, n, x) < |env| then Find(env, n, x) + 1 else 0
  {
    if Bound(env, n, x) then
      var b := env[Find(env, n, x)];
      Lookup(env, b.m, b.y)
    else (n, x)
  }

  // Stuck stands for running out of the given depth of recursion.
  datatype Outcome = Stuck | No | Yes(env: Env)

  function Unify(depth: nat, env: Env, n1: int, x1: Any, n2: int, x2: Any): (r: Outcome)
    requires Chains(env)
    ensures r.Yes? ==> Chains(r.env)
  {
    var (m1, y1) := Lookup(env, n1, x1);
    var (m2, y2) := Lookup(env, n2, x2);
    if m1 == m2 && y1 == y2 then Yes(env)
    else if IsVar(y1) then Yes(if y1 != At then [Binding(m1, y1, m2, y2)] + env else env)
    else if IsVar(y2) then Yes(if y2 != At then [Binding(m2, y2, m1, y1)] + env else env)
    else if !y1.Cell? || !y2.Cell? then if y1 == y2 then Yes(env) else No
    else if depth == 0 then Stuck
    else
      match Unify(depth - 1, env, m1, y1.car, m2, y2.car)
      case Stuck => Stuck
      case No => No
      case Yes(e) => Unify(depth - 1, e, m1, y1.cdr, m2, y2.cdr)
  }

  // ---------- what bindings mean ----------

  // A valuation gives every variable of every level a value.
  type Valuation = (int, Any) -> Any

  ghost function Value(v: Valuation, n: int, x: Any): Any {
    if IsVar(x) then v(n, x)
    else if x.Cell? then Cell(Value(v, n, x.car), Value(v, n, x.cdr))
    else x
  }

  ghost predicate Satisfies(v: Valuation, env: Env) {
    forall i :: 0 <= i < |env| ==> Holds(v, env[i])
  }

  ghost predicate Holds(v: Valuation, b: Binding) {
    IsVar(b.x) && v(b.n, b.x) == Value(v, b.m, b.y)
  }

  ghost predicate EnvNoAt(env: Env) {
    forall i :: 0 <= i < |env| ==> NoAt(env[i].x) && NoAt(env[i].y)
  }

  function Size(x: Any): nat {
    if x.Cell? then 1 + Size(x.car) + Size(x.cdr) else 0
  }

  lemma {:induction false} LookupKeepsValue(v: Valuation, env: Env, n: int, x: Any)
    requires Chains(env) && Satisfies(v, env)
    ensures (var (m, y) := Lookup(env, n, x); Value(v, m, y) == Value(v, n, x))
    decreases if IsVar(x) && Find(env, n, x) < |env| then Find(env, n, x) + 1 else 0
  {
    if Bound(env, n, x) {
      var b := env[Find(env, n, x)];
      assert Holds(v, b);
      LookupKeepsValue(v, env, b.m, b.y);
    }
  }

  lemma {:induction false} LookupNoAt(env: Env, n: int, x: Any)
    requires Chains(env) && EnvNoAt(env) && NoAt(x)
    ensures NoAt(Lookup(env, n, x).1)
    decreases if IsVar(x) && Find(env, n, x) < |env| then Find(env, n, x) + 1 else 0
  {
    if Bound(env, n, x) {
      var b := env[Find(env, n, x)];
      LookupNoAt(env, b.m, b.y);
    }
  }

  lemma OneMore(v: Valuation, b: Binding, env: Env)
    ensures Satisfies(v, [b] + env) <==> Holds(v, b) && Satisfies(v, env)
    ensures EnvNoAt(env) && NoAt(b.x) && NoAt(b.y) ==> EnvNoAt([b] + env)
  {
    var env1 := [b] + env;
    if Satisfies(v, env1) {
      assert Holds(v, env1[0]);
      forall i | 0 <= i < |env| ensures Holds(v, env[i]) {
        assert Holds(v, env1[i + 1]);
      }
    }
  }

  // Success: whatever satisfies the new environment satisfies the old one and equates the terms.
  lemma {:induction false} UnifySound(depth: nat, env: Env, n1: int, x1: Any, n2: int, x2: Any, v: Valuation)
    requires Chains(env) && NoAt(x1) && NoAt(x2) && EnvNoAt(env)
    requires Unify(depth, env, n1, x1, n2, x2).Yes?
    ensures EnvNoAt(Unify(depth, env, n1, x1, n2, x2).env)
    ensures Satisfies(v, Unify(depth, env, n1, x1, n2, x2).env) ==>
              Satisfies(v, env) && Value(v, n1, x1) == Value(v, n2, x2)
    decreases depth
  {
    hide Satisfies, EnvNoAt, Chains, Lookup, Find;
    var (m1, y1) := Lookup(env, n1, x1);
    var (m2, y2) := Lookup(env, n2, x2);
    LookupNoAt(env, n1, x1);
    LookupNoAt(env, n2, x2);
    if Satisfies(v, env) {
      LookupKeepsValue(v, env, n1, x1);
      LookupKeepsValue(v, env, n2, x2);
    }
    if m1 == m2 && y1 == y2 {
    } else if IsVar(y1) {
      OneMore(v, Binding(m1, y1, m2, y2), env);
    } else if IsVar(y2) {
      OneMore(v, Binding(m2, y2, m1, y1), env);
    } else if y1.Cell? && y2.Cell? {
      var e := Unify(depth - 1, env, m1, y1.car, m2, y2.car).env;
      UnifySound(depth - 1, env, m1, y1.car, m2, y2.car, v);
      UnifySound(depth - 1, e, m1, y1.cdr, m2, y2.cdr, v);
    }
  }

  // Most general: if some valuation satisfies the environment and equates the terms, then unification
  // succeeds, at the latest at the depth of the common value, and the valuation satisfies the result.
  lemma {:induction false} UnifyComplete(depth: nat, env: Env, n1: int, x1: Any, n2: int, x2: Any, v: Valuation)
    requires Chains(env) && NoAt(x1) && NoAt(x2) && EnvNoAt(env)
    requires Satisfies(v, env) && Value(v, n1, x1) == Value(v, n2, x2)
    requires depth >= Size(Value(v, n1, x1))
    ensures (var r := Unify(depth, env, n1, x1, n2, x2); r.Yes? && Satisfies(v, r.env))
    decreases depth
  {
    hide Satisfies, EnvNoAt, Chains, Lookup, Find;
    var (m1, y1) := Lookup(env, n1, x1);
    var (m2, y2) := Lookup(env, n2, x2);
    LookupNoAt(env, n1, x1);
    LookupNoAt(env, n2, x2);
    LookupKeepsValue(v, env, n1, x1);
    LookupKeepsValue(v, env, n2, x2);
    if m1 == m2 && y1 == y2 {
    } else if IsVar(y1) {
      OneMore(v, Binding(m1, y1, m2, y2), env);
    } else if IsVar(y2) {
      OneMore(v, Binding(m2, y2, m1, y1), env);
    } else if y1.Cell? && y2.Cell? {
      UnifyComplete(depth - 1, env, m1, y1.car, m2, y2.car, v);
      var e := Unify(depth - 1, env, m1, y1.car, m2, y2.car).env;
      UnifySound(depth - 1, env, m1, y1.car, m2, y2.car, v);
      UnifyComplete(depth - 1, e, m1, y1.cdr, m2, y2.cdr, v);
    }
  }

  // More depth changes nothing once unification has come to an end.
  lemma {:induction false} UnifyDeeper(depth: nat, more: nat, env: Env, n1: int, x1: Any, n2: int, x2: Any)
    requires Chains(env) && depth <= more && !Unify(depth, env, n1, x1, n2, x2).Stuck?
    ensures Unify(more, env, n1, x1, n2, x2) == Unify(depth, env, n1, x1, n2, x2)
    decreases depth
  {
    hide Chains, Lookup, Find;
    var (m1, y1) := Lookup(env, n1, x1);
    var (m2, y2) := Lookup(env, n2, x2);
    if !(m1 == m2 && y1 == y2) && !IsVar(y1) && !IsVar(y2) && y1.Cell? && y2.Cell? {
      UnifyDeeper(depth - 1, more - 1, env, m1, y1.car, m2, y2.car);
      var r := Unify(depth - 1, env, m1, y1.car, m2, y2.car);
      if r.Yes? {
        UnifyDeeper(depth - 1, more - 1, r.env, m1, y1.cdr, m2, y2.cdr);
      }
    }
  }

  // Failure: no valuation satisfies the environment and equates the terms.
  lemma UnifyFails(depth: nat, env: Env, n1: int, x1: Any, n2: int, x2: Any, v: Valuation)
    requires Chains(env) && NoAt(x1) && NoAt(x2) && EnvNoAt(env)
    requires Unify(depth, env, n1, x1, n2, x2).No? && Satisfies(v, env)
    ensures Value(v, n1, x1) != Value(v, n2, x2)
  {
    if Value(v, n1, x1) == Value(v, n2, x2) {
      var more := depth + Size(Value(v, n1, x1));
      UnifyComplete(more, env, n1, x1, n2, x2, v);
      UnifyDeeper(depth, more, env, n1, x1, n2, x2);
    }
  }

  // So without the anonymous variable the valuations that unification finds are exactly those that
  // satisfy the old environment and equate the terms.
  lemma UnifyExactly(env: Env, n1: int, x1: Any, n2: int, x2: Any, v: Valuation)
    requires Chains(env) && NoAt(x1) && NoAt(x2) && EnvNoAt(env)
    ensures Satisfies(v, env) && Value(v, n1, x1) == Value(v, n2, x2)
            <==> exists depth: nat :: Unify(depth, env, n1, x1, n2, x2).Yes?
                                      && Satisfies(v, Unify(depth, env, n1, x1, n2, x2).env)
  {
    hide Satisfies, EnvNoAt, Chains, Unify;
    if Satisfies(v, env) && Value(v, n1, x1) == Value(v, n2, x2) {
      UnifyComplete(Size(Value(v, n1, x1)), env, n1, x1, n2, x2, v);
    }
    if depth: nat :| Unify(depth, env, n1, x1, n2, x2).Yes? && Satisfies(v, Unify(depth, env, n1, x1, n2, x2).env) {
      UnifySound(depth, env, n1, x1, n2, x2, v);
    }
  }

  // With the anonymous variable success promises nothing: these terms unify without a binding, and no
  // valuation equates them.
  lemma AnonymousPromisesNothing(v: Valuation)
    ensures Unify(2, [], 0, Cell(At, At), 1, Cell(Num(7), Num(8))) == Yes([])
    ensures Satisfies(v, []) && Value(v, 0, Cell(At, At)) != Value(v, 1, Cell(Num(7), Num(8)))
  {
  }

  // Without an occurs check two variables can be bound to terms in each other, and unifying them
  // never comes to an end.
  const X: Any := Sym("@X")
  const Y: Any := Sym("@Y")
  const Knot: Env := [Binding(0, Y, 0, Cell(Num(1), X)), Binding(0, X, 0, Cell(Num(1), Y))]

  lemma KnotArises()
    ensures Chains(Knot)
    ensures Unify(0, [], 0, X, 0, Cell(Num(1), Y)) == Yes([Binding(0, X, 0, Cell(Num(1), Y))])
    ensures Unify(0, [Binding(0, X, 0, Cell(Num(1), Y))], 0, Y, 0, Cell(Num(1), X)) == Yes(Knot)
  {
    assert Find([], 0, X) == 0 && Find([], 0, Y) == 0;
  }

  lemma {:induction false} KnotNeverEnds(depth: nat)
    requires Chains(Knot)
    ensures Unify(depth, Knot, 0, X, 0, Y).Stuck? && Unify(depth, Knot, 0, Y, 0, X).Stuck?
  {
    KnotLookups();
    hide Lookup, Find;
    if depth > 0 {
      KnotNeverEnds(depth - 1);
    }
  }

  // No valuation satisfies it: the values of X and Y would be parts of each other.
  lemma KnotHasNoSolution(v: Valuation)
    ensures !Satisfies(v, Knot)
  {
    SizeGrows(v(0, X), v(0, Y));
    SizeGrows(v(0, Y), v(0, X));
    KnotHolds(v);
  }

  lemma SizeGrows(x: Any, y: Any)
    ensures x == Cell(Num(1), y) ==> Size(x) > Size(y)
  {
  }

  lemma KnotHolds(v: Valuation)
    ensures Satisfies(v, Knot) ==> v(0, Y) == Cell(Num(1), v(0, X)) && v(0, X) == Cell(Num(1), v(0, Y))
  {
    assert Holds(v, Knot[0]) ==> v(0, Y) == Value(v, 0, Cell(Num(1), X));
    assert Holds(v, Knot[1]) ==> v(0, X) == Value(v, 0, Cell(Num(1), Y));
  }

  lemma KnotLookups()
    requires Chains(Knot)
    ensures Lookup(Knot, 0, X) == (0, Cell(Num(1), Y)) && Lookup(Knot, 0, Y) == (0, Cell(Num(1), X))
    ensures Lookup(Knot, 0, Num(1)) == (0, Num(1))
  {
    assert X.name != Y.name;
    assert Find(Knot, 0, Y) == 0;
    assert Knot[1..] == [Knot[1]];
    assert Find(Knot[1..], 0, X) == 0;
    assert Find(Knot, 0, X) == 1;
  }

  // ---------- answers ----------

  // lup: a term with all its variables looked up, to a given depth of recursion. A variable that is
  // not bound stays as it is, without its level.
  datatype Filled = Unfilled | Term(x: Any)

  function Fill(depth: nat, env: Env, n: int, x: Any): Filled
    requires Chains(env)
  {
    var (m, y) := Lookup(env, n, x);
    if !y.Cell? then Term(y)
    else if depth == 0 then Unfilled
    else
      var a, b := Fill(depth - 1, env, m, y.car), Fill(depth - 1, env, m, y.cdr);
      if a.Term? && b.Term? then Term(Cell(a.x, b.x)) else Unfilled
  }

  predicate Ground(x: Any) {
    !IsVar(x) && (x.Cell? ==> Ground(x.car) && Ground(x.cdr))
  }

  // A term that comes out without variables is the value of the original in every valuation that
  // satisfies the environment.
  lemma {:induction false} GroundAnswer(depth: nat, v: Valuation, env: Env, n: int, x: Any)
    requires Chains(env) && Satisfies(v, env)
    requires Fill(depth, env, n, x).Term? && Ground(Fill(depth, env, n, x).x)
    ensures Value(v, n, x) == Fill(depth, env, n, x).x
    decreases depth
  {
    var (m, y) := Lookup(env, n, x);
    LookupKeepsValue(v, env, n, x);
    if y.Cell? {
      GroundAnswer(depth - 1, v, env, m, y.car);
      GroundAnswer(depth - 1, v, env, m, y.cdr);
    }
  }
}
