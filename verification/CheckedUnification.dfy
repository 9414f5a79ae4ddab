/** unify with the occurs check beside it: what the check would have decided, and when unification ends. */
module CheckedUnification {
  import opened Unification
  import opened OccursCheck

  // Every binding that unify makes passes the check.
  ghost predicate Checked(depth: nat, env: Env, n1: int, x1: Any, n2: int, x2: Any)
    requires Chains(env)
  {
    var (m1, y1) := Lookup(env, n1, x1);
    var (m2, y2) := Lookup(env, n2, x2);
    if m1 == m2 && y1 == y2 then true
    else if IsVar(y1) then y1 != At ==> Passes(env, Binding(m1, y1, m2, y2))
    else if IsVar(y2) then y2 != At ==> Passes(env, Binding(m2, y2, m1, y1))
    else if !y1.Cell? || !y2.Cell? || depth == 0 then true
    else
      var r := Unify(depth - 1, env, m1, y1.car, m2, y2.car);
      Checked(depth - 1, env, m1, y1.car, m2, y2.car) && (r.Yes? ==> Checked(depth - 1, r.env, m1, y1.cdr, m2, y2.cdr))
  }

  // Only new bindings are put in front.
  ghost predicate Extends(env: Env, more: Env) {
    |env| <= |more| && more[|more| - |env|..] == env
  }

  lemma {:induction false} ExtendsOn(a: Env, b: Env, c: Env)
    requires Extends(a, b) && Extends(b, c)
    ensures Extends(a, c)
  {
    assert c[|c| - |a|..] == c[|c| - |b|..][|b| - |a|..];
  }

  lemma {:induction false} AllPassBelow(env: Env, more: Env)
    requires Extends(env, more) && AllPass(more)
    ensures AllPass(env)
    decreases |more|
  {
    if |env| < |more| {
      assert more[1..][|more| - 1 - |env|..] == more[|more| - |env|..];
      AllPassBelow(env, more[1..]);
    }
  }

  // A new binding of a variable that was not bound.
  lemma {:induction false} OnceMore(env: Env, b: Binding)
    requires Once(env) && IsVar(b.x) && !Bound(env, b.n, b.x)
    ensures Once([b] + env) && Extends(env, [b] + env)
    ensures AllPass([b] + env) <==> Passes(env, b) && AllPass(env)
  {
    var more := [b] + env;
    assert more[1..] == env;
    forall i, j | 0 <= i < j < |more| ensures more[i].n != more[j].n || more[i].x != more[j].x {
      if i == 0 {
        assert more[j] == env[j - 1];
        NotFound(env, b.n, b.x, j - 1);
      } else {
        assert more[i] == env[i - 1] && more[j] == env[j - 1];
      }
    }
  }

  lemma {:induction false} NotFound(env: Env, n: int, x: Any, j: nat)
    requires Find(env, n, x) >= |env| && j < |env|
    ensures env[j].n != n || env[j].x != x
  {
  }

  // Unification binds each variable once, and its bindings all pass exactly if it was checked.
  lemma {:induction false} CheckedExactly(depth: nat, env: Env, n1: int, x1: Any, n2: int, x2: Any)
    requires Chains(env) && Once(env) && Unify(depth, env, n1, x1, n2, x2).Yes?
    ensures (var e := Unify(depth, env, n1, x1, n2, x2).env;
             Once(e) && Extends(env, e) && (AllPass(env) ==> (AllPass(e) <==> Checked(depth, env, n1, x1, n2, x2))))
    decreases depth
  {
    hide Chains, Lookup, Find, Once, Passes, AllPass;
    var (m1, y1) := Lookup(env, n1, x1);
    var (m2, y2) := Lookup(env, n2, x2);
    if m1 == m2 && y1 == y2 {
    } else if IsVar(y1) {
      OnceMore(env, Binding(m1, y1, m2, y2));
    } else if IsVar(y2) {
      OnceMore(env, Binding(m2, y2, m1, y1));
    } else if y1.Cell? && y2.Cell? {
      CheckedExactly(depth - 1, env, m1, y1.car, m2, y2.car);
      var e := Unify(depth - 1, env, m1, y1.car, m2, y2.car).env;
      CheckedExactly(depth - 1, e, m1, y1.cdr, m2, y2.cdr);
      var e' := Unify(depth - 1, e, m1, y1.cdr, m2, y2.cdr).env;
      ExtendsOn(env, e, e');
      hide Unify, Checked, Extends;
      if AllPass(e') {
        AllPassBelow(e, e');
      }
    }
  }

  // Two terms have a common instance exactly if unification succeeds and the check would have let it.
  lemma {:induction false} UnifiableExactly(env: Env, n1: int, x1: Any, n2: int, x2: Any)
    requires Chains(env) && Once(env) && AllPass(env) && EnvNoAt(env) && NoAt(x1) && NoAt(x2)
    ensures (exists v: Valuation :: Satisfies(v, env) && Value(v, n1, x1) == Value(v, n2, x2))
            <==> exists depth: nat :: Unify(depth, env, n1, x1, n2, x2).Yes? && Checked(depth, env, n1, x1, n2, x2)
  {
    hide Unify, Checked, Chains, Once, AllPass, EnvNoAt, NoAt, Satisfies;
    if v: Valuation :| Satisfies(v, env) && Value(v, n1, x1) == Value(v, n2, x2) {
      UnifyExactly(env, n1, x1, n2, x2, v);
      var depth: nat :| Unify(depth, env, n1, x1, n2, x2).Yes? && Satisfies(v, Unify(depth, env, n1, x1, n2, x2).env);
      CheckedExactly(depth, env, n1, x1, n2, x2);
      SolvableExactly(Unify(depth, env, n1, x1, n2, x2).env);
    }
    if depth: nat :| Unify(depth, env, n1, x1, n2, x2).Yes? && Checked(depth, env, n1, x1, n2, x2) {
      CheckedExactly(depth, env, n1, x1, n2, x2);
      SolvableExactly(Unify(depth, env, n1, x1, n2, x2).env);
      var v: Valuation :| Satisfies(v, Unify(depth, env, n1, x1, n2, x2).env);
      UnifyExactly(env, n1, x1, n2, x2, v);
    }
  }

  // ---------- unification ends ----------

  lemma {:induction false} CheckedShallower(depth: nat, more: nat, env: Env, n1: int, x1: Any, n2: int, x2: Any)
    requires Chains(env) && depth <= more && Checked(more, env, n1, x1, n2, x2)
    ensures Checked(depth, env, n1, x1, n2, x2)
    decreases depth
  {
    hide Chains, Lookup, Find, Passes;
    var (m1, y1) := Lookup(env, n1, x1);
    var (m2, y2) := Lookup(env, n2, x2);
    if !(m1 == m2 && y1 == y2) && !IsVar(y1) && !IsVar(y2) && y1.Cell? && y2.Cell? && depth > 0 {
      CheckedShallower(depth - 1, more - 1, env, m1, y1.car, m2, y2.car);
      var r := Unify(depth - 1, env, m1, y1.car, m2, y2.car);
      if r.Yes? {
        UnifyDeeper(depth - 1, more - 1, env, m1, y1.car, m2, y2.car);
        CheckedShallower(depth - 1, more - 1, r.env, m1, y1.cdr, m2, y2.cdr);
      }
    }
  }

  // The variables of a term and of an environment.
  function VarsOf(n: int, x: Any): set<(int, Any)> {
    if IsVar(x) then {(n, x)} else if x.Cell? then VarsOf(n, x.car) + VarsOf(n, x.cdr) else {}
  }

  function BoundVars(env: Env): set<(int, Any)> {
    set i | 0 <= i < |env| :: (env[i].n, env[i].x)
  }

  ghost predicate Within(vars: set<(int, Any)>, env: Env) {
    forall i :: 0 <= i < |env| ==> (env[i].n, env[i].x) in vars && VarsOf(env[i].m, env[i].y) <= vars
  }

  lemma {:induction false} LookupWithin(vars: set<(int, Any)>, env: Env, n: int, x: Any)
    requires Chains(env) && Within(vars, env) && VarsOf(n, x) <= vars
    ensures (var (m, y) := Lookup(env, n, x); VarsOf(m, y) <= vars)
    decreases if IsVar(x) && Find(env, n, x) < |env| then Find(env, n, x) + 1 else 0
  {
    if Bound(env, n, x) {
      var b := env[Find(env, n, x)];
      LookupWithin(vars, env, b.m, b.y);
    }
  }

  lemma {:induction false} BoundMore(vars: set<(int, Any)>, env: Env, b: Binding)
    requires Within(vars, env) && (b.n, b.x) in vars && VarsOf(b.m, b.y) <= vars && IsVar(b.x) && !Bound(env, b.n, b.x)
    ensures Within(vars, [b] + env) && |vars - BoundVars([b] + env)| < |vars - BoundVars(env)|
  {
    var more := [b] + env;
    forall i | 0 <= i < |more|
      ensures (more[i].n, more[i].x) in vars && VarsOf(more[i].m, more[i].y) <= vars
    {
      assert i > 0 ==> more[i] == env[i - 1];
    }
    assert BoundVars(more) == BoundVars(env) + {(b.n, b.x)} by {
      assert more[0] == b;
      forall p | p in BoundVars(env) ensures p in BoundVars(more) {
        var i :| 0 <= i < |env| && p == (env[i].n, env[i].x);
        assert more[i + 1] == env[i];
      }
    }
    assert (b.n, b.x) !in BoundVars(env);
    assert vars - BoundVars(env) == (vars - BoundVars(more)) + {(b.n, b.x)};
  }

  // Unification either leaves the environment as it is or leaves fewer variables without a value.
  lemma {:induction false} UnifyWithin(vars: set<(int, Any)>, depth: nat, env: Env, n1: int, x1: Any, n2: int, x2: Any)
    requires Chains(env) && Within(vars, env) && VarsOf(n1, x1) <= vars && VarsOf(n2, x2) <= vars
    requires Unify(depth, env, n1, x1, n2, x2).Yes?
    ensures (var e := Unify(depth, env, n1, x1, n2, x2).env;
             Within(vars, e) && (e == env || |vars - BoundVars(e)| < |vars - BoundVars(env)|))
    decreases depth
  {
    hide Chains, Lookup, Find, Within, BoundVars;
    var (m1, y1) := Lookup(env, n1, x1);
    var (m2, y2) := Lookup(env, n2, x2);
    LookupWithin(vars, env, n1, x1);
    LookupWithin(vars, env, n2, x2);
    if m1 == m2 && y1 == y2 {
    } else if IsVar(y1) {
      BoundMore(vars, env, Binding(m1, y1, m2, y2));
    } else if IsVar(y2) {
      BoundMore(vars, env, Binding(m2, y2, m1, y1));
    } else if y1.Cell? && y2.Cell? {
      UnifyWithin(vars, depth - 1, env, m1, y1.car, m2, y2.car);
      var e := Unify(depth - 1, env, m1, y1.car, m2, y2.car).env;
      UnifyWithin(vars, depth - 1, e, m1, y1.cdr, m2, y2.cdr);
    }
  }

  lemma {:induction false} EndsWithin(vars: set<(int, Any)>, v: Valuation, env: Env, n1: int, x1: Any, n2: int, x2: Any)
    returns (depth: nat)
    requires Chains(env) && Once(env) && AllPass(env) && Satisfies(v, env)
    requires Within(vars, env) && VarsOf(n1, x1) <= vars && VarsOf(n2, x2) <= vars
    requires forall d: nat :: Checked(d, env, n1, x1, n2, x2)
    ensures !Unify(depth, env, n1, x1, n2, x2).Stuck?
    decreases |vars - BoundVars(env)|, Size(Value(v, n1, x1))
  {
    hide Chains, Lookup, Find, Once, AllPass, Satisfies, Within, BoundVars, Passes, Unify, Checked, Value;
    var (m1, y1) := Lookup(env, n1, x1);
    var (m2, y2) := Lookup(env, n2, x2);
    depth := 0;
    if (m1 == m2 && y1 == y2) || IsVar(y1) || IsVar(y2) || !y1.Cell? || !y2.Cell? {
      EndsAtOnce(env, n1, x1, n2, x2);
    } else {
      LookupKeepsValue(v, env, n1, x1);
      PartsSmaller(v, m1, y1);
      LookupWithin(vars, env, n1, x1);
      LookupWithin(vars, env, n2, x2);
      CheckedBefore(env, n1, x1, n2, x2);
      var d1 := EndsWithin(vars, v, env, m1, y1.car, m2, y2.car);
      var d := d1;
      if Unify(d1, env, m1, y1.car, m2, y2.car).Yes? {
        var e := Unify(d1, env, m1, y1.car, m2, y2.car).env;
        UnifyWithin(vars, d1, env, m1, y1.car, m2, y2.car);
        CheckedExactly(d1, env, m1, y1.car, m2, y2.car);
        assert Checked(d1, env, m1, y1.car, m2, y2.car);
        CheckedBehind(d1, env, n1, x1, n2, x2);
        var w := v;
        if e != env {
          SolvableExactly(e);
          w :| Satisfies(w, e);
        }
        var d2 := EndsWithin(vars, w, e, m1, y1.cdr, m2, y2.cdr);
        d := if d1 < d2 then d2 else d1;
        UnifyDeeper(d1, d, env, m1, y1.car, m2, y2.car);
        UnifyDeeper(d2, d, e, m1, y1.cdr, m2, y2.cdr);
      }
      EndsBehind(d, env, n1, x1, n2, x2);
      depth := d + 1;
    }
  }

  lemma {:induction false} EndsAtOnce(env: Env, n1: int, x1: Any, n2: int, x2: Any)
    requires Chains(env)
    requires (var (m1, y1) := Lookup(env, n1, x1);
              var (m2, y2) := Lookup(env, n2, x2);
              (m1 == m2 && y1 == y2) || IsVar(y1) || IsVar(y2) || !y1.Cell? || !y2.Cell?)
    ensures !Unify(0, env, n1, x1, n2, x2).Stuck?
  {
    hide Lookup;
  }

  lemma {:induction false} PartsSmaller(v: Valuation, n: int, x: Any)
    requires !IsVar(x) && x.Cell?
    ensures Size(Value(v, n, x.car)) < Size(Value(v, n, x)) && Size(Value(v, n, x.cdr)) < Size(Value(v, n, x))
    ensures VarsOf(n, x.car) <= VarsOf(n, x) && VarsOf(n, x.cdr) <= VarsOf(n, x)
  {
  }

  // Two cells, whose first parts have come to an end, and then the others.
  lemma {:induction false} EndsBehind(d: nat, env: Env, n1: int, x1: Any, n2: int, x2: Any)
    requires Chains(env)
    requires (var (m1, y1) := Lookup(env, n1, x1);
              var (m2, y2) := Lookup(env, n2, x2);
              && !IsVar(y1) && !IsVar(y2) && y1.Cell? && y2.Cell?
              && (match Unify(d, env, m1, y1.car, m2, y2.car)
                  case Stuck => false
                  case No => true
                  case Yes(e) => !Unify(d, e, m1, y1.cdr, m2, y2.cdr).Stuck?))
    ensures !Unify(d + 1, env, n1, x1, n2, x2).Stuck?
  {
    hide Lookup, Chains;
  }

  lemma {:induction false} CheckedBefore(env: Env, n1: int, x1: Any, n2: int, x2: Any)
    requires Chains(env) && forall d: nat :: Checked(d, env, n1, x1, n2, x2)
    requires (var (m1, y1) := Lookup(env, n1, x1);
              var (m2, y2) := Lookup(env, n2, x2);
              !(m1 == m2 && y1 == y2) && !IsVar(y1) && !IsVar(y2) && y1.Cell? && y2.Cell?)
    ensures (var (m1, y1) := Lookup(env, n1, x1);
             var (m2, y2) := Lookup(env, n2, x2);
             forall d: nat :: Checked(d, env, m1, y1.car, m2, y2.car))
  {
    hide Chains, Lookup, Find, Passes;
    var (m1, y1) := Lookup(env, n1, x1);
    var (m2, y2) := Lookup(env, n2, x2);
    forall d: nat ensures Checked(d, env, m1, y1.car, m2, y2.car) {
      assert Checked(d + 1, env, n1, x1, n2, x2);
    }
  }

  // The second parts are checked at every depth, too.
  lemma {:induction false} CheckedBehind(d1: nat, env: Env, n1: int, x1: Any, n2: int, x2: Any)
    requires Chains(env) && forall d: nat :: Checked(d, env, n1, x1, n2, x2)
    requires (var (m1, y1) := Lookup(env, n1, x1);
              var (m2, y2) := Lookup(env, n2, x2);
              && !(m1 == m2 && y1 == y2) && !IsVar(y1) && !IsVar(y2) && y1.Cell? && y2.Cell?
              && Unify(d1, env, m1, y1.car, m2, y2.car).Yes?)
    ensures (var (m1, y1) := Lookup(env, n1, x1);
             var (m2, y2) := Lookup(env, n2, x2);
             var e := Unify(d1, env, m1, y1.car, m2, y2.car).env;
             forall d: nat :: Checked(d, e, m1, y1.cdr, m2, y2.cdr))
  {
    hide Chains, Lookup, Find, Passes;
    var (m1, y1) := Lookup(env, n1, x1);
    var (m2, y2) := Lookup(env, n2, x2);
    var e := Unify(d1, env, m1, y1.car, m2, y2.car).env;
    forall d: nat ensures Checked(d, e, m1, y1.cdr, m2, y2.cdr) {
      var more := if d < d1 then d1 else d;
      UnifyDeeper(d1, more, env, m1, y1.car, m2, y2.car);
      assert Checked(more + 1, env, n1, x1, n2, x2);
      CheckedShallower(d, more, e, m1, y1.cdr, m2, y2.cdr);
    }
  }

  // If no binding fails the check, unification comes to an end: it runs for ever only where the check
  // would have stopped it.
  lemma {:induction false} EndsIfChecked(env: Env, n1: int, x1: Any, n2: int, x2: Any)
    requires Chains(env) && Once(env) && AllPass(env)
    requires forall d: nat :: Checked(d, env, n1, x1, n2, x2)
    ensures exists depth: nat :: !Unify(depth, env, n1, x1, n2, x2).Stuck?
  {
    hide Unify, Checked, Chains, Once, AllPass, Satisfies;
    SolvableExactly(env);
    var v: Valuation :| Satisfies(v, env);
    var vars := EnvVars(env) + VarsOf(n1, x1) + VarsOf(n2, x2);
    var depth := EndsWithin(vars, v, env, n1, x1, n2, x2);
  }

  ghost function EnvVars(env: Env): (vars: set<(int, Any)>)
    ensures Within(vars, env)
  {
    if env == [] then {}
    else {(env[0].n, env[0].x)} + VarsOf(env[0].m, env[0].y) + EnvVars(env[1..])
  }
}
