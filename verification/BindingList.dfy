/** The list of bindings that the prover returns: when looking them up ends, and that the query holds for
    the values in it. */
module BindingList {
  import opened Unification
  import opened OccursCheck
  import opened Resolution
  import opened Prover
  import opened Answers

  // ---------- lup ends ----------

  lemma {:induction false} FillDeeper(d: nat, more: nat, env: Env, n: int, x: Any)
    requires Chains(env) && d <= more && Fill(d, env, n, x).Term?
    ensures Fill(more, env, n, x) == Fill(d, env, n, x)
    decreases d
  {
    hide Lookup, Chains;
    var (m, y) := Lookup(env, n, x);
    if y.Cell? {
      FillDeeper(d - 1, more - 1, env, m, y.car);
      FillDeeper(d - 1, more - 1, env, m, y.cdr);
    }
  }

  lemma {:induction false} FillEnds(d: nat, v: Valuation, env: Env, n: int, x: Any)
    requires Chains(env) && Satisfies(v, env) && Size(Value(v, n, x)) <= d
    ensures Fill(d, env, n, x).Term?
    decreases d
  {
    hide Lookup, Chains, Satisfies;
    var (m, y) := Lookup(env, n, x);
    LookupKeepsValue(v, env, n, x);
    if y.Cell? {
      assert !IsVar(y);
      FillEnds(d - 1, v, env, m, y.car);
      FillEnds(d - 1, v, env, m, y.cdr);
    }
  }

  // The values of all bound variables can be looked up at a depth.
  ghost predicate FillsAll(d: nat, env: Env)
    requires Chains(env)
  {
    forall i :: 0 <= i < |env| ==> Fill(d, env, env[i].n, env[i].x).Term?
  }

  ghost function Greatest(v: Valuation, env: Env): (d: nat)
    ensures forall i :: 0 <= i < |env| ==> Size(v(env[i].n, env[i].x)) <= d
  {
    if env == [] then 0
    else
      var a, b := Size(v(env[0].n, env[0].x)), Greatest(v, env[1..]);
      assert forall i :: 0 < i < |env| ==> env[i] == env[1..][i - 1];
      if a < b then b else a
  }

  // The least depth at which a variable can be looked up, if it can at d.
  function Least(d: nat, env: Env, n: int, x: Any): (l: nat)
    requires Chains(env)
    ensures l <= d && forall k :: 0 <= k < l ==> !Fill(k, env, n, x).Term?
  {
    if d == 0 then 0
    else if Fill(d - 1, env, n, x).Term? then Least(d - 1, env, n, x)
    else
      NotFilledBefore(d - 1, env, n, x);
      d
  }

  lemma {:induction false} NotFilledBefore(d: nat, env: Env, n: int, x: Any)
    requires Chains(env)
    ensures !Fill(d, env, n, x).Term? ==> forall k :: 0 <= k <= d ==> !Fill(k, env, n, x).Term?
  {
    forall k: nat | k <= d ensures Fill(k, env, n, x).Term? ==> Fill(d, env, n, x).Term? {
      if Fill(k, env, n, x).Term? {
        FillDeeper(k, d, env, n, x);
      }
    }
  }

  lemma {:induction false} LeastIs(d: nat, env: Env, n: int, x: Any)
    requires Chains(env) && Fill(d, env, n, x).Term?
    ensures Fill(Least(d, env, n, x), env, n, x).Term?
  {
    if d > 0 && Fill(d - 1, env, n, x).Term? {
      LeastIs(d - 1, env, n, x);
    }
  }

  ghost function ByDepth(d: nat, env: Env): Rank
    requires Chains(env)
  {
    (n, x) => Weight(Least(d, env, n, x), |env| + 1, Place(env, n, x))
  }

  // What can be looked up at a depth ranks below all that takes more.
  lemma {:induction false} FilledUnder(d: nat, env: Env, k: nat, n: int, x: Any)
    requires Chains(env) && k <= d && Fill(k, env, n, x).Term?
    ensures Under(ByDepth(d, env), n, x, Weight(k + 1, |env| + 1, 0))
    decreases k, x
  {
    hide Weight, Chains;
    if IsVar(x) {
      assert Least(d, env, n, x) <= k;
      RoomFor(Least(d, env, n, x), k + 1, |env| + 1, Place(env, n, x));
    } else if x.Cell? {
      assert Lookup(env, n, x) == (n, x);
      FilledUnder(d, env, k - 1, n, x.car);
      FilledUnder(d, env, k - 1, n, x.cdr);
      WeightGrows(k, k + 1, |env| + 1);
      UnderMore(ByDepth(d, env), n, x.car, Weight(k, |env| + 1, 0), Weight(k + 1, |env| + 1, 0));
      UnderMore(ByDepth(d, env), n, x.cdr, Weight(k, |env| + 1, 0), Weight(k + 1, |env| + 1, 0));
    }
  }

  lemma WeightGrows(a: nat, b: nat, l: nat)
    requires a <= b
    ensures Weight(a, l, 0) <= Weight(b, l, 0)
  {
    assert b * l == a * l + (b - a) * l;
    assert (b - a) * l >= 0;
  }

  lemma {:induction false} FilledFalls(d: nat, env: Env, i: nat)
    requires Chains(env) && Once(env) && i < |env| && FillsAll(d, env)
    ensures Falls(ByDepth(d, env), env[i])
  {
    hide Weight;
    var b := env[i];
    var rank, l := ByDepth(d, env), |env| + 1;
    assert Find(env, b.n, b.x) == i;
    assert Lookup(env, b.n, b.x) == Lookup(env, b.m, b.y);
    assert Fill(d, env, b.n, b.x).Term?;
    LeastIs(d, env, b.n, b.x);
    var k := Least(d, env, b.n, b.x);
    if IsVar(b.y) {
      SameLeast(d, env, b.n, b.x, b.m, b.y);
      assert Find(env, b.m, b.y) < |env| ==> Find(env, b.m, b.y) < i;
      WeightFalls(k, l, Place(env, b.m, b.y), i + 1);
    } else if b.y.Cell? {
      assert Lookup(env, b.m, b.y) == (b.m, b.y);
      hide Lookup, Chains, Least;
      FilledUnder(d, env, k - 1, b.m, b.y.car);
      FilledUnder(d, env, k - 1, b.m, b.y.cdr);
      WeightFalls(k, l, 0, i + 1);
      UnderMore(rank, b.m, b.y.car, Weight(k, l, 0), rank(b.n, b.x));
      UnderMore(rank, b.m, b.y.cdr, Weight(k, l, 0), rank(b.n, b.x));
    }
  }

  lemma {:induction false} SameLeast(d: nat, env: Env, n: int, x: Any, m: int, y: Any)
    requires Chains(env) && Lookup(env, n, x) == Lookup(env, m, y)
    ensures Least(d, env, n, x) == Least(d, env, m, y)
  {
    hide Lookup, Chains;
    if d > 0 {
      SameLeast(d - 1, env, n, x, m, y);
    }
  }

  // Looking up the bound variables ends exactly if all bindings pass the occurs check.
  lemma {:induction false} FillsExactly(env: Env)
    requires Chains(env) && Once(env)
    ensures (exists d: nat :: FillsAll(d, env)) <==> AllPass(env)
  {
    SolvableExactly(env);
    AcyclicExactly(env);
    hide AllPass, Once, Chains, Ranked, Fill;
    if AllPass(env) {
      var v: Valuation :| Satisfies(v, env);
      var d := Greatest(v, env);
      forall i | 0 <= i < |env| ensures Fill(d, env, env[i].n, env[i].x).Term? {
        assert Holds(v, env[i]);
        FillEnds(d, v, env, env[i].n, env[i].x);
      }
      assert FillsAll(d, env);
    }
    if d: nat :| FillsAll(d, env) {
      FilledRanked(d, env);
    }
  }

  lemma {:induction false} FilledRanked(d: nat, env: Env)
    requires Chains(env) && Once(env) && FillsAll(d, env)
    ensures Ranked(ByDepth(d, env), env)
  {
    forall i | 0 <= i < |env| ensures Falls(ByDepth(d, env), env[i]) {
      FilledFalls(d, env, i);
    }
  }

  // ---------- the list ----------

  datatype Pair = Pair(x: Any, value: Any)

  // lookup: an unbound variable is shown as NIL.
  function Shown(t: Any): Any {
    if IsVar(t) then Nil else t
  }

  // The variables of the query can be looked up.
  ghost predicate QueryFills(d: nat, env: Env)
    requires Chains(env)
  {
    forall i :: 0 <= i < |env| && env[i].n == 0 ==> Fill(d, env, 0, env[i].x).Term?
  }

  // The list after the k newest bindings have been passed: those of level 0, oldest first.
  ghost function ListOf(d: nat, env: Env, k: nat): seq<Pair>
    requires Chains(env) && QueryFills(d, env) && k <= |env|
  {
    if k == 0 then []
    else if env[k - 1].n != 0 then ListOf(d, env, k - 1)
    else [Pair(env[k - 1].x, Shown(Fill(d, env, 0, env[k - 1].x).x))] + ListOf(d, env, k - 1)
  }

  // What prove returns: the list, T if there is nothing in it, or NIL if there is no answer.
  datatype Reply = Bindings(list: seq<Pair>) | Proved | Failed

  ghost predicate Replies(d: nat, s: Status, r: Reply) {
    match s
    case Answer(m) =>
      && Chains(m.cur.env) && QueryFills(d, m.cur.env)
      && (var list := ListOf(d, m.cur.env, |m.cur.env|); r == if list == [] then Proved else Bindings(list))
    case _ => r == Failed
  }

  // The first value listed for a variable, NIL if there is none.
  function ValueIn(list: seq<Pair>, x: Any): Any {
    if list == [] then Nil else if list[0].x == x then list[0].value else ValueIn(list[1..], x)
  }

  function ByList(list: seq<Pair>): Valuation {
    (m, x) => ValueIn(list, x)
  }

  // The list holds the value of each variable of the query that is bound, and of no other.
  lemma {:induction false} ListedAt(d: nat, env: Env, k: nat, x: Any)
    requires Chains(env) && QueryFills(d, env) && Once(env) && k <= |env| && IsVar(x)
    ensures (var i := Find(env, 0, x);
             ValueIn(ListOf(d, env, k), x) == if i < k then Shown(Fill(d, env, 0, x).x) else Nil)
    ensures Find(env, 0, x) < k <==> exists j :: 0 <= j < |ListOf(d, env, k)| && ListOf(d, env, k)[j].x == x
    decreases k
  {
    if k > 0 {
      ListedAt(d, env, k - 1, x);
      var b := env[k - 1];
      assert Find(env, b.n, b.x) == k - 1;
      hide Once, Chains, Fill;
      var rest := ListOf(d, env, k - 1);
      if b.n == 0 {
        var list := ListOf(d, env, k);
        assert list[0].x == b.x && list[1..] == rest;
        assert forall j :: 0 < j < |list| ==> list[j] == rest[j - 1];
        assert forall j :: 0 <= j < |rest| ==> rest[j] == list[j + 1];
      }
    }
  }

  // No variable is left in the values of the list.
  ghost predicate AllGround(list: seq<Pair>) {
    forall j :: 0 <= j < |list| ==> Ground(list[j].value)
  }

  lemma {:induction false} GroundIn(list: seq<Pair>, x: Any)
    requires AllGround(list)
    ensures Ground(ValueIn(list, x))
  {
    if list != [] {
      assert Ground(list[0].value);
      assert forall j :: 0 <= j < |list| - 1 ==> list[1..][j] == list[j + 1];
      GroundIn(list[1..], x);
    }
  }

  // The query is derivable with the values of the list in place of its variables, NIL for those that
  // are not listed, if all bindings pass the check and no variable is left in the list.
  lemma {:induction false} ListedDerivable(steps: nat, depth: nat, db: Database, goals: seq<Goal>, d: nat, j: nat)
    requires DatabaseNoAt(db) && GoalsNoAt(goals) && j < |goals| && Run(steps, depth, db, Start(goals)).Answer?
    requires (var env := Run(steps, depth, db, Start(goals)).m.cur.env;
              Chains(env) && AllPass(env) && QueryFills(d, env) && AllGround(ListOf(d, env, |env|)))
    ensures (var env := Run(steps, depth, db, Start(goals)).m.cur.env;
             Derivable(db, goals[j].pred, Value(ByList(ListOf(d, env, |env|)), 0, goals[j].args)))
  {
    AnswerOnce(steps, depth, db, goals);
    var w := AnswerExactly(steps, depth, db, goals, (m, x) => Nil);
    hide Run, Derivable, DatabaseNoAt, GoalsNoAt, AllPass, ListOf;
    var env := Run(steps, depth, db, Start(goals)).m.cur.env;
    var u := ByList(ListOf(d, env, |env|));
    forall x | IsVar(x) ensures w(0, x) == u(0, x) {
      ListedValue(d, env, w, x);
    }
    SameOnVars(w, u, goals[j].args);
  }

  lemma {:induction false} ListedValue(d: nat, env: Env, w: Valuation, x: Any)
    requires Chains(env) && Once(env) && QueryFills(d, env) && IsVar(x) && AllGround(ListOf(d, env, |env|))
    requires Satisfies(w, env) && forall m, y :: IsVar(y) && !Bound(env, m, y) ==> w(m, y) == Nil
    ensures w(0, x) == ValueIn(ListOf(d, env, |env|), x)
  {
    ListedAt(d, env, |env|, x);
    GroundIn(ListOf(d, env, |env|), x);
    hide ListOf, AllGround, Once;
    if Find(env, 0, x) < |env| {
      var t := Fill(d, env, 0, x).x;
      if IsVar(t) {
        LookupKeepsValue(w, env, 0, x);
        FilledVar(d, env, 0, x);
      } else {
        GroundAnswer(d, w, env, 0, x);
      }
    }
  }

  lemma {:induction false} FilledVar(d: nat, env: Env, n: int, x: Any)
    requires Chains(env) && Fill(d, env, n, x).Term? && IsVar(Fill(d, env, n, x).x)
    ensures Lookup(env, n, x).1 == Fill(d, env, n, x).x
  {
    hide Lookup, Chains;
  }

  lemma {:induction false} SameOnVars(v: Valuation, u: Valuation, x: Any)
    requires forall y :: IsVar(y) ==> v(0, y) == u(0, y)
    ensures Value(v, 0, x) == Value(u, 0, x)
  {
    if !IsVar(x) && x.Cell? {
      SameOnVars(v, u, x.car);
      SameOnVars(v, u, x.cdr);
    }
  }

  // ---------- lists in which variables are left ----------

  // In general: with the terms that lup gives, the variables left in them taken as data, the query is
  // derivable.
  lemma {:induction false} TermsDerivable(steps: nat, depth: nat, db: Database, goals: seq<Goal>, d: nat, u: Valuation,
                                          j: nat)
    requires DatabaseNoAt(db) && GoalsNoAt(goals) && j < |goals| && Run(steps, depth, db, Start(goals)).Answer?
    requires (var env := Run(steps, depth, db, Start(goals)).m.cur.env;
              Chains(env) && AllPass(env) && QueryFills(d, env) && IsFilled(d, env, u))
    ensures Derivable(db, goals[j].pred, Value(u, 0, goals[j].args))
  {
    AnswerOnce(steps, depth, db, goals);
    var w := AnswerExactly(steps, depth, db, goals, (m, x) => x);
    hide Run, Derivable, DatabaseNoAt, GoalsNoAt, AllPass;
    var env := Run(steps, depth, db, Start(goals)).m.cur.env;
    forall x | IsVar(x) ensures w(0, x) == u(0, x) {
      if Bound(env, 0, x) {
        FilledIsValue(d, w, env, 0, x);
      }
    }
    SameOnVars(w, u, goals[j].args);
  }

  // u gives the variables of the query the terms that lup gives them.
  ghost predicate IsFilled(d: nat, env: Env, u: Valuation)
    requires Chains(env) && QueryFills(d, env)
  {
    forall x :: IsVar(x) ==> u(0, x) == (if Bound(env, 0, x) then Fill(d, env, 0, env[Find(env, 0, x)].x).x else x)
  }

  lemma {:induction false} FilledIsValue(d: nat, w: Valuation, env: Env, n: int, x: Any)
    requires Chains(env) && Satisfies(w, env) && Fill(d, env, n, x).Term?
    requires forall m, y :: IsVar(y) && !Bound(env, m, y) ==> w(m, y) == y
    ensures Value(w, n, x) == Fill(d, env, n, x).x
    decreases d
  {
    hide Lookup, Chains, Satisfies;
    var (m, y) := Lookup(env, n, x);
    LookupKeepsValue(w, env, n, x);
    if y.Cell? {
      FilledIsValue(d - 1, w, env, m, y.car);
      FilledIsValue(d - 1, w, env, m, y.cdr);
    }
  }

  // But a variable alone is listed as NIL, and the same variable within another term is not: with the
  // fact (be p (@A 1 . @A)) the query (p @X . @Y) has the list ((@X) (@Y 1 . @A)), which no fact yields.
  const Halves: Database := map["p" := [Clause(Cell(A, Cell(Num(1), A)), [])]]
  const HalvesGoal: Goal := Goal("p", Cell(X, Y))
  const HalvesEnv: Env := [Binding(0, Y, 1, Cell(Num(1), A)), Binding(0, X, 1, A)]
  const HalvesList: seq<Pair> := [Pair(X, Nil), Pair(Y, Cell(Num(1), A))]

  lemma HalvesUnify()
    ensures Unify(3, [], 0, Cell(X, Y), 1, Cell(A, Cell(Num(1), A))) == Yes(HalvesEnv)
  {
    var e1 := [Binding(0, X, 1, A)];
    assert X.name != Y.name;
    assert Unify(2, [], 0, X, 1, A) == Yes(e1);
    assert e1[1..] == [];
    assert Find(e1, 0, Y) == 1;
    assert Unify(2, e1, 0, Y, 1, Cell(Num(1), A)) == Yes(HalvesEnv);
  }

  lemma HalvesRun()
    ensures Run(3, 3, Halves, Start([HalvesGoal])).Answer?
    ensures Run(3, 3, Halves, Start([HalvesGoal])).m.cur.env == HalvesEnv
  {
    HalvesUnify();
    hide Unify;
    var m := Start([HalvesGoal]);
    var rule := Halves["p"][0];
    var c1 := m.cur.(alt := [rule]);
    var c2 := Choice(2, [1, 0], [], [], [[]], HalvesEnv);
    var c3 := Choice(2, [0], [], [], [], HalvesEnv);
    assert Step(3, Halves, m) == Running(Machine(c1, []));
    OnlyRule(Halves, c1, rule, HalvesGoal, HalvesEnv);
    assert [1] + [0] == [1, 0] && [[]] + c1.tp2 == [[]];
    assert Step(3, Halves, Machine(c2, [])) == Running(Machine(c3, []));
    hide Step;
    RunsOn(3, Halves, m, Machine(c1, []));
    RunsOn(2, Halves, Machine(c1, []), Machine(c2, []));
    RunsOn(1, Halves, Machine(c2, []), Machine(c3, []));
    assert Run(0, 3, Halves, Machine(c3, [])) == Answer(Machine(c3, []));
  }

  // All its bindings pass the occurs check.
  lemma HalvesPasses()
    ensures AllPass(HalvesEnv)
  {
    var rank: Rank := (n, x) => if n == 0 then 1 else 0;
    assert Ranked(rank, HalvesEnv);
    assert X.name != Y.name;
    AcyclicExactly(HalvesEnv);
  }

  lemma HalvesFilled()
    requires Chains(HalvesEnv)
    ensures Fill(1, HalvesEnv, 0, X) == Term(A) && Fill(1, HalvesEnv, 0, Y) == Term(Cell(Num(1), A))
  {
    assert X.name != Y.name && A.name != X.name && A.name != Y.name;
    var env := HalvesEnv;
    assert env[1..][1..] == [] && env[1..][0] == env[1];
    assert Find(env, 0, Y) == 0 && Find(env, 0, X) == 1 && Find(env, 1, A) == 2;
    assert Lookup(env, 1, A) == (1, A) && Lookup(env, 1, Num(1)) == (1, Num(1));
    assert Lookup(env, 0, Y) == (1, Cell(Num(1), A)) && Lookup(env, 0, X) == (1, A);
    hide Lookup;
    assert Fill(0, env, 1, A) == Term(A) && Fill(0, env, 1, Num(1)) == Term(Num(1));
  }

  lemma HalvesListed()
    requires Chains(HalvesEnv)
    ensures QueryFills(1, HalvesEnv) && ListOf(1, HalvesEnv, 2) == HalvesList
  {
    HalvesFilled();
    hide Fill;
    assert ListOf(1, HalvesEnv, 0) == [];
    assert ListOf(1, HalvesEnv, 1) == [Pair(Y, Cell(Num(1), A))];
  }

  lemma HalvesNotDerivable()
    ensures !Derivable(Halves, "p", Value(ByList(HalvesList), 0, HalvesGoal.args))
  {
    var t := Value(ByList(HalvesList), 0, HalvesGoal.args);
    assert X.name != Y.name;
    assert HalvesList[1..] == [HalvesList[1]];
    assert ValueIn(HalvesList[1..], Y) == Cell(Num(1), A);
    assert ValueIn(HalvesList, X) == Nil && ValueIn(HalvesList, Y) == Cell(Num(1), A);
    assert t == Cell(Nil, Cell(Num(1), A));
    if Derivable(Halves, "p", t) {
      var i, v := Invert(Halves, "p", t);
    }
  }
}
