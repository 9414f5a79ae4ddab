/** What an answer of the prover means: when it is right, and the list of bindings that is returned. */
module Answers {
  import opened Unification
  import opened OccursCheck
  import opened CheckedUnification
  import opened Resolution
  import opened Prover

  // ---------- the bindings of an answer ----------

  ghost predicate MachineOnce(m: Machine) {
    Once(m.cur.env) && forall i :: 0 <= i < |m.q| ==> Once(m.q[i].env)
  }

  lemma {:induction false} StepOnce(depth: nat, db: Database, m: Machine)
    requires MachineShape(m) && MachineOnce(m)
    ensures (var r := Step(depth, db, m); r.Running? || r.Answer? ==> MachineOnce(r.m))
  {
    var c := m.cur;
    if c.alt != [] && Unify(depth, c.env, c.nl[0], c.tp1[0].args, c.n, c.alt[0].head).Yes? {
      CheckedExactly(depth, c.env, c.nl[0], c.tp1[0].args, c.n, c.alt[0].head);
    }
    hide Once, Unify;
  }

  lemma {:induction false} RunOnce(steps: nat, depth: nat, db: Database, m: Machine)
    requires MachineShape(m) && MachineOnce(m)
    ensures (var r := Run(steps, depth, db, m); r.Running? || r.Answer? ==> MachineOnce(r.m))
    decreases steps
  {
    hide MachineOnce, MachineShape, Step;
    if steps > 0 {
      StepOnce(depth, db, m);
      var r := Step(depth, db, m);
      if r.Running? {
        RunOnce(steps - 1, depth, db, r.m);
      }
    }
  }

  // The environment of an answer to a query binds each variable once.
  lemma {:induction false} AnswerOnce(steps: nat, depth: nat, db: Database, goals: seq<Goal>)
    requires Run(steps, depth, db, Start(goals)).Answer?
    ensures Once(Run(steps, depth, db, Start(goals)).m.cur.env) && Chains(Run(steps, depth, db, Start(goals)).m.cur.env)
  {
    RunOnce(steps, depth, db, Start(goals));
    hide Run, Once, Chains;
  }

  // Some valuation satisfies an answer exactly if all its bindings would have passed the occurs check. If
  // so, the unbound variables can have any values, and the goals are derivable.
  lemma {:induction false} AnswerExactly(steps: nat, depth: nat, db: Database, goals: seq<Goal>, free: Valuation)
    returns (w: Valuation)
    requires DatabaseNoAt(db) && GoalsNoAt(goals) && Run(steps, depth, db, Start(goals)).Answer?
    ensures (var env := Run(steps, depth, db, Start(goals)).m.cur.env;
             && ((exists v: Valuation :: Satisfies(v, env)) <==> AllPass(env))
             && (AllPass(env) ==>
                   && Satisfies(w, env) && (forall m, x :: IsVar(x) && !Bound(env, m, x) ==> w(m, x) == free(m, x))
                   && forall j :: 0 <= j < |goals| ==> Derivable(db, goals[j].pred, Value(w, 0, goals[j].args))))
  {
    AnswerOnce(steps, depth, db, goals);
    hide Run, Once, AllPass, Ranked, Satisfies, Solution, Derivable, DatabaseNoAt, GoalsNoAt, Chains, Value;
    var env := Run(steps, depth, db, Start(goals)).m.cur.env;
    SolvableExactly(env);
    w := free;
    if AllPass(env) {
      AcyclicExactly(env);
      var rank: Rank :| Ranked(rank, env);
      w := Solution(rank, env, free);
      SolutionSatisfies(rank, env, free);
      forall j | 0 <= j < |goals| ensures Derivable(db, goals[j].pred, Value(w, 0, goals[j].args)) {
        AnswerSound(steps, depth, db, goals, w, j);
      }
    }
  }

  // ---------- a wrong answer ----------

  // (be eq (@A . @A)), (be q () (eq @B 1 . @B)): the query (q) is answered, by binding a variable to a
  // term in which it occurs, though nothing is derivable for q.
  const A: Any := Sym("@A")
  const B: Any := Sym("@B")
  const SameRule: Clause := Clause(Cell(A, A), [])
  const QueryRule: Clause := Clause(Nil, [Goal("eq", Cell(B, Cell(Num(1), B)))])
  const Cyclic: Database := map["eq" := [SameRule], "q" := [QueryRule]]
  const CyclicEnv: Env := [Binding(2, A, 1, Cell(Num(1), B)), Binding(1, B, 2, A)]

  lemma CyclicUnify()
    ensures Unify(3, [], 0, Nil, 1, Nil) == Yes([])
    ensures Unify(3, [], 1, Cell(B, Cell(Num(1), B)), 2, Cell(A, A)) == Yes(CyclicEnv)
  {
    var e1 := [Binding(1, B, 2, A)];
    assert Unify(2, [], 1, B, 2, A) == Yes(e1);
    assert e1[1..] == [];
    assert Find(e1, 2, A) == 1;
    assert Unify(2, e1, 1, Cell(Num(1), B), 2, A) == Yes(CyclicEnv);
  }

  lemma CyclicAnswer()
    ensures Run(6, 3, Cyclic, Start([Goal("q", Nil)])).Answer?
    ensures Run(6, 3, Cyclic, Start([Goal("q", Nil)])).m.cur.env == CyclicEnv && !AllPass(CyclicEnv)
  {
    CyclicUnify();
    hide Unify;
    var m := Start([Goal("q", Nil)]);
    var c1 := m.cur.(alt := [QueryRule]);
    var c2 := Choice(2, [1, 0], [], QueryRule.body, [[]], []);
    var c3 := c2.(alt := [SameRule]);
    var c4 := Choice(3, [2, 1, 0], [], [], [[], []], CyclicEnv);
    var c5 := Choice(3, [1, 0], [], [], [[]], CyclicEnv);
    var c6 := Choice(3, [0], [], [], [], CyclicEnv);
    assert Step(3, Cyclic, m) == Running(Machine(c1, []));
    OnlyRule(Cyclic, c1, QueryRule, Goal("q", Nil), []);
    assert [1] + [0] == [1, 0] && [[]] + c1.tp2 == [[]];
    assert Step(3, Cyclic, Machine(c2, [])) == Running(Machine(c3, []));
    OnlyRule(Cyclic, c3, SameRule, QueryRule.body[0], CyclicEnv);
    assert [2] + [1, 0] == [2, 1, 0] && [[]] + c3.tp2 == [[], []];
    assert Step(3, Cyclic, Machine(c4, [])) == Running(Machine(c5, []));
    assert Step(3, Cyclic, Machine(c5, [])) == Running(Machine(c6, []));
    hide Step;
    RunsOn(6, Cyclic, m, Machine(c1, []));
    RunsOn(5, Cyclic, Machine(c1, []), Machine(c2, []));
    RunsOn(4, Cyclic, Machine(c2, []), Machine(c3, []));
    RunsOn(3, Cyclic, Machine(c3, []), Machine(c4, []));
    RunsOn(2, Cyclic, Machine(c4, []), Machine(c5, []));
    RunsOn(1, Cyclic, Machine(c5, []), Machine(c6, []));
    assert Run(0, 3, Cyclic, Machine(c6, [])) == Answer(Machine(c6, []));
    CyclicFails();
  }

  lemma RunsOn(steps: nat, db: Database, m: Machine, m1: Machine)
    requires steps > 0 && MachineShape(m) && Step(3, db, m) == Running(m1)
    ensures MachineShape(m1) && Run(steps, 3, db, m) == Run(steps - 1, 3, db, m1)
  {
  }

  // The round that applies the only clause to the only goal.
  lemma OnlyRule(db: Database, c: Choice, rule: Clause, g: Goal, e: Env)
    requires Shape(c) && c.alt == [rule] && c.tp1 == [g]
    requires Unify(3, c.env, c.nl[0], g.args, c.n, rule.head) == Yes(e)
    ensures Step(3, db, Machine(c, []))
            == Running(Machine(Choice(c.n + 1, [c.n] + c.nl, [], rule.body, [[]] + c.tp2, e), []))
  {
    hide Unify;
    assert [rule][1..] == [] && [g][1..] == [];
  }

  lemma CyclicFails()
    ensures !AllPass(CyclicEnv)
  {
    var e1 := [Binding(1, B, 2, A)];
    assert CyclicEnv[1..] == e1;
    assert Find(e1, 1, B) == 0;
    assert OccursIn(1, e1, 2, A, 1, B);
    assert OccursIn(1, e1, 2, A, 1, Cell(Num(1), B));
  }

  lemma CyclicUnderivable(t: Any)
    ensures !Derivable(Cyclic, "q", t)
  {
    if Derivable(Cyclic, "q", t) {
      var i, v := Invert(Cyclic, "q", t);
      assert GoalHolds(Cyclic, v, 0, QueryRule.body[0]);
      var i', v' := Invert(Cyclic, "eq", Value(v, 0, Cell(B, Cell(Num(1), B))));
      SizeGrows(v(0, B), v(0, B));
    }
  }
}
