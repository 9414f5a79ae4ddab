/** In which order the prover tries the clauses of a database, and what it makes of facts. */
module ClauseOrder {
  import opened Unification
  import opened Resolution
  import opened Prover

  // ---------- answers in the order of the database ----------

  // The answers to the first goal by way of one clause: its body at the new level, then the other goals.
  ghost function Through(d: nat, db: Database, c: Clause, k: seq<Frame>, env: Env, n: int): seq<Env>
    requires Chains(env) && k != [] && k[0].goals != [] && d > 0
  {
    var r := Unify(d, env, k[0].level, k[0].goals[0].args, n, c.head);
    if !r.Yes? then []
    else
      var a := Solve(d - 1, db, [Frame(n, c.body), Frame(k[0].level, k[0].goals[1..])] + k[1..], r.env, n + 1);
      if a.Found? then a.envs else []
  }

  ghost function InOrder(d: nat, db: Database, cs: seq<Clause>, k: seq<Frame>, env: Env, n: int): seq<Env>
    requires Chains(env) && k != [] && k[0].goals != [] && d > 0
  {
    if cs == [] then [] else Through(d, db, cs[0], k, env, n) + InOrder(d, db, cs[1..], k, env, n)
  }

  // The answers to the first goal are those through the first clause of its predicate, then those through
  // the second one, and so on to the last.
  lemma AnswersInOrder(d: nat, db: Database, k: seq<Frame>, env: Env, n: int)
    requires Chains(env) && k != [] && k[0].goals != [] && d > 0 && Solve(d, db, k, env, n).Found?
    ensures (var p := k[0].goals[0].pred;
             Solve(d, db, k, env, n).envs == if p in db then InOrder(d, db, db[p], k, env, n) else [])
  {
    var p := k[0].goals[0].pred;
    if p in db {
      ClausesInOrder(d, db, db[p], k, env, n);
    }
  }

  lemma {:induction false} ClausesInOrder(d: nat, db: Database, cs: seq<Clause>, k: seq<Frame>, env: Env, n: int)
    requires Chains(env) && k != [] && k[0].goals != [] && d > 0 && SolveClauses(d, db, cs, k, env, n).Found?
    ensures SolveClauses(d, db, cs, k, env, n).envs == InOrder(d, db, cs, k, env, n)
    decreases |cs|
  {
    hide Unify, Solve, Chains;
    if cs != [] {
      ClausesInOrder(d, db, cs[1..], k, env, n);
    }
  }

  // ---------- facts ----------

  // Without a variable: no symbol begins with '@'.
  predicate Plain(x: Any) {
    match x
    case Sym(name) => name == "" || name[0] != '@'
    case Cell(a, b) => Plain(a) && Plain(b)
    case _ => true
  }

  // Terms without variables unify exactly if they are equal, and nothing is bound.
  lemma {:induction false} PlainUnify(d: nat, env: Env, n1: int, x: Any, n2: int, y: Any)
    requires Chains(env) && Plain(x) && Plain(y) && Size(x) <= d
    ensures Unify(d, env, n1, x, n2, y) == if x == y then Yes(env) else No
    decreases d
  {
    assert Lookup(env, n1, x) == (n1, x) && Lookup(env, n2, y) == (n2, y);
    if x.Cell? && y.Cell? && !(n1 == n2 && x == y) {
      PlainUnify(d - 1, env, n1, x.car, n2, y.car);
      PlainUnify(d - 1, env, n1, x.cdr, n2, y.cdr);
    }
  }

  // A symbol that begins with '@' is a variable: in an empty environment it is bound to what it meets,
  // the anonymous one to nothing.
  lemma VariableUnify(d: nat, n: int, name: string, m: int, y: Any)
    requires name != "" && name[0] == '@' && (n != m || Sym(name) != y)
    ensures Unify(d, [], n, Sym(name), m, y)
            == Yes(if name == "@" then [] else [Binding(n, Sym(name), m, y)])
    ensures Plain(y) ==>
              Unify(d, [], m, y, n, Sym(name)) == Yes(if name == "@" then [] else [Binding(n, Sym(name), m, y)])
  {
    assert Lookup([], n, Sym(name)) == (n, Sym(name)) && Lookup([], m, y) == (m, y);
  }

  // The machine with the clauses from the i-th on still to be tried for the only goal of a query.
  function TryingFrom(g: Goal, cs: seq<Clause>, i: nat): Machine
    requires i < |cs|
  {
    Machine(Choice(1, [0], cs[i..], [g], [], []), [])
  }

  // On a query of one goal the first fact of its predicate that unifies with it is the answer, if the
  // clauses before it do not unify.
  lemma FirstFact(depth: nat, db: Database, g: Goal, i: nat)
    requires g.pred in db && i < |db[g.pred]| && db[g.pred][i].body == []
    requires forall j :: 0 <= j < i ==> Unify(depth, [], 0, g.args, 1, db[g.pred][j].head) == No
    requires Unify(depth, [], 0, g.args, 1, db[g.pred][i].head).Yes?
    ensures (var r := Run(i + 4, depth, db, Start([g]));
             r.Answer? && r.m.cur.env == Unify(depth, [], 0, g.args, 1, db[g.pred][i].head).env)
  {
    hide Unify;
    var m := Start([g]);
    assert db[g.pred][0..] == db[g.pred];
    assert Step(depth, db, m) == Running(TryingFrom(g, db[g.pred], 0));
    TriesOn(depth, db, g, 0, i);
    FoundFact(depth, db, g, i);
    var t := TryingFrom(g, db[g.pred], 0);
    assert Run(i + 4, depth, db, m) == Run(i + 3, depth, db, t);
  }

  lemma {:induction false} TriesOn(depth: nat, db: Database, g: Goal, k: nat, i: nat)
    requires g.pred in db && k <= i < |db[g.pred]|
    requires forall j :: k <= j < i ==> Unify(depth, [], 0, g.args, 1, db[g.pred][j].head) == No
    ensures Run(i - k + 3, depth, db, TryingFrom(g, db[g.pred], k)) == Run(3, depth, db, TryingFrom(g, db[g.pred], i))
    decreases i - k
  {
    hide Unify;
    if k < i {
      var cs := db[g.pred];
      assert cs[k..][1..] == cs[k + 1..] && cs[k..][0] == cs[k];
      assert Step(depth, db, TryingFrom(g, cs, k)) == Running(TryingFrom(g, cs, k + 1));
      TriesOn(depth, db, g, k + 1, i);
    }
  }

  lemma FoundFact(depth: nat, db: Database, g: Goal, i: nat)
    requires g.pred in db && i < |db[g.pred]| && db[g.pred][i].body == []
    requires Unify(depth, [], 0, g.args, 1, db[g.pred][i].head).Yes?
    ensures (var r := Run(3, depth, db, TryingFrom(g, db[g.pred], i));
             r.Answer? && r.m.cur.env == Unify(depth, [], 0, g.args, 1, db[g.pred][i].head).env)
  {
    hide Unify;
    var cs := db[g.pred];
    var e := Unify(depth, [], 0, g.args, 1, cs[i].head).env;
    var t := TryingFrom(g, cs, i);
    assert cs[i..][0] == cs[i];
    var q := if cs[i..][1..] != [] then [t.cur.(alt := cs[i..][1..])] else [];
    var m1 := Machine(Choice(2, [1] + [0], [], [], [[g][1..]] + [], e), q);
    assert Step(depth, db, t) == Running(m1);
    var m2 := Machine(Choice(2, [0], [], [], [], e), q);
    assert [1] + [0] == [1, 0] && [g][1..] == [];
    assert Step(depth, db, m1) == Running(m2);
    assert Run(3, depth, db, t) == Run(2, depth, db, m1) == Run(1, depth, db, m2) == Answer(m2);
  }

  // If none unifies there is no answer.
  lemma NoFact(depth: nat, db: Database, g: Goal)
    requires forall j :: g.pred in db && 0 <= j < |db[g.pred]| ==>
               Unify(depth, [], 0, g.args, 1, db[g.pred][j].head) == No
    ensures Run((if g.pred in db then |db[g.pred]| else 0) + 4, depth, db, Start([g])) == Exhausted
  {
    hide Unify;
    var m := Start([g]);
    if g.pred in db && db[g.pred] != [] {
      var cs := db[g.pred];
      assert cs[0..] == cs;
      assert Step(depth, db, m) == Running(TryingFrom(g, cs, 0));
      TriesOn(depth, db, g, 0, |cs| - 1);
      var t := TryingFrom(g, cs, |cs| - 1);
      assert cs[|cs| - 1..][1..] == [] && cs[|cs| - 1..][0] == cs[|cs| - 1];
      assert Step(depth, db, t) == Exhausted;
      RunsLonger(|cs| + 2, depth, db, TryingFrom(g, cs, 0));
      assert Run(|cs| + 4, depth, db, m) == Run(|cs| + 3, depth, db, TryingFrom(g, cs, 0));
    } else {
      assert Step(depth, db, m) == Exhausted;
    }
  }

  lemma {:induction false} RunsLonger(k: nat, depth: nat, db: Database, m: Machine)
    requires MachineShape(m) && Run(k, depth, db, m) == Exhausted
    ensures Run(k + 1, depth, db, m) == Exhausted
  {
    hide Step;
    if k > 0 {
      var s := Step(depth, db, m);
      if s.Running? {
        RunsLonger(k - 1, depth, db, s.m);
      }
    }
  }

  // So a query without variables to facts without variables is answered exactly if it is one of them.
  lemma PlainFacts(depth: nat, db: Database, g: Goal)
    requires g.pred in db && Plain(g.args) && Size(g.args) <= depth
    requires forall j :: 0 <= j < |db[g.pred]| ==> Plain(db[g.pred][j].head) && db[g.pred][j].body == []
    ensures (exists steps: nat :: Run(steps, depth, db, Start([g])).Answer?)
            <==> exists j :: 0 <= j < |db[g.pred]| && db[g.pred][j].head == g.args
    ensures (exists j :: 0 <= j < |db[g.pred]| && db[g.pred][j].head == g.args)
            || exists steps: nat :: Run(steps, depth, db, Start([g])) == Exhausted
  {
    hide Unify, Run;
    var cs := db[g.pred];
    forall j | 0 <= j < |cs| ensures Unify(depth, [], 0, g.args, 1, cs[j].head) == if cs[j].head == g.args then Yes([])
      else No {
      PlainUnify(depth, [], 0, g.args, 1, cs[j].head);
    }
    if exists j :: 0 <= j < |cs| && cs[j].head == g.args {
      var i := FirstEqual(cs, g.args);
      FirstFact(depth, db, g, i);
      assert Run(i + 4, depth, db, Start([g])).Answer?;
    } else {
      NoFact(depth, db, g);
      if steps: nat :| Run(steps, depth, db, Start([g])).Answer? {
        OneEnd(steps, |cs| + 4, depth, db, Start([g]));
      }
    }
  }

  lemma {:induction false} FirstEqual(cs: seq<Clause>, x: Any) returns (i: nat)
    requires exists j :: 0 <= j < |cs| && cs[j].head == x
    ensures i < |cs| && cs[i].head == x && forall j :: 0 <= j < i ==> cs[j].head != x
  {
    if cs[0].head == x {
      i := 0;
    } else {
      var j :| 0 <= j < |cs| && cs[j].head == x;
      assert cs[1..][j - 1].head == x;
      i := FirstEqual(cs[1..], x);
      i := i + 1;
    }
  }

  // A run has one end.
  lemma {:induction false} OneEnd(j: nat, k: nat, depth: nat, db: Database, m: Machine)
    requires MachineShape(m) && Run(j, depth, db, m).Answer?
    ensures Run(k, depth, db, m) != Exhausted
    decreases j + k
  {
    hide Step;
    if j > 0 && k > 0 {
      var s := Step(depth, db, m);
      if s.Running? {
        OneEnd(j - 1, k - 1, depth, db, s.m);
      }
    } else {
      AtOnce(k, depth, db, m);
    }
  }

  lemma AtOnce(k: nat, depth: nat, db: Database, m: Machine)
    requires MachineShape(m)
    ensures m.cur.tp1 == [] && m.cur.tp2 == [] ==> Run(k, depth, db, m).Answer?
    ensures k == 0 ==> Run(k, depth, db, m) != Exhausted
  {
  }
}
