/** Horn clauses, what follows from them, and the recursive depth-first search for answers. */
module Resolution {
  import opened Unification

  datatype Goal = Goal(pred: string, args: Any)
  datatype Clause = Clause(head: Any, body: seq<Goal>)
  type Database = map<string, seq<Clause>>

  // The goals still to be proved at one level.
  datatype Frame = Frame(level: int, goals: seq<Goal>)

  function Clauses(db: Database, pred: string): seq<Clause> {
    if pred in db then db[pred] else []
  }

  // steps counts what the prover has to do to find all the answers.
  datatype Answers = TooDeep | Found(envs: seq<Env>, steps: nat)

  function Then(a: Answers, b: Answers): Answers {
    if a.Found? && b.Found? then Found(a.envs + b.envs, a.steps + b.steps) else TooDeep
  }

  function Later(a: Answers): Answers {
    if a.Found? then Found(a.envs, a.steps + 1) else TooDeep
  }

  // All answers to the goals of the frames, depth first and clause by clause; n is the level the
  // next clause is renamed to.
  function Solve(d: nat, db: Database, k: seq<Frame>, env: Env, n: int): Answers
    requires Chains(env)
    decreases d, 1, |k|
  {
    if k == [] then Found([env], 0)
    else if k[0].goals == [] then
      if |k| == 1 then Found([env], 0) else Later(Solve(d, db, k[1..], env, n))
    else Later(SolveClauses(d, db, Clauses(db, k[0].goals[0].pred), k, env, n))
  }

  function SolveClauses(d: nat, db: Database, cs: seq<Clause>, k: seq<Frame>, env: Env, n: int): Answers
    requires Chains(env) && k != [] && k[0].goals != []
    decreases d, 0, |cs|
  {
    if cs == [] then Found([], 0)
    else if d == 0 then TooDeep
    else
      var rest := SolveClauses(d, db, cs[1..], k, env, n);
      match Unify(d, env, k[0].level, k[0].goals[0].args, n, cs[0].head)
      case Stuck => TooDeep
      case No => Later(rest)
      case Yes(e) => Later(Then(Solve(d - 1, db, Resolved(k, cs[0], n), e, n + 1), rest))
  }

  // The first goal replaced by the body of a clause, at the new level n.
  function Resolved(k: seq<Frame>, c: Clause, n: int): seq<Frame>
    requires k != [] && k[0].goals != []
  {
    [Frame(n, c.body), Frame(k[0].level, k[0].goals[1..])] + k[1..]
  }

  // ---------- what follows from the clauses ----------

  // A ground instance of a goal has a proof of at most the given height.
  ghost predicate Derives(height: nat, db: Database, pred: string, t: Any)
    decreases height, 1
  {
    height > 0 && pred in db && exists i: nat, v: Valuation :: i < |db[pred]| && ByClause(height, db, db[pred][i], v, t)
  }

  // Clause c, its variables being the level-0 variables of v, yields t.
  ghost predicate ByClause(height: nat, db: Database, c: Clause, v: Valuation, t: Any)
    requires height > 0
    decreases height, 0
  {
    Value(v, 0, c.head) == t && forall j :: 0 <= j < |c.body| ==>
        Derives(height - 1, db, c.body[j].pred, Value(v, 0, c.body[j].args))
  }

  ghost predicate Derivable(db: Database, pred: string, t: Any) {
    exists height: nat :: Derives(height, db, pred, t)
  }

  ghost predicate GoalHolds(db: Database, v: Valuation, level: int, g: Goal) {
    Derivable(db, g.pred, Value(v, level, g.args))
  }

  ghost predicate AllHold(db: Database, v: Valuation, k: seq<Frame>) {
    forall i, j :: 0 <= i < |k| && 0 <= j < |k[i].goals| ==> GoalHolds(db, v, k[i].level, k[i].goals[j])
  }

  // ---------- terms without the anonymous variable ----------

  ghost predicate GoalsNoAt(gs: seq<Goal>) {
    forall j :: 0 <= j < |gs| ==> NoAt(gs[j].args)
  }

  ghost predicate FramesNoAt(k: seq<Frame>) {
    forall i :: 0 <= i < |k| ==> GoalsNoAt(k[i].goals)
  }

  ghost predicate ClausesNoAt(cs: seq<Clause>) {
    forall i :: 0 <= i < |cs| ==> NoAt(cs[i].head) && GoalsNoAt(cs[i].body)
  }

  ghost predicate DatabaseNoAt(db: Database) {
    forall p :: p in db ==> ClausesNoAt(db[p])
  }

  // ---------- clauses and valuations ----------

  ghost function AtLevel(w: Valuation, n: int): Valuation {
    (m, x) => w(n, x)
  }

  lemma {:induction false} ValueAtLevel(w: Valuation, n: int, x: Any)
    ensures Value(AtLevel(w, n), 0, x) == Value(w, n, x)
  {
    if !IsVar(x) && x.Cell? {
      ValueAtLevel(w, n, x.car);
      ValueAtLevel(w, n, x.cdr);
    }
  }

  lemma {:induction false} DerivesHigher(h: nat, h1: nat, db: Database, pred: string, t: Any)
    requires Derives(h, db, pred, t) && h <= h1
    ensures Derives(h1, db, pred, t)
    decreases h
  {
    var i: nat, v: Valuation :| i < |db[pred]| && ByClause(h, db, db[pred][i], v, t);
    var c := db[pred][i];
    forall j | 0 <= j < |c.body| ensures Derives(h1 - 1, db, c.body[j].pred, Value(v, 0, c.body[j].args)) {
      DerivesHigher(h - 1, h1 - 1, db, c.body[j].pred, Value(v, 0, c.body[j].args));
    }
    assert ByClause(h1, db, c, v, t);
  }

  // Goals that all hold have proofs of one common height.
  lemma {:induction false} CommonHeight(db: Database, v: Valuation, gs: seq<Goal>) returns (h: nat)
    requires forall j :: 0 <= j < |gs| ==> GoalHolds(db, v, 0, gs[j])
    ensures forall j :: 0 <= j < |gs| ==> Derives(h, db, gs[j].pred, Value(v, 0, gs[j].args))
  {
    if gs == [] {
      h := 0;
    } else {
      var g := gs[0];
      assert GoalHolds(db, v, 0, g);
      var h0: nat :| Derives(h0, db, g.pred, Value(v, 0, g.args));
      forall j | 0 <= j < |gs| - 1 ensures GoalHolds(db, v, 0, gs[1..][j]) {
        assert GoalHolds(db, v, 0, gs[j + 1]);
      }
      var h1 := CommonHeight(db, v, gs[1..]);
      h := if h0 < h1 then h1 else h0;
      forall j | 0 <= j < |gs| ensures Derives(h, db, gs[j].pred, Value(v, 0, gs[j].args)) {
        if j == 0 {
          DerivesHigher(h0, h, db, g.pred, Value(v, 0, g.args));
        } else {
          assert gs[1..][j - 1] == gs[j];
          DerivesHigher(h1, h, db, gs[j].pred, Value(v, 0, gs[j].args));
        }
      }
    }
  }

  // A goal whose instance is the head of a clause holds when the clause's body does.
  lemma ApplyClause(db: Database, pred: string, i: nat, w: Valuation, n: int)
    requires i < |Clauses(db, pred)|
    requires (var c := Clauses(db, pred)[i]; forall j :: 0 <= j < |c.body| ==> GoalHolds(db, w, n, c.body[j]))
    ensures Derivable(db, pred, Value(w, n, Clauses(db, pred)[i].head))
  {
    var c := Clauses(db, pred)[i];
    var v := AtLevel(w, n);
    ValueAtLevel(w, n, c.head);
    forall j | 0 <= j < |c.body| ensures GoalHolds(db, v, 0, c.body[j]) {
      assert GoalHolds(db, w, n, c.body[j]);
      ValueAtLevel(w, n, c.body[j].args);
    }
    var h := CommonHeight(db, v, c.body);
    assert ByClause(h + 1, db, c, v, Value(w, n, c.head));
    assert Derives(h + 1, db, pred, Value(w, n, c.head));
  }

  // A derivable goal instance is the head of some instance of a clause whose body is derivable.
  lemma Invert(db: Database, pred: string, t: Any) returns (i: nat, v: Valuation)
    requires Derivable(db, pred, t)
    ensures i < |Clauses(db, pred)| && Value(v, 0, Clauses(db, pred)[i].head) == t
    ensures (var c := Clauses(db, pred)[i]; forall j :: 0 <= j < |c.body| ==> GoalHolds(db, v, 0, c.body[j]))
  {
    var h: nat :| Derives(h, db, pred, t);
    i, v := InvertAt(h, db, pred, t);
  }

  lemma InvertAt(h: nat, db: Database, pred: string, t: Any) returns (i: nat, v: Valuation)
    requires Derives(h, db, pred, t)
    ensures i < |Clauses(db, pred)| && Value(v, 0, Clauses(db, pred)[i].head) == t
    ensures (var c := Clauses(db, pred)[i]; forall j :: 0 <= j < |c.body| ==> GoalHolds(db, v, 0, c.body[j]))
  {
    var i': nat, v': Valuation :| i' < |db[pred]| && ByClause(h, db, db[pred][i'], v', t);
    i, v := i', v';
    var c := Clauses(db, pred)[i];
    forall j | 0 <= j < |c.body| ensures GoalHolds(db, v, 0, c.body[j]) {
      assert Derives(h - 1, db, c.body[j].pred, Value(v, 0, c.body[j].args));
    }
  }

  // ---------- soundness of one resolution step ----------

  // After a clause's head has been unified with the first goal, the old goals hold wherever the new
  // ones do.
  lemma ResolveSound(d: nat, db: Database, k: seq<Frame>, i: nat, env: Env, n: int, w: Valuation)
    requires Chains(env) && EnvNoAt(env) && FramesNoAt(k) && DatabaseNoAt(db)
    requires k != [] && k[0].goals != [] && i < |Clauses(db, k[0].goals[0].pred)|
    requires (var c := Clauses(db, k[0].goals[0].pred)[i];
              var r := Unify(d, env, k[0].level, k[0].goals[0].args, n, c.head);
              r.Yes? && Satisfies(w, r.env) && AllHold(db, w, Resolved(k, c, n)))
    ensures Satisfies(w, env) && AllHold(db, w, k)
  {
    var g := k[0].goals[0];
    var c := Clauses(db, g.pred)[i];
    var k1 := Resolved(k, c, n);
    assert NoAt(c.head) && NoAt(g.args) by {
      assert ClausesNoAt(db[g.pred]);
      assert GoalsNoAt(k[0].goals);
    }
    UnifySound(d, env, k[0].level, g.args, n, c.head, w);
    forall j | 0 <= j < |c.body| ensures GoalHolds(db, w, n, c.body[j]) {
      assert GoalHolds(db, w, k1[0].level, k1[0].goals[j]);
    }
    ApplyClause(db, g.pred, i, w, n);
    forall a, b | 0 <= a < |k| && 0 <= b < |k[a].goals| ensures GoalHolds(db, w, k[a].level, k[a].goals[b]) {
      if a > 0 {
        assert k1[a + 1] == k[a];
        assert GoalHolds(db, w, k1[a + 1].level, k1[a + 1].goals[b]);
      } else if b > 0 {
        assert GoalHolds(db, w, k1[1].level, k1[1].goals[b - 1]);
      }
    }
  }

  // ---------- completeness of the search ----------

  // Levels in use are below n.
  ghost predicate EnvBelow(env: Env, n: int) {
    forall i :: 0 <= i < |env| ==> env[i].n < n && env[i].m < n
  }

  ghost predicate FramesBelow(k: seq<Frame>, n: int) {
    forall i :: 0 <= i < |k| ==> k[i].level < n
  }

  ghost predicate AgreeBelow(v: Valuation, w: Valuation, n: int) {
    forall m, x :: m < n ==> v(m, x) == w(m, x)
  }

  // w with the variables of level n given the values v gives to those of level 0.
  ghost function Extend(w: Valuation, n: int, v: Valuation): Valuation {
    (m, x) => if m == n then v(0, x) else w(m, x)
  }

  lemma {:induction false} ValueAgrees(v: Valuation, w: Valuation, m: int, m': int, x: Any)
    requires forall y :: v(m, y) == w(m', y)
    ensures Value(v, m, x) == Value(w, m', x)
  {
    if !IsVar(x) && x.Cell? {
      ValueAgrees(v, w, m, m', x.car);
      ValueAgrees(v, w, m, m', x.cdr);
    }
  }

  lemma SatisfiesAgrees(v: Valuation, w: Valuation, env: Env, n: int)
    requires Satisfies(w, env) && EnvBelow(env, n) && AgreeBelow(v, w, n)
    ensures Satisfies(v, env)
  {
    forall i | 0 <= i < |env| ensures Holds(v, env[i]) {
      assert Holds(w, env[i]);
      ValueAgrees(v, w, env[i].m, env[i].m, env[i].y);
    }
  }

  lemma {:induction false} LookupBelow(env: Env, m: int, x: Any, n: int)
    requires Chains(env) && EnvBelow(env, n) && m < n
    ensures Lookup(env, m, x).0 < n
    decreases if IsVar(x) && Find(env, m, x) < |env| then Find(env, m, x) + 1 else 0
  {
    if Bound(env, m, x) {
      var b := env[Find(env, m, x)];
      LookupBelow(env, b.m, b.y, n);
    }
  }

  lemma {:induction false} UnifyBelow(d: nat, env: Env, n1: int, x1: Any, n2: int, x2: Any, n: int)
    requires Chains(env) && EnvBelow(env, n) && n1 < n && n2 < n
    requires Unify(d, env, n1, x1, n2, x2).Yes?
    ensures EnvBelow(Unify(d, env, n1, x1, n2, x2).env, n)
    decreases d
  {
    hide Chains, Lookup, Find;
    var (m1, y1) := Lookup(env, n1, x1);
    var (m2, y2) := Lookup(env, n2, x2);
    LookupBelow(env, n1, x1, n);
    LookupBelow(env, n2, x2, n);
    if !(m1 == m2 && y1 == y2) && !IsVar(y1) && !IsVar(y2) && y1.Cell? && y2.Cell? {
      UnifyBelow(d - 1, env, m1, y1.car, m2, y2.car, n);
      var e := Unify(d - 1, env, m1, y1.car, m2, y2.car).env;
      UnifyBelow(d - 1, e, m1, y1.cdr, m2, y2.cdr, n);
    }
  }

  // Everything the search needs to know about where it stands.
  ghost predicate Ready(db: Database, k: seq<Frame>, env: Env, n: int) {
    && Chains(env) && EnvNoAt(env) && EnvBelow(env, n)
    && FramesNoAt(k) && FramesBelow(k, n) && DatabaseNoAt(db)
  }

  lemma ReadyResolved(d: nat, db: Database, k: seq<Frame>, c: Clause, env: Env, n: int)
    requires Ready(db, k, env, n) && k != [] && k[0].goals != [] && NoAt(c.head) && GoalsNoAt(c.body)
    requires Unify(d, env, k[0].level, k[0].goals[0].args, n, c.head).Yes?
    ensures Ready(db, Resolved(k, c, n), Unify(d, env, k[0].level, k[0].goals[0].args, n, c.head).env, n + 1)
  {
    assert GoalsNoAt(k[0].goals);
    var none: Valuation := (m, x) => Nil;
    UnifySound(d, env, k[0].level, k[0].goals[0].args, n, c.head, none);
    UnifyBelow(d, env, k[0].level, k[0].goals[0].args, n, c.head, n + 1);
  }

  // If the search comes to an end, every way of making the goals hold is an instance of some answer.
  lemma {:induction false} SolveComplete(d: nat, db: Database, k: seq<Frame>, env: Env, n: int, w: Valuation)
    returns (i: nat, v: Valuation)
    requires Ready(db, k, env, n) && Satisfies(w, env) && AllHold(db, w, k)
    requires Solve(d, db, k, env, n).Found?
    ensures i < |Solve(d, db, k, env, n).envs| && Satisfies(v, Solve(d, db, k, env, n).envs[i]) && AgreeBelow(v, w, n)
    decreases d, 1, |k|
  {
    if k == [] || (k[0].goals == [] && |k| == 1) {
      i, v := 0, w;
    } else if k[0].goals == [] {
      assert AllHold(db, w, k[1..]) by {
        forall a, b | 0 <= a < |k[1..]|
          && 0 <= b < |k[1..][a].goals| ensures GoalHolds(db, w, k[1..][a].level, k[1..][a].goals[b]) {
          assert GoalHolds(db, w, k[a + 1].level, k[a + 1].goals[b]);
        }
      }
      i, v := SolveComplete(d, db, k[1..], env, n, w);
    } else {
      var g := k[0].goals[0];
      assert GoalHolds(db, w, k[0].level, g);
      var ci, u := Invert(db, g.pred, Value(w, k[0].level, g.args));
      i, v := SolveClausesComplete(d, db, Clauses(db, g.pred), k, env, n, w, ci, u);
    }
  }

  lemma {:induction false} SolveClausesComplete(d: nat, db: Database, cs: seq<Clause>, k: seq<Frame>, env: Env, n: int,
                                                w: Valuation, ci: nat, u: Valuation)
    returns (i: nat, v: Valuation)
    requires Ready(db, k, env, n) && Satisfies(w, env) && AllHold(db, w, k) && k != [] && k[0].goals != []
    requires SolveClauses(d, db, cs, k, env, n).Found? && ClausesNoAt(cs)
    requires ci < |cs| && Value(u, 0, cs[ci].head) == Value(w, k[0].level, k[0].goals[0].args)
    requires forall j :: 0 <= j < |cs[ci].body| ==> GoalHolds(db, u, 0, cs[ci].body[j])
    ensures i < |SolveClauses(d, db, cs, k, env, n).envs|
    ensures Satisfies(v, SolveClauses(d, db, cs, k, env, n).envs[i]) && AgreeBelow(v, w, n)
    decreases d, 0, |cs|
  {
    assert Chains(env) && NoAt(cs[0].head) && GoalsNoAt(cs[0].body) && ClausesNoAt(cs[1..]);
    hide Ready, Satisfies, AllHold, Chains, EnvNoAt, ClausesNoAt, GoalsNoAt, AgreeBelow, NoAt, Unify, Solve, GoalHolds,
         Value, Extend, Resolved, DatabaseNoAt;
    var r := Unify(d, env, k[0].level, k[0].goals[0].args, n, cs[0].head);
    if ci > 0 {
      i, v := SolveClausesComplete(d, db, cs[1..], k, env, n, w, ci - 1, u);
      i := LaterClause(d, db, cs, k, env, n, i);
    } else {
      var w1 := Extend(w, n, u);
      ClauseMatches(d, db, cs[0], k, env, n, w, u, w1);
      ReadyResolved(d, db, k, cs[0], env, n);
      i, v := SolveComplete(d - 1, db, Resolved(k, cs[0], n), r.env, n + 1, w1);
      AgreeTwice(v, w1, w, n);
    }
  }

  // The answers of the later clauses are among those of all.
  lemma LaterClause(d: nat, db: Database, cs: seq<Clause>, k: seq<Frame>, env: Env, n: int, i: nat) returns (j: nat)
    requires Chains(env) && k != [] && k[0].goals != [] && cs != []
    requires SolveClauses(d, db, cs, k, env, n).Found? && SolveClauses(d, db, cs[1..], k, env, n).Found?
    requires i < |SolveClauses(d, db, cs[1..], k, env, n).envs|
    ensures j < |SolveClauses(d, db, cs, k, env, n).envs|
    ensures SolveClauses(d, db, cs, k, env, n).envs[j] == SolveClauses(d, db, cs[1..], k, env, n).envs[i]
  {
    var r := Unify(d, env, k[0].level, k[0].goals[0].args, n, cs[0].head);
    j := if r.Yes? then |Solve(d - 1, db, Resolved(k, cs[0], n), r.env, n + 1).envs| + i else i;
  }

  lemma AgreeTwice(v: Valuation, w1: Valuation, w: Valuation, n: int)
    requires AgreeBelow(v, w1, n + 1) && AgreeBelow(w1, w, n)
    ensures AgreeBelow(v, w, n)
  {
  }

  // The clause unifies, and the goals it leads to hold with its variables at the new level.
  lemma ClauseMatches(d: nat, db: Database, c: Clause, k: seq<Frame>, env: Env, n: int, w: Valuation, u: Valuation,
                      w1: Valuation)
    requires Ready(db, k, env, n) && Satisfies(w, env) && AllHold(db, w, k) && k != [] && k[0].goals != []
    requires NoAt(c.head) && Value(u, 0, c.head) == Value(w, k[0].level, k[0].goals[0].args)
    requires forall j :: 0 <= j < |c.body| ==> GoalHolds(db, u, 0, c.body[j])
    requires w1 == Extend(w, n, u)
    requires !Unify(d, env, k[0].level, k[0].goals[0].args, n, c.head).Stuck?
    ensures (var r := Unify(d, env, k[0].level, k[0].goals[0].args, n, c.head); r.Yes? && Satisfies(w1, r.env))
    ensures AllHold(db, w1, Resolved(k, c, n)) && AgreeBelow(w1, w, n)
  {
    var g := k[0].goals[0];
    var l := k[0].level;
    assert NoAt(g.args) by {
      assert GoalsNoAt(k[0].goals);
    }
    SatisfiesAgrees(w1, w, env, n);
    ValueAgrees(w1, w, l, l, g.args);
    ValueAgrees(w1, u, n, 0, c.head);
    var more := d + Size(Value(w1, l, g.args));
    UnifyComplete(more, env, l, g.args, n, c.head, w1);
    UnifyDeeper(d, more, env, l, g.args, n, c.head);
    ResolvedHold(db, c, k, n, w, u, w1);
  }

  lemma ResolvedHold(db: Database, c: Clause, k: seq<Frame>, n: int, w: Valuation, u: Valuation, w1: Valuation)
    requires k != [] && k[0].goals != [] && AllHold(db, w, k) && FramesBelow(k, n)
    requires forall j :: 0 <= j < |c.body| ==> GoalHolds(db, u, 0, c.body[j])
    requires w1 == Extend(w, n, u)
    ensures AllHold(db, w1, Resolved(k, c, n))
  {
    var k1 := Resolved(k, c, n);
    forall a, b | 0 <= a < |k1| && 0 <= b < |k1[a].goals| ensures GoalHolds(db, w1, k1[a].level, k1[a].goals[b]) {
      if a == 0 {
        assert GoalHolds(db, u, 0, c.body[b]);
        ValueAgrees(w1, u, n, 0, c.body[b].args);
      } else {
        var a', b' := a - 1, if a == 1 then b + 1 else b;
        assert GoalHolds(db, w, k[a'].level, k[a'].goals[b']);
        ValueAgrees(w1, w, k[a'].level, k[a'].level, k[a'].goals[b'].args);
      }
    }
  }
}
