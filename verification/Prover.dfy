/** The prover: a machine that runs the depth-first search with an explicit stack of choices. */
module Prover {
  import opened Unification
  import opened Resolution

  // One alternative: the next level n, the levels of the open goal lists, the clauses still to be
  // tried for the first goal, the goals of the innermost level, those of the outer ones, and the
  // environment.
  datatype Choice = Choice(n: int, nl: seq<int>, alt: seq<Clause>, tp1: seq<Goal>, tp2: seq<seq<Goal>>, env: Env)

  // The registers and the stack of alternatives to come back to.
  datatype Machine = Machine(cur: Choice, q: seq<Choice>)

  // Exhausted: every alternative has failed.  Lost: a unification ran out of depth.
  datatype Status = Running(m: Machine) | Answer(m: Machine) | Exhausted | Lost

  ghost predicate Shape(c: Choice) {
    |c.nl| == |c.tp2| + 1 && (c.alt != [] ==> c.tp1 != []) && Chains(c.env)
  }

  ghost predicate MachineShape(m: Machine) {
    Shape(m.cur) && forall i :: 0 <= i < |m.q| ==> Shape(m.q[i])
  }

  // Go back to the newest alternative.
  function Backtrack(q: seq<Choice>): Status {
    if q == [] then Exhausted else Running(Machine(q[0], q[1..]))
  }

  // One round of the prover's loop.
  function Step(depth: nat, db: Database, m: Machine): (r: Status)
    requires MachineShape(m)
    ensures r.Running? || r.Answer? ==> MachineShape(r.m)
  {
    var Choice(n, nl, alt, tp1, tp2, env) := m.cur;
    if tp1 == [] && tp2 == [] then Answer(m)
    else if alt != [] then
      match Unify(depth, env, nl[0], tp1[0].args, n, alt[0].head)
      case Stuck => Lost
      case No => if alt[1..] == [] then Backtrack(m.q) else Running(m.(cur := m.cur.(alt := alt[1..])))
      case Yes(e) =>
        Running(Machine(Choice(n + 1, [n] + nl, [], alt[0].body, [tp1[1..]] + tp2, e),
                        if alt[1..] != [] then [m.cur.(alt := alt[1..])] + m.q else m.q))
    else if tp1 == [] then
      Running(m.(cur := Choice(n, nl[1..], [], tp2[0], tp2[1..], env)))
    else if Clauses(db, tp1[0].pred) == [] then Backtrack(m.q)
    else Running(m.(cur := m.cur.(alt := Clauses(db, tp1[0].pred))))
  }

  // The prover run for at most the given number of rounds.
  function Run(steps: nat, depth: nat, db: Database, m: Machine): (r: Status)
    requires MachineShape(m)
    ensures r.Running? || r.Answer? ==> MachineShape(r.m)
  {
    if steps == 0 then (if m.cur.tp1 == [] && m.cur.tp2 == [] then Answer(m) else Running(m))
    else
      match Step(depth, db, m)
      case Running(m1) => Run(steps - 1, depth, db, m1)
      case other => other
  }

  // ---------- agreement with the recursive search ----------

  // The open goals of a choice, innermost level first.
  ghost function Frames(c: Choice): seq<Frame>
    requires |c.nl| == |c.tp2| + 1
  {
    [Frame(c.nl[0], c.tp1)] + seq(|c.tp2|, i requires 0 <= i < |c.tp2| => Frame(c.nl[i + 1], c.tp2[i]))
  }

  // The answers a choice leads to, and those of a stack of choices, each searched to its own depth.
  ghost function ChoiceAnswers(d: nat, db: Database, c: Choice): Answers
    requires Shape(c)
  {
    if c.alt != [] then SolveClauses(d, db, c.alt, Frames(c), c.env, c.n)
    else Solve(d, db, Frames(c), c.env, c.n)
  }

  ghost function StackAnswers(ds: seq<nat>, db: Database, q: seq<Choice>): Answers
    requires |ds| == |q| && forall i :: 0 <= i < |q| ==> Shape(q[i])
  {
    if q == [] then Found([], 0) else Then(ChoiceAnswers(ds[0], db, q[0]), StackAnswers(ds[1..], db, q[1..]))
  }

  ghost function AllAnswers(ds: seq<nat>, db: Database, m: Machine): Answers
    requires MachineShape(m) && |ds| == |m.q| + 1
  {
    StackAnswers(ds, db, [m.cur] + m.q)
  }

  // What a round makes of the answers still to come: the same answers, one step fewer.
  ghost predicate Progress(db: Database, a: Answers, ds: seq<nat>, r: Status) {
    match r
    case Running(m) =>
      && MachineShape(m) && |ds| == |m.q| + 1
      && a.Found? && a.steps > 0 && AllAnswers(ds, db, m) == Found(a.envs, a.steps - 1)
    case Answer(m) => true
    case Exhausted => a.Found? && a.envs == []
    case Lost => false
  }

  lemma Split(ds: seq<nat>, db: Database, m: Machine)
    requires MachineShape(m) && |ds| == |m.q| + 1
    ensures AllAnswers(ds, db, m) == Then(ChoiceAnswers(ds[0], db, m.cur), StackAnswers(ds[1..], db, m.q))
  {
    assert ([m.cur] + m.q)[1..] == m.q;
  }

  lemma Backtracks(db: Database, ds: seq<nat>, m: Machine)
    requires MachineShape(m) && |ds| == |m.q| + 1 && AllAnswers(ds, db, m).Found?
    requires ChoiceAnswers(ds[0], db, m.cur) == Found([], 1)
    ensures Progress(db, AllAnswers(ds, db, m), ds[1..], Backtrack(m.q))
  {
    Split(ds, db, m);
    if m.q != [] {
      Split(ds[1..], db, Machine(m.q[0], m.q[1..]));
      assert m.q == [m.q[0]] + m.q[1..];
      hide ChoiceAnswers, Shape;
      var rest := StackAnswers(ds[1..], db, m.q);
      assert [] + rest.envs == rest.envs;
    }
  }

  // The frames after a clause has been applied, after a level is left.
  lemma FramesResolved(c: Choice, cl: Clause, e: Env)
    requires |c.nl| == |c.tp2| + 1 && c.tp1 != []
    ensures Frames(Choice(c.n + 1, [c.n] + c.nl, [], cl.body, [c.tp1[1..]] + c.tp2, e)) == Resolved(Frames(c), cl, c.n)
  {
  }

  lemma FramesLeft(c: Choice)
    requires |c.nl| == |c.tp2| + 1 && c.tp2 != []
    ensures Frames(Choice(c.n, c.nl[1..], [], c.tp2[0], c.tp2[1..], c.env)) == Frames(c)[1..]
  {
  }

  // What trying the next clause makes of a choice's answers.
  lemma TryOne(depth: nat, d: nat, db: Database, c: Choice)
    requires Shape(c) && c.alt != [] && ChoiceAnswers(d, db, c).Found? && d <= depth
    ensures d > 0
    ensures (var rest := c.(alt := c.alt[1..]);
             var a := if c.alt[1..] == [] then Found([], 0) else ChoiceAnswers(d, db, rest);
             match Unify(depth, c.env, c.nl[0], c.tp1[0].args, c.n, c.alt[0].head)
             case Stuck => false
             case No => ChoiceAnswers(d, db, c) == Later(a)
             case Yes(e) =>
               ChoiceAnswers(d, db, c)
               == Later(Then(ChoiceAnswers(d - 1, db,
                                           Choice(c.n + 1, [c.n] + c.nl, [], c.alt[0].body, [c.tp1[1..]] + c.tp2, e)),
                                             a)))
  {
    var k := Frames(c);
    assert k[0] == Frame(c.nl[0], c.tp1);
    assert Frames(c.(alt := c.alt[1..])) == k;
    var r := Unify(d, c.env, c.nl[0], c.tp1[0].args, c.n, c.alt[0].head);
    UnifyDeeper(d, depth, c.env, c.nl[0], c.tp1[0].args, c.n, c.alt[0].head);
    if r.Yes? {
      FramesResolved(c, c.alt[0], r.env);
    }
    hide Unify, Chains, Solve, Frames;
    assert c.alt[1..] == [] ==> SolveClauses(d, db, c.alt[1..], k, c.env, c.n) == Found([], 0);
  }

  lemma ThenParts(a: Answers, b: Answers, rest: Answers)
    ensures Then(Later(Then(a, b)), rest) == Later(Then(a, Then(b, rest)))
    ensures Then(Later(a), rest) == Later(Then(a, rest))
    ensures Then(Found([], 0), rest) == rest && Then(rest, Found([], 0)) == rest
  {
  }

  // A round that tries a clause: its head does not match, or it does.
  lemma ClauseFails(depth: nat, db: Database, ds: seq<nat>, m: Machine) returns (ds1: seq<nat>)
    requires MachineShape(m) && |ds| == |m.q| + 1 && AllAnswers(ds, db, m).Found?
    requires m.cur.alt != [] && ds[0] <= depth && Step(depth, db, m) != Lost
    requires Unify(depth, m.cur.env, m.cur.nl[0], m.cur.tp1[0].args, m.cur.n, m.cur.alt[0].head).No?
    ensures ds1 == ds || ds1 == ds[1..]
    ensures Progress(db, AllAnswers(ds, db, m), ds1, Step(depth, db, m))
  {
    hide ChoiceAnswers, StackAnswers, AllAnswers, Unify, Frames, Chains;
    var alt := m.cur.alt;
    Split(ds, db, m);
    TryOne(depth, ds[0], db, m.cur);
    if alt[1..] == [] {
      Backtracks(db, ds, m);
      ds1 := ds[1..];
    } else {
      ds1 := ds;
      NextClause(db, ds, m, m.cur.(alt := alt[1..]));
    }
  }

  // Going on with the next clause.
  lemma NextClause(db: Database, ds: seq<nat>, m: Machine, c2: Choice)
    requires MachineShape(m) && |ds| == |m.q| + 1 && AllAnswers(ds, db, m).Found? && Shape(c2)
    requires ChoiceAnswers(ds[0], db, m.cur) == Later(ChoiceAnswers(ds[0], db, c2))
    ensures Progress(db, AllAnswers(ds, db, m), ds, Running(m.(cur := c2)))
  {
    hide ChoiceAnswers, StackAnswers, AllAnswers, Frames, Chains;
    Split(ds, db, m);
    Split(ds, db, m.(cur := c2));
    ThenParts(ChoiceAnswers(ds[0], db, c2), Found([], 0), StackAnswers(ds[1..], db, m.q));
  }

  lemma ClauseMatches(depth: nat, db: Database, ds: seq<nat>, m: Machine) returns (ds1: seq<nat>)
    requires MachineShape(m) && |ds| == |m.q| + 1 && AllAnswers(ds, db, m).Found?
    requires m.cur.alt != [] && ds[0] <= depth
    requires Unify(depth, m.cur.env, m.cur.nl[0], m.cur.tp1[0].args, m.cur.n, m.cur.alt[0].head).Yes?
    ensures ds[0] > 0 && (ds1 == [ds[0] - 1] + ds || ds1 == [ds[0] - 1] + ds[1..])
    ensures Progress(db, AllAnswers(ds, db, m), ds1, Step(depth, db, m))
  {
    var Choice(n, nl, alt, tp1, tp2, env) := m.cur;
    Split(ds, db, m);
    TryOne(depth, ds[0], db, m.cur);
    var c1 := Choice(n + 1, [n] + nl, [], alt[0].body, [tp1[1..]] + tp2,
                     Unify(depth, env, nl[0], tp1[0].args, n, alt[0].head).env);
    hide ChoiceAnswers, StackAnswers, AllAnswers, Unify;
    if alt[1..] == [] {
      ds1 := [ds[0] - 1] + ds[1..];
      PushNone(db, ds, ds1, m, c1);
    } else {
      ds1 := [ds[0] - 1] + ds;
      PushOne(db, ds, ds1, m, c1, m.cur.(alt := alt[1..]));
    }
  }

  lemma PushNone(db: Database, ds: seq<nat>, ds1: seq<nat>, m: Machine, c1: Choice)
    requires MachineShape(m) && |ds| == |m.q| + 1 && AllAnswers(ds, db, m).Found? && Shape(c1)
    requires ds[0] > 0 && ds1 == [ds[0] - 1] + ds[1..]
    requires ChoiceAnswers(ds[0], db, m.cur) == Later(Then(ChoiceAnswers(ds[0] - 1, db, c1), Found([], 0)))
    ensures Progress(db, AllAnswers(ds, db, m), ds1, Running(Machine(c1, m.q)))
  {
    hide ChoiceAnswers, StackAnswers, AllAnswers, Frames, Chains;
    Split(ds, db, m);
    Split(ds1, db, Machine(c1, m.q));
    ThenParts(ChoiceAnswers(ds[0] - 1, db, c1), Found([], 0), StackAnswers(ds[1..], db, m.q));
  }

  lemma PushOne(db: Database, ds: seq<nat>, ds1: seq<nat>, m: Machine, c1: Choice, c2: Choice)
    requires MachineShape(m) && |ds| == |m.q| + 1 && AllAnswers(ds, db, m).Found? && Shape(c1) && Shape(c2)
    requires ds[0] > 0 && ds1 == [ds[0] - 1] + ds
    requires ChoiceAnswers(ds[0], db,
                           m.cur) == Later(Then(ChoiceAnswers(ds[0] - 1, db, c1), ChoiceAnswers(ds[0], db, c2)))
    ensures Progress(db, AllAnswers(ds, db, m), ds1, Running(Machine(c1, [c2] + m.q)))
  {
    hide ChoiceAnswers, StackAnswers, AllAnswers, Frames, Chains;
    Split(ds, db, m);
    Split(ds1, db, Machine(c1, [c2] + m.q));
    Split(ds, db, Machine(c2, m.q));
    StackIs(ds, db, Machine(c2, m.q));
    ThenParts(ChoiceAnswers(ds[0] - 1, db, c1), ChoiceAnswers(ds[0], db, c2), StackAnswers(ds[1..], db, m.q));
  }

  // A round that opens a goal or leaves a level.
  lemma MoveOn(depth: nat, db: Database, ds: seq<nat>, m: Machine) returns (ds1: seq<nat>)
    requires MachineShape(m) && |ds| == |m.q| + 1 && AllAnswers(ds, db, m).Found?
    requires m.cur.alt == [] && !(m.cur.tp1 == [] && m.cur.tp2 == [])
    ensures ds1 == ds || ds1 == ds[1..]
    ensures Progress(db, AllAnswers(ds, db, m), ds1, Step(depth, db, m))
  {
    var c := m.cur;
    Split(ds, db, m);
    assert Frames(c)[0] == Frame(c.nl[0], c.tp1);
    ds1 := ds;
    if c.tp1 == [] {
      FramesLeft(c);
      Split(ds, db, m.(cur := Choice(c.n, c.nl[1..], [], c.tp2[0], c.tp2[1..], c.env)));
    } else if Clauses(db, c.tp1[0].pred) == [] {
      assert SolveClauses(ds[0], db, [], Frames(c), c.env, c.n) == Found([], 0);
      Backtracks(db, ds, m);
      ds1 := ds[1..];
    } else {
      var c1 := c.(alt := Clauses(db, c.tp1[0].pred));
      assert Frames(c1) == Frames(c);
      Split(ds, db, m.(cur := c1));
    }
  }

  lemma OneRound(depth: nat, db: Database, ds: seq<nat>, m: Machine) returns (ds1: seq<nat>)
    requires MachineShape(m) && |ds| == |m.q| + 1 && AllAnswers(ds, db, m).Found?
    requires forall i :: 0 <= i < |ds| ==> ds[i] <= depth
    requires !(m.cur.tp1 == [] && m.cur.tp2 == [])
    ensures forall i :: 0 <= i < |ds1| ==> ds1[i] <= depth
    ensures Progress(db, AllAnswers(ds, db, m), ds1, Step(depth, db, m))
  {
    hide AllAnswers, Progress;
    if m.cur.alt == [] {
      ds1 := MoveOn(depth, db, ds, m);
    } else {
      NeverLost(depth, db, ds, m);
      if Unify(depth, m.cur.env, m.cur.nl[0], m.cur.tp1[0].args, m.cur.n, m.cur.alt[0].head).No? {
        ds1 := ClauseFails(depth, db, ds, m);
      } else {
        ds1 := ClauseMatches(depth, db, ds, m);
      }
    }
  }

  lemma NeverLost(depth: nat, db: Database, ds: seq<nat>, m: Machine)
    requires MachineShape(m) && |ds| == |m.q| + 1 && AllAnswers(ds, db, m).Found? && m.cur.alt != [] && ds[0] <= depth
    ensures !Unify(depth, m.cur.env, m.cur.nl[0], m.cur.tp1[0].args, m.cur.n, m.cur.alt[0].head).Stuck?
  {
    Split(ds, db, m);
    TryOne(depth, ds[0], db, m.cur);
  }

  lemma StackIs(ds: seq<nat>, db: Database, m: Machine)
    requires MachineShape(m) && |ds| == |m.q| + 1
    ensures AllAnswers(ds, db, m) == StackAnswers(ds, db, [m.cur] + m.q)
  {
  }

  // The prover finds the answers of the recursive search, in its order: if there is none it ends
  // with every alternative exhausted; otherwise it stops at the first one, and what it leaves on
  // the stack leads to all the others.
  lemma {:induction false} RunAgrees(depth: nat, db: Database, ds: seq<nat>, m: Machine,
                                     steps: nat) returns (ds1: seq<nat>)
    requires MachineShape(m) && |ds| == |m.q| + 1 && AllAnswers(ds, db, m).Found?
    requires forall i :: 0 <= i < |ds| ==> ds[i] <= depth
    requires steps >= AllAnswers(ds, db, m).steps
    ensures (var a := AllAnswers(ds, db, m).envs;
             match Run(steps, depth, db, m)
             case Answer(m1) =>
               && |ds1| == |m1.q| && a != [] && m1.cur.env == a[0]
               && (forall i :: 0 <= i < |ds1| ==> ds1[i] <= depth)
               && StackAnswers(ds1, db, m1.q).Found? && StackAnswers(ds1, db, m1.q).envs == a[1..]
             case Exhausted => a == []
             case _ => false)
    decreases steps
  {
    if m.cur.tp1 == [] && m.cur.tp2 == [] {
      Split(ds, db, m);
      assert Frames(m.cur) == [Frame(m.cur.nl[0], [])];
      ds1 := ds[1..];
    } else {
      ds1 := OneRound(depth, db, ds, m);
      hide AllAnswers, StackAnswers;
      match Step(depth, db, m) {
        case Running(m1) => ds1 := RunAgrees(depth, db, ds1, m1, steps - 1);
        case _ =>
      }
    }
  }

  // ---------- soundness of every run ----------

  // The clauses still to be tried are the last ones for the first goal.
  ghost predicate AltsFrom(db: Database, c: Choice) {
    c.alt != [] ==> c.tp1 != [] && exists i: nat :: i <= |Clauses(db, c.tp1[0].pred)|
                                                    && c.alt == Clauses(db, c.tp1[0].pred)[i..]
  }

  // Wherever the open goals of c hold under c's bindings, so do the goals k0; and the levels in use
  // are all below the next one to be handed out.
  ghost predicate Leads(db: Database, k0: seq<Frame>, c: Choice) {
    && Shape(c) && AltsFrom(db, c) && Ready(db, Frames(c), c.env, c.n)
    && forall w: Valuation :: Satisfies(w, c.env) && AllHold(db, w, Frames(c)) ==> AllHold(db, w, k0)
  }

  ghost predicate AllLead(db: Database, k0: seq<Frame>, m: Machine) {
    Leads(db, k0, m.cur) && forall i :: 0 <= i < |m.q| ==> Leads(db, k0, m.q[i])
  }

  lemma SkipClause(db: Database, k0: seq<Frame>, c: Choice)
    requires Leads(db, k0, c) && c.alt != []
    ensures Leads(db, k0, c.(alt := c.alt[1..]))
  {
    var c2 := c.(alt := c.alt[1..]);
    assert Frames(c2) == Frames(c);
    var i: nat :| i <= |Clauses(db, c.tp1[0].pred)| && c.alt == Clauses(db, c.tp1[0].pred)[i..];
    assert c.alt[1..] == Clauses(db, c.tp1[0].pred)[i + 1..];
  }

  lemma UseClause(depth: nat, db: Database, k0: seq<Frame>, c: Choice)
    requires Leads(db, k0, c) && c.alt != []
    requires Unify(depth, c.env, c.nl[0], c.tp1[0].args, c.n, c.alt[0].head).Yes?
    ensures (var e := Unify(depth, c.env, c.nl[0], c.tp1[0].args, c.n, c.alt[0].head).env;
             Leads(db, k0, Choice(c.n + 1, [c.n] + c.nl, [], c.alt[0].body, [c.tp1[1..]] + c.tp2, e)))
  {
    var r := Unify(depth, c.env, c.nl[0], c.tp1[0].args, c.n, c.alt[0].head);
    var c1 := Choice(c.n + 1, [c.n] + c.nl, [], c.alt[0].body, [c.tp1[1..]] + c.tp2, r.env);
    var k := Frames(c);
    assert k[0] == Frame(c.nl[0], c.tp1);
    FramesResolved(c, c.alt[0], r.env);
    var i := ClauseIndex(db, c);
    ClauseNoAt(db, c.tp1[0].pred, i);
    hide Unify, AltsFrom, DatabaseNoAt, GoalsNoAt, NoAt, Chains, EnvNoAt, AllHold, Satisfies, Frames, Clauses,
         FramesNoAt;
    ReadyResolved(depth, db, k, c.alt[0], c.env, c.n);
    forall w: Valuation | Satisfies(w, r.env) && AllHold(db, w, Frames(c1)) ensures AllHold(db, w, k0) {
      ResolveSound(depth, db, k, i, c.env, c.n, w);
    }
    assert AltsFrom(db, c1) by {
      NoAlts(db, c1);
    }
  }

  lemma NoAlts(db: Database, c: Choice)
    requires c.alt == []
    ensures AltsFrom(db, c)
  {
  }

  lemma ClauseIndex(db: Database, c: Choice) returns (i: nat)
    requires AltsFrom(db, c) && c.alt != []
    ensures c.tp1 != [] && i < |Clauses(db, c.tp1[0].pred)| && Clauses(db, c.tp1[0].pred)[i] == c.alt[0]
  {
    var j: nat :| j <= |Clauses(db, c.tp1[0].pred)| && c.alt == Clauses(db, c.tp1[0].pred)[j..];
    i := j;
  }

  lemma ClauseNoAt(db: Database, pred: string, i: nat)
    requires DatabaseNoAt(db) && i < |Clauses(db, pred)|
    ensures NoAt(Clauses(db, pred)[i].head) && GoalsNoAt(Clauses(db, pred)[i].body)
  {
    assert ClausesNoAt(db[pred]);
  }

  lemma LeaveLevel(db: Database, k0: seq<Frame>, c: Choice)
    requires Leads(db, k0, c) && c.tp1 == [] && c.tp2 != []
    ensures Leads(db, k0, Choice(c.n, c.nl[1..], [], c.tp2[0], c.tp2[1..], c.env))
  {
    var c1 := Choice(c.n, c.nl[1..], [], c.tp2[0], c.tp2[1..], c.env);
    FramesLeft(c);
    var k := Frames(c);
    assert k[0].goals == [];
    forall w: Valuation | Satisfies(w, c.env) && AllHold(db, w, Frames(c1)) ensures AllHold(db, w, k0) {
      forall a, b | 0 <= a < |k| && 0 <= b < |k[a].goals| ensures GoalHolds(db, w, k[a].level, k[a].goals[b]) {
        assert k[a] == Frames(c1)[a - 1];
        assert GoalHolds(db, w, Frames(c1)[a - 1].level, Frames(c1)[a - 1].goals[b]);
      }
    }
  }

  lemma OpenGoal(db: Database, k0: seq<Frame>, c: Choice)
    requires Leads(db, k0, c) && c.alt == [] && c.tp1 != []
    ensures Leads(db, k0, c.(alt := Clauses(db, c.tp1[0].pred)))
  {
    var c1 := c.(alt := Clauses(db, c.tp1[0].pred));
    assert Frames(c1) == Frames(c);
    assert c1.alt == Clauses(db, c.tp1[0].pred)[0..];
  }

  lemma StepLeads(depth: nat, db: Database, k0: seq<Frame>, m: Machine)
    requires MachineShape(m) && AllLead(db, k0, m)
    ensures (var r := Step(depth, db, m); r.Running? ==> AllLead(db, k0, r.m))
  {
    var c := m.cur;
    if c.tp1 == [] && c.tp2 == [] {
    } else if c.alt != [] {
      SkipClause(db, k0, c);
      if Unify(depth, c.env, c.nl[0], c.tp1[0].args, c.n, c.alt[0].head).Yes? {
        UseClause(depth, db, k0, c);
      }
    } else if c.tp1 == [] {
      LeaveLevel(db, k0, c);
    } else {
      OpenGoal(db, k0, c);
    }
    hide Leads, Unify, Shape;
  }

  // Any answer any run stops with makes the goals derivable, under every valuation that satisfies
  // the answer's environment.
  lemma {:induction false} RunSound(steps: nat, depth: nat, db: Database, k0: seq<Frame>, m: Machine, w: Valuation)
    requires MachineShape(m) && AllLead(db, k0, m)
    requires (var r := Run(steps, depth, db, m); r.Answer? && Satisfies(w, r.m.cur.env))
    ensures AllHold(db, w, k0)
    ensures AllLead(db, k0, Run(steps, depth, db, m).m)
    decreases steps
  {
    if m.cur.tp1 == [] && m.cur.tp2 == [] {
      assert Frames(m.cur) == [Frame(m.cur.nl[0], [])];
      assert AllHold(db, w, Frames(m.cur));
    } else {
      StepLeads(depth, db, k0, m);
      hide AllLead, MachineShape, Step;
      RunSound(steps - 1, depth, db, k0, Step(depth, db, m).m, w);
    }
  }

  // ---------- from a query ----------

  // Where the prover starts on a list of goals: level 0 for the query, 1 the next level.
  function Start(goals: seq<Goal>): (m: Machine)
    ensures MachineShape(m)
  {
    Machine(Choice(1, [0], [], goals, [], []), [])
  }

  lemma StartLeads(db: Database, goals: seq<Goal>)
    requires DatabaseNoAt(db) && GoalsNoAt(goals)
    ensures AllLead(db, [Frame(0, goals)], Start(goals))
  {
    assert Frames(Start(goals).cur) == [Frame(0, goals)];
  }

  // Soundness: an answer to a query makes every goal of the query derivable.
  lemma AnswerSound(steps: nat, depth: nat, db: Database, goals: seq<Goal>, w: Valuation, j: nat)
    requires DatabaseNoAt(db) && GoalsNoAt(goals) && j < |goals|
    requires (var r := Run(steps, depth, db, Start(goals)); r.Answer? && Satisfies(w, r.m.cur.env))
    ensures Derivable(db, goals[j].pred, Value(w, 0, goals[j].args))
  {
    StartLeads(db, goals);
    RunSound(steps, depth, db, [Frame(0, goals)], Start(goals), w);
    assert GoalHolds(db, w, [Frame(0, goals)][0].level, [Frame(0, goals)][0].goals[j]);
  }

  lemma QueryAnswers(d: nat, db: Database, goals: seq<Goal>)
    ensures AllAnswers([d], db, Start(goals)) == Solve(d, db, [Frame(0, goals)], [], 1)
  {
    assert Frames(Start(goals).cur) == [Frame(0, goals)];
    Split([d], db, Start(goals));
    var a := Solve(d, db, [Frame(0, goals)], [], 1);
    hide Solve;
    assert ChoiceAnswers(d, db, Start(goals).cur) == a;
    ThenParts(a, a, a);
  }

  // Completeness: when the search is finite and the prover reports no answer, no instance of the
  // query is derivable.
  lemma NoAnswerComplete(d: nat, steps: nat, db: Database, goals: seq<Goal>, w: Valuation)
    requires DatabaseNoAt(db) && GoalsNoAt(goals)
    requires Solve(d, db, [Frame(0, goals)], [], 1).Found? && steps >= Solve(d, db, [Frame(0, goals)], [], 1).steps
    requires Run(steps, d, db, Start(goals)) == Exhausted
    ensures !(forall j :: 0 <= j < |goals| ==> Derivable(db, goals[j].pred, Value(w, 0, goals[j].args)))
  {
    QueryAnswers(d, db, goals);
    hide AllAnswers, Solve, Run, MachineShape;
    var ds := RunAgrees(d, db, [d], Start(goals), steps);
    if forall j :: 0 <= j < |goals| ==> Derivable(db, goals[j].pred, Value(w, 0, goals[j].args)) {
      var k0 := [Frame(0, goals)];
      QueryReady(db, goals, w);
      var i, v := SolveComplete(d, db, k0, [], 1, w);
    }
  }

  lemma QueryReady(db: Database, goals: seq<Goal>, w: Valuation)
    requires DatabaseNoAt(db) && GoalsNoAt(goals)
    requires forall j :: 0 <= j < |goals| ==> Derivable(db, goals[j].pred, Value(w, 0, goals[j].args))
    ensures Ready(db, [Frame(0, goals)], [], 1) && Satisfies(w, []) && AllHold(db, w, [Frame(0, goals)])
  {
    hide Derivable;
  }
}
