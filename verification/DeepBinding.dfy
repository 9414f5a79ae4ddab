/** What PicoLisp programs mean if variables are looked up in a stack of association lists. */
module DeepBinding {

  type Sym = nat
  // The symbols @ and T.
  const AT: Sym := 0
  const TRUE: Sym := 1

  datatype Expr = Quote(v: Val) | Var(s: Sym) | Setq(s: Sym, x: Expr) | If(c: Expr, a: Expr, b: seq<Expr>)
                | Call(f: Expr, args: seq<Expr>) | Let(binds: seq<Init>, body: seq<Expr>)
                | Use(syms: seq<Sym>, body: seq<Expr>)
                | Eval(x: Expr, cnt: Expr) | Catch(tag: Expr, body: seq<Expr>) | Throw(tag: Expr, x: Expr)
  datatype Init = Init(s: Sym, x: Expr)
  // A function binds each formal to an argument and may bind one more symbol to the rest of the
  // argument expressions. Code is an expression as data, a symbol among them.
  datatype Val = Nil | Num(n: int) | Fun(formals: seq<Sym>, rest: Rest,
                                         body: seq<Expr>) | Code(e: Expr) | Args(es: seq<Expr>)
  datatype Rest = NoRest | RestIn(s: Sym)

  // The values of the symbols; a symbol that is not in the map has the value NIL.
  type Vals = m: map<Sym, Val> | forall s :: s in m ==> m[s] != Nil witness map[]

  function Get(vals: Vals, s: Sym): Val {
    if s in vals then vals[s] else Nil
  }

  function Put(vals: Vals, s: Sym, v: Val): Vals {
    if v == Nil then vals - {s} else vals[s := v]
  }

  datatype Entry = Entry(sym: Sym, val: Val)
  type Bnd = seq<Entry>

  // The association lists, newest first, and the values outside of them all.
  datatype Deep = Deep(frames: seq<Bnd>, globals: Vals)

  function IndexOf(bnd: Bnd, s: Sym): (j: nat)
    ensures j <= |bnd| && (j < |bnd| ==> bnd[j].sym == s) && forall k :: 0 <= k < j ==> bnd[k].sym != s
  {
    if bnd == [] || bnd[0].sym == s then 0 else 1 + IndexOf(bnd[1..], s)
  }

  predicate Has(bnd: Bnd, s: Sym) {
    IndexOf(bnd, s) < |bnd|
  }

  function LookupIn(frames: seq<Bnd>, globals: Vals, s: Sym): Val {
    if frames == [] then Get(globals, s)
    else if Has(frames[0], s) then frames[0][IndexOf(frames[0], s)].val
    else LookupIn(frames[1..], globals, s)
  }

  function Lookup(d: Deep, s: Sym): Val {
    LookupIn(d.frames, d.globals, s)
  }

  // Assigning a variable where it is bound first.
  function Assign(d: Deep, s: Sym, v: Val): Deep
    decreases |d.frames|
  {
    if d.frames == [] then Deep([], Put(d.globals, s, v))
    else if Has(d.frames[0], s) then
      var j := IndexOf(d.frames[0], s);
      d.(frames := d.frames[0 := d.frames[0][j := Entry(s, v)]])
    else
      var r := Assign(Deep(d.frames[1..], d.globals), s, v);
      Deep([d.frames[0]] + r.frames, r.globals)
  }

  function Pop(d: Deep): Deep {
    if d.frames == [] then d else d.(frames := d.frames[1..])
  }

  // The frame of a call binds @ first.
  predicate IsCall(bnd: Bnd) {
    bnd != [] && bnd[0].sym == AT
  }

  // How many frames the n newest calls take up, with the frames made within them.
  function Extent(frames: seq<Bnd>, n: nat): (m: nat)
    ensures m <= |frames|
  {
    if frames == [] then 0
    else if IsCall(frames[0]) then (if n <= 1 then 1 else 1 + Extent(frames[1..], n - 1))
    else 1 + Extent(frames[1..], n)
  }

  // A catch in progress, with the number of frames there were when it began.
  datatype Mark = Mark(tag: Val, height: nat)

  predicate IsTag(v: Val) {
    v.Nil? || v.Num? || (v.Code? && v.e.Var?)
  }

  predicate Catches(m: Mark, tag: Val) {
    m.tag == Code(Var(TRUE)) || m.tag == tag
  }

  // The newest catch for a tag, or the number of catches if there is none.
  function CatchFor(cs: seq<Mark>, tag: Val): (j: nat)
    ensures j <= |cs| && (j < |cs| ==> Catches(cs[j], tag)) && forall k :: 0 <= k < j ==> !Catches(cs[k], tag)
  {
    if cs == [] || Catches(cs[0], tag) then 0 else 1 + CatchFor(cs[1..], tag)
  }

  function Truncate(d: Deep, height: nat): Deep {
    if |d.frames| <= height then d else d.(frames := d.frames[|d.frames| - height..])
  }

  // Done: a value; Thrown: on the way to the catch that has level others around it; NoClaim: an error,
  // a throw out of an (eval x n), or not enough depth.
  datatype Outcome = Done(v: Val, d: Deep) | Thrown(level: nat, v: Val, d: Deep) | NoClaim

  predicate DistinctSyms(syms: seq<Sym>) {
    forall i, j :: 0 <= i < j < |syms| ==> syms[i] != syms[j]
  }

  function InitSyms(binds: seq<Init>): (syms: seq<Sym>)
    ensures |syms| == |binds| && forall i :: 0 <= i < |binds| ==> syms[i] == binds[i].s
  {
    seq(|binds|, i requires 0 <= i < |binds| => binds[i].s)
  }

  // All symbols that a call of a function binds.
  function CallSyms(f: Val): seq<Sym>
    requires f.Fun?
  {
    [AT] + f.formals + (if f.rest.RestIn? then [f.rest.s] else [])
  }

  function Entries(syms: seq<Sym>, vals: seq<Val>): (bnd: Bnd)
    requires |syms| == |vals|
    ensures |bnd| == |syms| && forall i :: 0 <= i < |syms| ==> bnd[i] == Entry(syms[i], vals[i])
  {
    seq(|syms|, i requires 0 <= i < |syms| => Entry(syms[i], vals[i]))
  }

  // The arguments that are left over, unevaluated.
  function RestArgs(args: seq<Expr>, k: nat): Val {
    if |args| <= k then Nil else Args(args[k..])
  }

  // The bindings of a call: @, the formals, and the rest of the arguments.
  function CallFrame(f: Val, at: Val, vals: seq<Val>, args: seq<Expr>): Bnd
    requires f.Fun? && |vals| == |f.formals|
  {
    Entries(CallSyms(f), [at] + vals + (if f.rest.RestIn? then [RestArgs(args, |f.formals|)] else []))
  }

  // The values of a list of argument expressions.
  datatype Outcomes = Values(vals: seq<Val>, d: Deep) | Other(o: Outcome)

  function EvalD(n: nat, e: Expr, d: Deep, cs: seq<Mark>): Outcome
    decreases n, 0
  {
    if n == 0 then NoClaim
    else
      match e
      case Quote(v) => Done(v, d)
      case Var(s) => Done(Lookup(d, s), d)
      case Setq(s, x) =>
        if s == TRUE then NoClaim
        else
          var o := EvalD(n - 1, x, d, cs);
          if o.Done? then Done(o.v, Assign(o.d, s, o.v)) else o
      case If(c, a, b) =>
        var o := EvalD(n - 1, c, d, cs);
        if !o.Done? then o else BranchD(n - 1, o.v, a, b, o.d, cs)
      case Call(f, args) =>
        var o := EvalD(n - 1, f, d, cs);
        if !o.Done? then o
        else if !o.v.Fun? || !DistinctSyms(CallSyms(o.v)) then NoClaim
        else CallD(n - 1, o.v, args, o.d, cs)
      case Let(binds, body) =>
        if binds == [] || !DistinctSyms(InitSyms(binds)) then NoClaim else LetD(n - 1, binds, 0, body, d, cs)
      case Use(syms, body) =>
        if syms == [] || !DistinctSyms(syms) then NoClaim
        else
          var bnd := seq(|syms|, i requires 0 <= i < |syms| => Entry(syms[i], Lookup(d, syms[i])));
          LeaveD(BodyD(n - 1, body, Deep([bnd] + d.frames, d.globals), cs))
      case Eval(x, cnt) =>
        var o := EvalD(n - 1, x, d, cs);
        if !o.Done? then o
        else
          var c := EvalD(n - 1, cnt, o.d, cs);
          if !c.Done? then c
          else if !c.v.Num? then CodeD(n - 1, o.v, c.d, cs)
          else if c.v.n < 1 then NoClaim
          else
            var m := Extent(c.d.frames, c.v.n);
            var r := CodeD(n - 1, o.v, Deep(c.d.frames[m..], c.d.globals), []);
            if r.Done? then Done(r.v, Deep(c.d.frames[..m] + r.d.frames, r.d.globals)) else NoClaim
      case Catch(tag, body) =>
        var o := EvalD(n - 1, tag, d, cs);
        if !o.Done? then o
        else if !IsTag(o.v) then NoClaim
        else
          var r := BodyD(n - 1, body, o.d, [Mark(o.v, |o.d.frames|)] + cs);
          if r.Thrown? && r.level == |cs| then Done(r.v, r.d) else r
      case Throw(tag, x) =>
        var o := EvalD(n - 1, tag, d, cs);
        if !o.Done? then o
        else if !IsTag(o.v) then NoClaim
        else ThrowD(n - 1, o.v, x, o.d, cs)
  }

  // The branches of an if; a condition that is not NIL is kept in @.
  function BranchD(n: nat, v: Val, a: Expr, b: seq<Expr>, d: Deep, cs: seq<Mark>): Outcome
    decreases n, 2
  {
    if v == Nil then BodyD(n, b, d, cs) else EvalD(n, a, Assign(d, AT, v), cs)
  }

  // The value of x thrown to the newest catch for the tag.
  function ThrowD(n: nat, tag: Val, x: Expr, d: Deep, cs: seq<Mark>): Outcome
    decreases n, 1
  {
    var r := EvalD(n, x, d, cs);
    if !r.Done? then r
    else
      var j := CatchFor(cs, tag);
      if j == |cs| then NoClaim else Thrown(|cs| - 1 - j, r.v, Truncate(r.d, cs[j].height))
  }

  // Data evaluated as an expression.
  function CodeD(n: nat, v: Val, d: Deep, cs: seq<Mark>): Outcome
    decreases n, 1
  {
    match v
    case Code(e) => EvalD(n, e, d, cs)
    case Nil => Done(v, d)
    case Num(_) => Done(v, d)
    case _ => NoClaim
  }

  // A sequence of expressions; its value is that of the last one.
  function BodyD(n: nat, es: seq<Expr>, d: Deep, cs: seq<Mark>): Outcome
    decreases n, 1, |es|
  {
    if es == [] then Done(Nil, d)
    else
      var o := EvalD(n, es[0], d, cs);
      if !o.Done? || |es| == 1 then o else BodyD(n, es[1..], o.d, cs)
  }

  // The arguments for k formals, missing ones being NIL.
  function ArgsD(n: nat, args: seq<Expr>, k: nat, d: Deep, cs: seq<Mark>): (r: Outcomes)
    ensures r.Values? ==> |r.vals| == k
    ensures r.Other? ==> !r.o.Done?
    decreases n, 1, k
  {
    if k == 0 then Values([], d)
    else
      var o := if args == [] then Done(Nil, d) else EvalD(n, args[0], d, cs);
      if !o.Done? then Other(o)
      else
        match ArgsD(n, if args == [] then [] else args[1..], k - 1, o.d, cs)
        case Values(vals, d') => Values([o.v] + vals, d')
        case Other(o') => Other(o')
  }

  function CallD(n: nat, f: Val, args: seq<Expr>, d: Deep, cs: seq<Mark>): Outcome
    requires f.Fun?
    decreases n, 2
  {
    match ArgsD(n, args, |f.formals|, d, cs)
    case Other(o) => o
    case Values(vals, d') =>
      LeaveD(BodyD(n, f.body, Deep([CallFrame(f, Lookup(d, AT), vals, args)] + d'.frames, d'.globals), cs))
  }

  // At the end of a construct its bindings are dropped.
  function LeaveD(o: Outcome): Outcome {
    if o.Done? then Done(o.v, Pop(o.d)) else o
  }

  // The symbol s bound to its own value, in a new frame or in the newest one.
  function BindMore(d: Deep, s: Sym, first: bool): Deep {
    if first || d.frames == [] then Deep([[Entry(s, Lookup(d, s))]] + d.frames, d.globals)
    else Deep([d.frames[0] + [Entry(s, Lookup(d, s))]] + d.frames[1..], d.globals)
  }

  // let from the k-th binding on: the symbol is bound to its own value, then to that of the expression.
  function LetD(n: nat, binds: seq<Init>, k: nat, body: seq<Expr>, d: Deep, cs: seq<Mark>): Outcome
    decreases n, 2, |binds| - k
  {
    if k >= |binds| then LeaveD(BodyD(n, body, d, cs))
    else
      var o := EvalD(n, binds[k].x, BindMore(d, binds[k].s, k == 0), cs);
      if !o.Done? then o else LetD(n, binds, k + 1, body, Assign(o.d, binds[k].s, o.v), cs)
  }
}
