/** What calls, let and use bind, said of what symbols look up to where the body is evaluated. */
module BindingLaws {
  import opened DeepBinding

  // ---------- looking up ----------

  // A new list in front: its symbols have its values, all others have what they had.
  lemma LookupInFront(bnd: Bnd, d: Deep, s: Sym)
    ensures forall i :: 0 <= i < |bnd| && bnd[i].sym == s && (forall j :: 0 <= j < i ==> bnd[j].sym != s) ==>
              Lookup(Deep([bnd] + d.frames, d.globals), s) == bnd[i].val
    ensures (forall i :: 0 <= i < |bnd| ==> bnd[i].sym != s) ==>
              Lookup(Deep([bnd] + d.frames, d.globals), s) == Lookup(d, s)
  {
    assert ([bnd] + d.frames)[1..] == d.frames;
  }

  // Outside of all lists a symbol has its global value, NIL if there is none.
  lemma LookupGlobal(vals: Vals, s: Sym)
    ensures Lookup(Deep([], vals), s) == if s in vals then vals[s] else Nil
  {
  }

  // @ and T are different symbols.
  lemma TwoSymbols()
    ensures AT != TRUE
  {
  }

  // ---------- calls ----------

  // The values of k arguments in turn; missing arguments are NIL.
  ghost predicate InTurn(n: nat, args: seq<Expr>, k: nat, d: Deep, cs: seq<Mark>, vs: seq<Val>, after: Deep)
    decreases k
  {
    if k == 0 then vs == [] && after == d
    else if args == [] then vs != [] && vs[0] == Nil && InTurn(n, [], k - 1, d, cs, vs[1..], after)
    else
      var o := EvalD(n, args[0], d, cs);
      vs != [] && o.Done? && o.v == vs[0] && InTurn(n, args[1..], k - 1, o.d, cs, vs[1..], after)
  }

  lemma {:induction false} ArgsInTurn(n: nat, args: seq<Expr>, k: nat, d: Deep, cs: seq<Mark>, vs: seq<Val>,
                                      after: Deep)
    requires InTurn(n, args, k, d, cs, vs, after)
    ensures ArgsD(n, args, k, d, cs) == Values(vs, after)
    decreases k
  {
    if k > 0 {
      var o := if args == [] then Done(Nil, d) else EvalD(n, args[0], d, cs);
      var rest := if args == [] then [] else args[1..];
      ArgsInTurn(n, rest, k - 1, o.d, cs, vs[1..], after);
      assert vs == [vs[0]] + vs[1..];
    }
  }

  // Where the body of a call is evaluated: @ has the value it had before the arguments were evaluated, the
  // formals have the values of their arguments, the symbol behind them has the list of the argument
  // expressions that are left, NIL if there are none, and every other symbol has the value it has after
  // the arguments.
  ghost predicate InsideCall(inner: Deep, f: Val, args: seq<Expr>, d: Deep, vs: seq<Val>, after: Deep)
    requires f.Fun?
  {
    var k := |f.formals|;
    && |inner.frames| == |after.frames| + 1 && inner.frames[1..] == after.frames && inner.globals == after.globals
    && |vs| == k
    && Lookup(inner, AT) == Lookup(d, AT)
    && (forall i :: 0 <= i < k ==> Lookup(inner, f.formals[i]) == vs[i])
    && (f.rest.RestIn? ==> Lookup(inner, f.rest.s) == if |args| <= k then Nil else Args(args[k..]))
    && (forall s :: s != AT && s !in f.formals && (f.rest.RestIn? ==> s != f.rest.s) ==>
          Lookup(inner, s) == Lookup(after, s))
  }

  // @, the formals and the symbol behind them are all different.
  ghost predicate CanCall(f: Val)
    requires f.Fun?
  {
    && AT !in f.formals
    && (forall i, j :: 0 <= i < j < |f.formals| ==> f.formals[i] != f.formals[j])
    && (f.rest.RestIn? ==> f.rest.s != AT && f.rest.s !in f.formals)
  }

  // A call is its body evaluated in there, and its bindings are dropped afterwards.
  lemma {:induction false} CallLaw(n: nat, f: Val, args: seq<Expr>, d: Deep, cs: seq<Mark>, vs: seq<Val>, after: Deep)
    returns (inner: Deep)
    requires f.Fun? && CanCall(f) && InTurn(n, args, |f.formals|, d, cs, vs, after)
    ensures InsideCall(inner, f, args, d, vs, after)
    ensures (var o := BodyD(n, f.body, inner, cs);
             CallD(n, f, args, d, cs)
             == if o.Done? then Done(o.v, if o.d.frames == [] then o.d else Deep(o.d.frames[1..], o.d.globals)) else o)
  {
    ArgsInTurn(n, args, |f.formals|, d, cs, vs, after);
    InTurnLength(n, args, |f.formals|, d, cs, vs, after);
    hide ArgsD, BodyD, InTurn;
    var k := |f.formals|;
    var bnd := CallFrame(f, Lookup(d, AT), vs, args);
    inner := Deep([bnd] + after.frames, after.globals);
    FrameEntries(f, Lookup(d, AT), vs, args);
    InCallFrame(bnd, f, args, d, vs, after);
  }

  lemma {:induction false} InTurnLength(n: nat, args: seq<Expr>, k: nat, d: Deep, cs: seq<Mark>, vs: seq<Val>,
                                        after: Deep)
    requires InTurn(n, args, k, d, cs, vs, after)
    ensures |vs| == k
    decreases k
  {
    if k > 0 {
      var o := if args == [] then Done(Nil, d) else EvalD(n, args[0], d, cs);
      InTurnLength(n, if args == [] then [] else args[1..], k - 1, o.d, cs, vs[1..], after);
    }
  }

  // The entries of a call's list.
  ghost predicate Bindings(bnd: Bnd, f: Val, at: Val, vs: seq<Val>, args: seq<Expr>)
    requires f.Fun? && |vs| == |f.formals|
  {
    var k := |f.formals|;
    && |bnd| == 1 + k + (if f.rest.RestIn? then 1 else 0)
    && bnd[0] == Entry(AT, at)
    && (forall i :: 0 <= i < k ==> bnd[1 + i] == Entry(f.formals[i], vs[i]))
    && (f.rest.RestIn? ==> bnd[1 + k] == Entry(f.rest.s, if |args| <= k then Nil else Args(args[k..])))
  }

  lemma FrameEntries(f: Val, at: Val, vs: seq<Val>, args: seq<Expr>)
    requires f.Fun? && |vs| == |f.formals|
    ensures Bindings(CallFrame(f, at, vs, args), f, at, vs, args)
  {
    var left := RestArgs(args, |f.formals|);
    var syms := if f.rest.RestIn? then [f.rest.s] else [];
    var vals := if f.rest.RestIn? then [left] else [];
    ThreeParts(AT, f.formals, syms);
    ThreeParts(at, vs, vals);
    assert CallFrame(f, at, vs, args) == Entries([AT] + f.formals + syms, [at] + vs + vals);
    assert left == if |args| <= |f.formals| then Nil else Args(args[|f.formals|..]);
    hide RestArgs, CallFrame, CallSyms;
  }

  lemma ThreeParts<T>(x: T, s: seq<T>, r: seq<T>)
    ensures |[x] + s + r| == 1 + |s| + |r| && ([x] + s + r)[0] == x
    ensures forall i :: 0 <= i < |s| ==> ([x] + s + r)[1 + i] == s[i]
    ensures r != [] ==> ([x] + s + r)[1 + |s|] == r[0]
  {
  }

  lemma {:induction false} InCallFrame(bnd: Bnd, f: Val, args: seq<Expr>, d: Deep, vs: seq<Val>, after: Deep)
    requires f.Fun? && CanCall(f) && |vs| == |f.formals| && Bindings(bnd, f, Lookup(d, AT), vs, args)
    ensures InsideCall(Deep([bnd] + after.frames, after.globals), f, args, d, vs, after)
  {
    hide Lookup;
    var inner := Deep([bnd] + after.frames, after.globals);
    var k := |f.formals|;
    LookupInFront(bnd, after, AT);
    forall i | 0 <= i < k ensures Lookup(inner, f.formals[i]) == vs[i] {
      assert f.formals[i] in f.formals;
      forall j | 0 <= j < 1 + i ensures bnd[j].sym != f.formals[i] {
        assert j > 0 ==> bnd[1 + (j - 1)].sym == f.formals[j - 1];
      }
      LookupInFront(bnd, after, f.formals[i]);
      assert bnd[1 + i] == Entry(f.formals[i], vs[i]);
    }
    if f.rest.RestIn? {
      forall j | 0 <= j < 1 + k ensures bnd[j].sym != f.rest.s {
        assert j > 0 ==> bnd[1 + (j - 1)].sym == f.formals[j - 1];
      }
      LookupInFront(bnd, after, f.rest.s);
      assert bnd[1 + k].sym == f.rest.s;
    }
    forall s | s != AT && s !in f.formals && (f.rest.RestIn? ==> s != f.rest.s)
      ensures Lookup(inner, s) == Lookup(after, s)
    {
      LookupInFront(bnd, after, s);
      forall i | 0 <= i < |bnd| ensures bnd[i].sym != s {
        if 0 < i <= k {
          assert bnd[1 + (i - 1)].sym == f.formals[i - 1];
        }
      }
    }
  }

  // ---------- how far (eval x n) reaches ----------

  // How many of the lists begin with @.
  function CallsIn(frames: seq<Bnd>): nat {
    if frames == [] then 0 else (if frames[0] != [] && frames[0][0].sym == AT then 1 else 0) + CallsIn(frames[1..])
  }

  // The n newest calls: up to the list of the n-th call, or all lists if there are fewer.
  lemma {:induction false} ExtentLaw(frames: seq<Bnd>, n: nat)
    requires n > 0
    ensures (var m := Extent(frames, n);
             if CallsIn(frames) < n then m == |frames|
             else 0 < m <= |frames| && CallsIn(frames[..m]) == n && CallsIn(frames[..m - 1]) == n - 1)
  {
    if frames != [] {
      var call := frames[0] != [] && frames[0][0].sym == AT;
      var rest := if call then n - 1 else n;
      if rest > 0 {
        ExtentLaw(frames[1..], rest);
      }
      var m := Extent(frames, n);
      if CallsIn(frames) >= n {
        CallsFirst(frames, m);
        if m > 1 {
          CallsFirst(frames, m - 1);
        }
        assert frames[..0] == [] && frames[1..][..0] == [];
      }
    }
  }

  lemma {:induction false} CallsFirst(frames: seq<Bnd>, m: nat)
    requires 0 < m <= |frames|
    ensures CallsIn(frames[..m])
            == (if frames[0] != [] && frames[0][0].sym == AT then 1 else 0) + CallsIn(frames[1..][..m - 1])
  {
    assert frames[..m][0] == frames[0] && frames[..m][1..] == frames[1..][..m - 1];
  }

  // ---------- the other constructs ----------

  // A quoted value is itself, a symbol has the value it looks up to, and an assignment shows the value
  // that its expression has.
  lemma SimpleLaw(n: nat, v: Val, s: Sym, x: Expr, d: Deep, cs: seq<Mark>)
    requires s != TRUE
    ensures EvalD(n + 1, Quote(v), d, cs) == Done(v, d)
    ensures EvalD(n + 1, Var(s), d, cs) == Done(Lookup(d, s), d)
    ensures (var o := EvalD(n, x, d, cs);
             EvalD(n + 1, Setq(s, x), d, cs) == if o.Done? then Done(o.v, Assign(o.d, s, o.v)) else o)
  {
  }

  // (eval x n): the value of x evaluated again without the lists of the n newest calls, which come back
  // unchanged.
  lemma EvalLaw(n: nat, x: Expr, cnt: int, d: Deep, cs: seq<Mark>)
    requires n > 0 && cnt > 0
    ensures (var o := EvalD(n, x, d, cs);
             var r := EvalD(n + 1, Eval(x, Quote(Num(cnt))), d, cs);
             && (!o.Done? ==> r == o)
             && (o.Done? ==>
                   var m := Extent(o.d.frames, cnt);
                   var c := CodeD(n, o.v, Deep(o.d.frames[m..], o.d.globals), []);
                   if c.Done? then
                     r.Done? && r.v == c.v && r.d.frames == o.d.frames[..m] + c.d.frames && r.d.globals == c.d.globals
                   else r == NoClaim))
    ensures CodeD(n, Code(x), d, cs) == EvalD(n, x, d, cs) && CodeD(n, Num(cnt), d, cs) == Done(Num(cnt), d)
    ensures CodeD(n, Nil, d, cs) == Done(Nil, d)
  {
  }

  // if: NIL chooses the expressions at the end; any other value becomes that of @.
  lemma IfLaw(n: nat, c: Expr, a: Expr, b: seq<Expr>, d: Deep, cs: seq<Mark>)
    ensures (var o := EvalD(n, c, d, cs);
             var r := EvalD(n + 1, If(c, a, b), d, cs);
             && (!o.Done? ==> r == o)
             && (o.Done? && o.v == Nil ==> r == BodyD(n, b, o.d, cs))
             && (o.Done? && o.v != Nil ==> r == EvalD(n, a, Assign(o.d, AT, o.v), cs)))
  {
  }

  // An assignment shows where the symbol is bound first, and nowhere else.
  lemma {:induction false} AssignLaw(d: Deep, s: Sym, v: Val, t: Sym)
    ensures Lookup(Assign(d, s, v), t) == if t == s then v else Lookup(d, t)
    ensures |Assign(d, s, v).frames| == |d.frames|
    decreases |d.frames|
  {
    if d.frames != [] {
      var rest := Deep(d.frames[1..], d.globals);
      if Has(d.frames[0], s) {
        var j := IndexOf(d.frames[0], s);
        SamePlace(d.frames[0], d.frames[0][j := Entry(s, v)], t);
        var more := Assign(d, s, v);
        assert more.frames[1..] == d.frames[1..];
      } else {
        AssignLaw(rest, s, v, t);
        var r := Assign(rest, s, v);
        assert ([d.frames[0]] + r.frames)[1..] == r.frames;
      }
    }
  }

  lemma {:induction false} SamePlace(a: Bnd, b: Bnd, s: Sym)
    requires |a| == |b| && forall j :: 0 <= j < |a| ==> a[j].sym == b[j].sym
    ensures IndexOf(a, s) == IndexOf(b, s)
  {
    if a != [] {
      SamePlace(a[1..], b[1..], s);
    }
  }

  // use: a new list in which each symbol has the value that it has.
  lemma {:induction false} UseLaw(n: nat, syms: seq<Sym>, body: seq<Expr>, d: Deep, cs: seq<Mark>) returns (inner: Deep)
    requires syms != [] && forall i, j :: 0 <= i < j < |syms| ==> syms[i] != syms[j]
    ensures |inner.frames| == |d.frames| + 1 && inner.frames[1..] == d.frames && inner.globals == d.globals
    ensures (forall s :: Lookup(inner, s) == Lookup(d, s)) && forall s :: s in syms <==> Has(inner.frames[0], s)
    ensures (var o := BodyD(n, body, inner, cs);
             EvalD(n + 1, Use(syms, body), d, cs)
             == if o.Done? then Done(o.v, if o.d.frames == [] then o.d else Deep(o.d.frames[1..], o.d.globals)) else o)
  {
    var bnd := seq(|syms|, i requires 0 <= i < |syms| => Entry(syms[i], Lookup(d, syms[i])));
    inner := Deep([bnd] + d.frames, d.globals);
    hide BodyD;
    forall s ensures Lookup(inner, s) == Lookup(d, s) {
      LookupInFront(bnd, d, s);
      if s in syms {
        var i :| 0 <= i < |syms| && syms[i] == s;
        assert bnd[i].sym == s;
      }
    }
    forall s | s in syms ensures Has(bnd, s) {
      var i :| 0 <= i < |syms| && syms[i] == s;
      assert bnd[i].sym == s;
    }
    forall s | Has(bnd, s) ensures s in syms {
      assert bnd[IndexOf(bnd, s)].sym == s;
    }
  }

  // let, one binding: the symbol has its old value while its expression is evaluated, and then its value.
  lemma LetLaw(n: nat, s: Sym, x: Expr, body: seq<Expr>, d: Deep, cs: seq<Mark>)
    ensures (var o := EvalD(n, x, Deep([[Entry(s, Lookup(d, s))]] + d.frames, d.globals), cs);
             var b := BodyD(n, body, if o.Done? then Assign(o.d, s, o.v) else d, cs);
             EvalD(n + 1, Let([Init(s, x)], body), d, cs)
             == if !o.Done? then o
                else if b.Done? then Done(b.v, if b.d.frames == [] then b.d else Deep(b.d.frames[1..], b.d.globals))
                else b)
  {
    hide BodyD, Assign;
    var binds := [Init(s, x)];
    assert LetD(n, binds, 0, body, d, cs)
        == (var o := EvalD(n, x, BindMore(d, s, true), cs);
            if !o.Done? then o else LetD(n, binds, 1, body, Assign(o.d, s, o.v), cs));
  }

  // catch and throw: tags are NIL, numbers and symbols; a throw ends the newest catch for its tag, or for T,
  // with the lists there were when it began.
  lemma TagLaw(n: nat, tag: Val, body: seq<Expr>, x: Expr, d: Deep, cs: seq<Mark>)
    requires tag.Fun? || tag.Args? || (tag.Code? && !tag.e.Var?)
    ensures EvalD(n + 1, Catch(Quote(tag), body), d, cs) == NoClaim
    ensures EvalD(n + 1, Throw(Quote(tag), x), d, cs) == NoClaim
  {
  }

  lemma {:induction false} ThrowLaw(n: nat, tag: Val, x: Expr, d: Deep, cs: seq<Mark>, j: nat)
    requires n > 0 && (tag.Nil? || tag.Num? || (tag.Code? && tag.e.Var?)) && j < |cs|
    requires cs[j].tag == tag || cs[j].tag == Code(Var(TRUE))
    requires forall i :: 0 <= i < j ==> cs[i].tag != tag && cs[i].tag != Code(Var(TRUE))
    ensures (var o := EvalD(n, x, d, cs);
             var r := EvalD(n + 1, Throw(Quote(tag), x), d, cs);
             && (!o.Done? ==> r == o)
             && (o.Done? ==>
                   && r.Thrown? && r.level == |cs| - 1 - j && r.v == o.v && r.d.globals == o.d.globals
                   && (|o.d.frames| >= cs[j].height ==> r.d.frames == o.d.frames[|o.d.frames| - cs[j].height..])))
  {
    NewestCatch(cs, tag, j);
    hide CatchFor;
    var o := EvalD(n, x, d, cs);
    if o.Done? && |o.d.frames| == cs[j].height {
      assert o.d.frames[0..] == o.d.frames;
    }
    assert EvalD(n, Quote(tag), d, cs) == Done(tag, d);
  }

  lemma {:induction false} NewestCatch(cs: seq<Mark>, tag: Val, j: nat)
    requires j < |cs| && (cs[j].tag == tag || cs[j].tag == Code(Var(TRUE)))
    requires forall i :: 0 <= i < j ==> cs[i].tag != tag && cs[i].tag != Code(Var(TRUE))
    ensures CatchFor(cs, tag) == j
  {
    if j > 0 {
      assert cs[0].tag != tag;
      NewestCatch(cs[1..], tag, j - 1);
    }
  }
}
