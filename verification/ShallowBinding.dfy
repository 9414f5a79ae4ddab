/** Shallow binding: every symbol holds its current value, and a stack of frames holds the values to
    be put back. What association lists such a state stands for. */
module ShallowBinding {
  import opened DeepBinding

  // i > 0: the frame is being filled; 0: it is in force and bnd holds the values to be put back;
  // i < 0: it has been swapped out and bnd holds its own values.
  datatype BindFrame = BindFrame(i: int, bnd: Bnd)

  predicate InForce(f: BindFrame) {
    f.i == 0 && f.bnd != []
  }

  // The values overridden by those in bnd.
  function Over(vals: Vals, bnd: Bnd): Vals {
    if bnd == [] then vals else Put(Over(vals, bnd[1..]), bnd[0].sym, bnd[0].val)
  }

  // The symbols of bnd with the values they have.
  function Own(vals: Vals, bnd: Bnd): (r: Bnd)
    ensures |r| == |bnd| && forall j :: 0 <= j < |bnd| ==> r[j] == Entry(bnd[j].sym, Get(vals, bnd[j].sym))
  {
    seq(|bnd|, j requires 0 <= j < |bnd| => Entry(bnd[j].sym, Get(vals, bnd[j].sym)))
  }

  // The association lists that a state stands for.
  function View(vals: Vals, bind: seq<BindFrame>): Deep
    decreases |bind|
  {
    if bind == [] then Deep([], vals)
    else if !InForce(bind[0]) then View(vals, bind[1..])
    else
      var r := View(Over(vals, bind[0].bnd), bind[1..]);
      Deep([Own(vals, bind[0].bnd)] + r.frames, r.globals)
  }

  predicate Distinct(bnd: Bnd) {
    forall i, j :: 0 <= i < j < |bnd| ==> bnd[i].sym != bnd[j].sym
  }

  ghost predicate AllDistinct(bind: seq<BindFrame>) {
    forall k :: 0 <= k < |bind| ==> Distinct(bind[k].bnd)
  }

  // ---------- values ----------

  lemma {:induction false} GetPut(vals: Vals, s: Sym, v: Val, t: Sym)
    ensures Get(Put(vals, s, v), t) == if t == s then v else Get(vals, t)
  {
  }

  lemma {:induction false} SameVals(a: Vals, b: Vals)
    requires forall s :: Get(a, s) == Get(b, s)
    ensures a == b
  {
    forall s ensures s in a <==> s in b {
      assert Get(a, s) == Get(b, s);
    }
    forall s | s in a ensures a[s] == b[s] {
      assert Get(a, s) == Get(b, s);
    }
  }

  lemma {:induction false} GetOver(vals: Vals, bnd: Bnd, s: Sym)
    ensures Get(Over(vals, bnd), s) == if Has(bnd, s) then bnd[IndexOf(bnd, s)].val else Get(vals, s)
  {
    if bnd != [] {
      GetOver(vals, bnd[1..], s);
      GetPut(Over(vals, bnd[1..]), bnd[0].sym, bnd[0].val, s);
    }
  }

  // The same symbols are at the same places.
  lemma {:induction false} SameIndex(a: Bnd, b: Bnd, s: Sym)
    requires |a| == |b| && forall j :: 0 <= j < |a| ==> a[j].sym == b[j].sym
    ensures IndexOf(a, s) == IndexOf(b, s)
  {
    if a != [] {
      SameIndex(a[1..], b[1..], s);
    }
  }

  // Swapping values in and out again.
  lemma {:induction false} SwapTwice(vals: Vals, bnd: Bnd)
    requires Distinct(bnd)
    ensures Over(Over(vals, bnd), Own(vals, bnd)) == vals
    ensures Own(Over(vals, bnd), Own(vals, bnd)) == bnd
  {
    var own := Own(vals, bnd);
    forall s ensures Get(Over(Over(vals, bnd), own), s) == Get(vals, s) {
      GetOver(Over(vals, bnd), own, s);
      GetOver(vals, bnd, s);
      SameIndex(bnd, own, s);
    }
    SameVals(Over(Over(vals, bnd), own), vals);
    forall j | 0 <= j < |bnd| ensures Own(Over(vals, bnd), own)[j] == bnd[j] {
      GetOver(vals, bnd, bnd[j].sym);
      assert IndexOf(bnd, bnd[j].sym) == j;
    }
  }

  // ---------- what the view shows ----------

  // The value a symbol holds is the one found in the association lists.
  lemma {:induction false} LookupIsValue(vals: Vals, bind: seq<BindFrame>, s: Sym)
    ensures Lookup(View(vals, bind), s) == Get(vals, s)
    decreases |bind|
  {
    if bind != [] {
      if InForce(bind[0]) {
        var v := View(Over(vals, bind[0].bnd), bind[1..]);
        LookupIsValue(Over(vals, bind[0].bnd), bind[1..], s);
        GetOver(vals, bind[0].bnd, s);
        SameIndex(bind[0].bnd, Own(vals, bind[0].bnd), s);
        var d := View(vals, bind);
        assert d.frames[1..] == v.frames;
        assert Lookup(v, s) == LookupIn(d.frames[1..], d.globals, s);
      } else {
        LookupIsValue(vals, bind[1..], s);
      }
    }
  }

  lemma {:induction false} OverPut(vals: Vals, bnd: Bnd, s: Sym, v: Val)
    ensures Over(Put(vals, s, v), bnd) == if Has(bnd, s) then Over(vals, bnd) else Put(Over(vals, bnd), s, v)
  {
    var a := Over(Put(vals, s, v), bnd);
    var b := if Has(bnd, s) then Over(vals, bnd) else Put(Over(vals, bnd), s, v);
    forall t ensures Get(a, t) == Get(b, t) {
      GetOver(Put(vals, s, v), bnd, t);
      GetOver(vals, bnd, t);
      GetPut(vals, s, v, t);
      GetPut(Over(vals, bnd), s, v, t);
    }
    SameVals(a, b);
  }

  // Storing a value into a symbol assigns the variable where it is bound first.
  lemma {:induction false} PutIsAssign(vals: Vals, bind: seq<BindFrame>, s: Sym, v: Val)
    requires AllDistinct(bind)
    ensures View(Put(vals, s, v), bind) == Assign(View(vals, bind), s, v)
    decreases |bind|
  {
    if bind != [] {
      var f := bind[0];
      if !InForce(f) {
        PutIsAssign(vals, bind[1..], s, v);
      } else {
        assert Distinct(f.bnd);
        PutIsAssign(Over(vals, f.bnd), bind[1..], s, v);
        PutInFrame(vals, f.bnd, View(Over(vals, f.bnd), bind[1..]), View(Put(Over(vals, f.bnd), s, v), bind[1..]), s,
                   v);
        OverPut(vals, f.bnd, s, v);
      }
    }
  }

  // The newest list, in front of the view r of the others, or r' after the assignment.
  lemma {:induction false} PutInFrame(vals: Vals, bnd: Bnd, r: Deep, r': Deep, s: Sym, v: Val)
    requires Distinct(bnd) && r' == Assign(r, s, v)
    ensures (var q := if Has(bnd, s) then r else r';
             Deep([Own(Put(vals, s, v), bnd)] + q.frames,
                  q.globals) == Assign(Deep([Own(vals, bnd)] + r.frames, r.globals), s, v))
  {
    OwnPut(vals, bnd, s, v);
    SameIndex(bnd, Own(vals, bnd), s);
    var d := Deep([Own(vals, bnd)] + r.frames, r.globals);
    assert d.frames[0] == Own(vals, bnd);
    assert Deep(d.frames[1..], d.globals) == r;
  }

  lemma {:induction false} OwnPut(vals: Vals, bnd: Bnd, s: Sym, v: Val)
    requires Distinct(bnd)
    ensures (var j := IndexOf(bnd, s); Own(Put(vals, s, v), bnd) == if j < |bnd| then Own(vals, bnd)[j := Entry(s, v)]
             else Own(vals, bnd))
  {
    var a := Own(Put(vals, s, v), bnd);
    var j := IndexOf(bnd, s);
    var b := if j < |bnd| then Own(vals, bnd)[j := Entry(s, v)] else Own(vals, bnd);
    forall k | 0 <= k < |bnd| ensures a[k] == b[k] {
      GetPut(vals, s, v, bnd[k].sym);
    }
  }

  // A new frame in force whose saved values are the current ones and that installs its own.
  lemma {:induction false} PushShows(vals: Vals, bind: seq<BindFrame>, bnd: Bnd)
    requires Distinct(bnd) && bnd != []
    ensures View(Over(vals, bnd), [BindFrame(0, Own(vals, bnd))] + bind) == Deep([bnd] + View(vals, bind).frames,
                                                                                 View(vals, bind).globals)
  {
    SwapTwice(vals, bnd);
    assert ([BindFrame(0, Own(vals, bnd))] + bind)[1..] == bind;
  }

  // Leaving a frame in force.
  lemma {:induction false} PopShows(vals: Vals, bind: seq<BindFrame>)
    requires bind != [] && bind[0].i == 0 && bind[0].bnd != []
    ensures View(Over(vals, bind[0].bnd), bind[1..]) == Pop(View(vals, bind))
  {
    var r := View(Over(vals, bind[0].bnd), bind[1..]);
    assert ([Own(vals, bind[0].bnd)] + r.frames)[1..] == r.frames;
  }

  // ---------- frames out of force ----------

  predicate NoneInForce(bind: seq<BindFrame>) {
    forall k :: 0 <= k < |bind| ==> !InForce(bind[k])
  }

  lemma {:induction false} ViewBelow(vals: Vals, bind: seq<BindFrame>, k: nat)
    requires k <= |bind| && NoneInForce(bind[..k])
    ensures View(vals, bind) == View(vals, bind[k..])
  {
    if k > 0 {
      assert bind[0] == bind[..k][0];
      assert bind[1..][..k - 1] == bind[..k][1..];
      assert bind[1..][k - 1..] == bind[k..];
      ViewBelow(vals, bind[1..], k - 1);
    } else {
      assert bind[0..] == bind;
    }
  }

  // Swapping the topmost frame in force out takes it off the view.
  lemma {:induction false} SwapOut(vals: Vals, bind: seq<BindFrame>, k: nat, i: int)
    requires k < |bind| && NoneInForce(bind[..k]) && InForce(bind[k]) && i != 0
    ensures (var f := bind[k];
             View(Over(vals, f.bnd), bind[k := BindFrame(i, Own(vals, f.bnd))]) == Pop(View(vals, bind))
             && View(vals, bind).frames != [] && View(vals, bind).frames[0] == Own(vals, f.bnd))
  {
    var f := bind[k];
    var bind' := bind[k := BindFrame(i, Own(vals, f.bnd))];
    ViewBelow(vals, bind, k);
    assert bind'[..k] == bind[..k];
    assert bind'[..k + 1] == bind[..k] + [bind'[k]];
    assert bind'[k + 1..] == bind[k + 1..] == bind[k..][1..];
    ViewBelow(Over(vals, f.bnd), bind', k + 1);
    var r := View(Over(vals, f.bnd), bind[k + 1..]);
    assert ([Own(vals, f.bnd)] + r.frames)[1..] == r.frames;
  }

  // Swapping it in again puts it back on top.
  lemma {:induction false} SwapIn(vals: Vals, bind: seq<BindFrame>, k: nat)
    requires k < |bind| && NoneInForce(bind[..k]) && !InForce(bind[k]) && bind[k].bnd != [] && Distinct(bind[k].bnd)
    ensures (var f := bind[k]; var d := View(vals, bind);
             View(Over(vals, f.bnd), bind[k := BindFrame(0, Own(vals, f.bnd))]) == Deep([f.bnd] + d.frames, d.globals))
  {
    var f := bind[k];
    var bind' := bind[k := BindFrame(0, Own(vals, f.bnd))];
    assert bind[..k + 1] == bind[..k] + [f];
    ViewBelow(vals, bind, k + 1);
    assert bind'[..k] == bind[..k];
    ViewBelow(Over(vals, f.bnd), bind', k);
    assert bind'[k..] == [bind'[k]] + bind[k + 1..];
    PushShows(vals, bind[k + 1..], f.bnd);
  }

  // ---------- a frame being filled ----------

  lemma {:induction false} OverSame(vals: Vals, bnd: Bnd, s: Sym)
    requires !Has(bnd, s)
    ensures Over(vals, bnd + [Entry(s, Get(vals, s))]) == Over(vals, bnd)
  {
    var more := bnd + [Entry(s, Get(vals, s))];
    forall t ensures Get(Over(vals, more), t) == Get(Over(vals, bnd), t) {
      GetOver(vals, more, t);
      GetOver(vals, bnd, t);
      IndexInMore(bnd, Entry(s, Get(vals, s)), t);
    }
    SameVals(Over(vals, more), Over(vals, bnd));
  }

  lemma {:induction false} IndexInMore(bnd: Bnd, e: Entry, t: Sym)
    ensures IndexOf(bnd + [e], t) == if Has(bnd, t) then IndexOf(bnd, t) else if e.sym == t then |bnd| else |bnd| + 1
  {
    if bnd != [] {
      assert (bnd + [e])[1..] == bnd[1..] + [e];
      IndexInMore(bnd[1..], e, t);
    } else {
      assert [] + [e] == [e];
    }
  }

  // Saving one more symbol's value in the newest frame.
  lemma {:induction false} MoreShows(vals: Vals, bind: seq<BindFrame>, s: Sym)
    requires bind != [] && bind[0].i == 0 && !Has(bind[0].bnd, s)
    ensures (var f := BindFrame(0, bind[0].bnd + [Entry(s, Get(vals, s))]);
             View(vals, [f] + bind[1..]) == BindMore(View(vals, bind), s, bind[0].bnd == []))
  {
    var f := BindFrame(0, bind[0].bnd + [Entry(s, Get(vals, s))]);
    LookupIsValue(vals, bind, s);
    OverSame(vals, bind[0].bnd, s);
    assert ([f] + bind[1..])[1..] == bind[1..];
    assert Own(vals, f.bnd) == Own(vals, bind[0].bnd) + [Entry(s, Get(vals, s))];
    if bind[0].bnd != [] {
      var r := View(Over(vals, bind[0].bnd), bind[1..]);
      assert ([Own(vals, bind[0].bnd)] + r.frames)[1..] == r.frames;
    } else {
      assert Own(vals, f.bnd) == [Entry(s, Get(vals, s))];
      assert View(vals, bind) == View(vals, bind[1..]);
      assert f.bnd == bind[0].bnd + [Entry(s, Get(vals, s))] && Over(vals, f.bnd) == vals;
    }
  }

  // The last symbol of a call is given its value directly, the others by swapping.
  lemma {:induction false} RestShows(vals: Vals, bnd: Bnd, s: Sym, v: Val)
    requires Distinct(bnd + [Entry(s, v)])
    ensures Over(Put(vals, s, v), bnd) == Over(vals, bnd + [Entry(s, v)])
    ensures Own(Put(vals, s, v), bnd) + [Entry(s, Get(vals, s))] == Own(vals, bnd + [Entry(s, v)])
  {
    var more := bnd + [Entry(s, v)];
    assert !Has(bnd, s) by {
      assert more[|bnd|].sym == s;
      assert forall j :: 0 <= j < |bnd| ==> more[j] == bnd[j];
    }
    OverPut(vals, bnd, s, v);
    forall t ensures Get(Over(Put(vals, s, v), bnd), t) == Get(Over(vals, more), t) {
      GetOver(Put(vals, s, v), bnd, t);
      GetOver(vals, more, t);
      GetPut(vals, s, v, t);
      IndexInMore(bnd, Entry(s, v), t);
    }
    SameVals(Over(Put(vals, s, v), bnd), Over(vals, more));
    forall j | 0 <= j < |bnd| ensures Own(Put(vals, s, v), bnd)[j] == Own(vals, more)[j] {
      GetPut(vals, s, v, bnd[j].sym);
      assert more[j] == bnd[j];
    }
  }

  // ---------- what evaluation leaves alone ----------

  // A frame keeps its place and its symbols, and one that is not in force keeps its values.
  predicate Kept(f: BindFrame, g: BindFrame) {
    && g.i == f.i && |g.bnd| == |f.bnd|
    && (forall j :: 0 <= j < |f.bnd| ==> g.bnd[j].sym == f.bnd[j].sym)
    && (f.i != 0 ==> g == f)
  }

  predicate Same(a: seq<BindFrame>, b: seq<BindFrame>) {
    |a| == |b| && forall k :: 0 <= k < |a| ==> Kept(a[k], b[k])
  }

  lemma {:induction false} SameTrans(a: seq<BindFrame>, b: seq<BindFrame>, c: seq<BindFrame>)
    requires Same(a, b) && Same(b, c)
    ensures Same(a, c)
  {
    forall k | 0 <= k < |a| ensures Kept(a[k], c[k]) {
      assert Kept(a[k], b[k]) && Kept(b[k], c[k]);
    }
  }

  lemma {:induction false} SameBack(a: seq<BindFrame>, b: seq<BindFrame>)
    requires Same(a, b)
    ensures Same(b, a)
  {
    forall k | 0 <= k < |a| ensures Kept(b[k], a[k]) {
      assert Kept(a[k], b[k]);
    }
  }

  lemma {:induction false} SameDistinct(a: seq<BindFrame>, b: seq<BindFrame>)
    requires Same(a, b) && AllDistinct(a)
    ensures AllDistinct(b)
  {
    forall k | 0 <= k < |b| ensures Distinct(b[k].bnd) {
      assert Kept(a[k], b[k]);
      assert Distinct(a[k].bnd);
    }
  }

  // The frames from a height on downwards.
  function Below(bind: seq<BindFrame>, h: nat): seq<BindFrame>
    requires h <= |bind|
  {
    bind[|bind| - h..]
  }

  lemma {:induction false} SameBelow(a: seq<BindFrame>, b: seq<BindFrame>, h: nat)
    requires Same(a, b) && h <= |a|
    ensures Same(Below(a, h), Below(b, h))
  {
    forall k | 0 <= k < h ensures Kept(Below(a, h)[k], Below(b, h)[k]) {
      assert Kept(a[|a| - h + k], b[|b| - h + k]);
    }
  }

  // The number of association lists.
  function Depth(bind: seq<BindFrame>): nat {
    if bind == [] then 0 else (if InForce(bind[0]) then 1 else 0) + Depth(bind[1..])
  }

  lemma {:induction false} DepthIs(vals: Vals, bind: seq<BindFrame>)
    ensures |View(vals, bind).frames| == Depth(bind)
    decreases |bind|
  {
    if bind != [] {
      if InForce(bind[0]) {
        DepthIs(Over(vals, bind[0].bnd), bind[1..]);
      } else {
        DepthIs(vals, bind[1..]);
      }
    }
  }

  lemma {:induction false} DepthSame(a: seq<BindFrame>, b: seq<BindFrame>)
    requires Same(a, b)
    ensures Depth(a) == Depth(b)
  {
    if a != [] {
      assert Kept(a[0], b[0]);
      assert Same(a[1..], b[1..]) by {
        forall k | 0 <= k < |a| - 1 ensures Kept(a[1..][k], b[1..][k]) {
          assert Kept(a[k + 1], b[k + 1]);
        }
      }
      DepthSame(a[1..], b[1..]);
    }
  }
}
