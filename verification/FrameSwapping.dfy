/** The two loops of (eval x n): frames are swapped out, newest first, and swapped in again. When all
    of them come back. */
module FrameSwapping {
  import opened DeepBinding
  import opened ShallowBinding

  // A frame after the first loop has passed it.
  function OutFrame(vals: Vals, f: BindFrame, cnt: int): BindFrame {
    if InForce(f) then BindFrame(-cnt, Own(vals, f.bnd))
    else if f.i <= 0 then BindFrame(f.i - cnt, f.bnd)
    else f
  }

  // The second loop swaps in the frames whose count comes back to 0 from below.
  predicate Due(f: BindFrame, cnt: int) {
    f.i < 0 && f.i + cnt == 0
  }

  function InFrame(vals: Vals, f: BindFrame, cnt: int): BindFrame {
    if Due(f, cnt) then BindFrame(0, Own(vals, f.bnd))
    else if f.i < 0 then BindFrame(f.i + cnt, f.bnd)
    else f
  }

  // A frame in force that a call has made.
  predicate Called(f: BindFrame) {
    f.i == 0 && IsCall(f.bnd)
  }

  // The values and the frames after the first loop, and how many frames it has passed.
  datatype Passed = Passed(vals: Vals, bind: seq<BindFrame>, n: nat)

  // The first loop, with j calls still to be met.
  function SwappedOut(vals: Vals, bind: seq<BindFrame>, cnt: int, j: int): (r: Passed)
    ensures |r.bind| == |bind| && r.n <= |bind| && (bind != [] ==> r.n > 0)
    decreases |bind|
  {
    if bind == [] then Passed(vals, [], 0)
    else
      var f := bind[0];
      var v := if InForce(f) then Over(vals, f.bnd) else vals;
      var left := if Called(f) then j - 1 else j;
      if Called(f) && left == 0 then Passed(v, [OutFrame(vals, f, cnt)] + bind[1..], 1)
      else
        var r := SwappedOut(v, bind[1..], cnt, left);
        Passed(r.vals, [OutFrame(vals, f, cnt)] + r.bind, r.n + 1)
  }

  // The second loop, over the n newest frames, oldest first.
  function SwappedIn(vals: Vals, bind: seq<BindFrame>, cnt: int, n: nat): (Vals, seq<BindFrame>)
    requires n <= |bind|
    decreases n
  {
    if n == 0 then (vals, bind)
    else
      var f := bind[n - 1];
      SwappedIn(if Due(f, cnt) then Over(vals, f.bnd) else vals, bind[n - 1 := InFrame(vals, f, cnt)], cnt, n - 1)
  }

  // What both loops make of the values and the frames.
  function SwappedTwice(vals: Vals, bind: seq<BindFrame>, cnt: int, j: int): (Vals, seq<BindFrame>) {
    var r := SwappedOut(vals, bind, cnt, j);
    SwappedIn(r.vals, r.bind, cnt, r.n)
  }

  // The newest frame comes last.
  lemma {:induction false} FirstComesLast(vals: Vals, g: BindFrame, rest: seq<BindFrame>, cnt: int, n: nat)
    requires n <= |rest|
    ensures SwappedIn(vals, [g] + rest, cnt, n + 1)
            == (var r := SwappedIn(vals, rest, cnt, n);
                (if Due(g, cnt) then Over(r.0, g.bnd) else r.0, [InFrame(r.0, g, cnt)] + r.1))
    decreases n
  {
    var bind := [g] + rest;
    if n == 0 {
      assert bind[0 := InFrame(vals, g, cnt)] == [InFrame(vals, g, cnt)] + rest;
    } else {
      var f := rest[n - 1];
      assert bind[n] == f;
      var rest' := rest[n - 1 := InFrame(vals, f, cnt)];
      assert bind[n := InFrame(vals, f, cnt)] == [g] + rest';
      FirstComesLast(if Due(f, cnt) then Over(vals, f.bnd) else vals, g, rest', cnt, n - 1);
    }
  }

  // Whether a frame is as before when both loops are done, as can be seen before they begin. With 0 the
  // frames in force do not come back, but for those that change no value; with a negative number no
  // frame in force comes back, and those that are swapped out already may seem to be in force.
  predicate ComesBack(vals: Vals, f: BindFrame, cnt: int) {
    cnt >= 1 || f.i > 0 || f.i < cnt || (cnt == 0 && Own(vals, f.bnd) == f.bnd)
  }

  // Values and frames are as before exactly if every frame comes back, so always for n >= 1.
  lemma {:induction false} PutBackExactly(vals: Vals, bind: seq<BindFrame>, cnt: int, j: int)
    requires AllDistinct(bind) && j <= cnt
    ensures SwappedTwice(vals, bind, cnt, j) == (vals, bind)
            <==> forall k :: 0 <= k < |bind| ==> ComesBack(vals, bind[k], cnt)
    decreases |bind|
  {
    if bind != [] {
      var f, rest := bind[0], bind[1..];
      assert bind == [f] + rest;
      assert AllDistinct(rest) by {
        forall k | 0 <= k < |rest| ensures Distinct(rest[k].bnd) {
          assert rest[k] == bind[k + 1];
        }
      }
      FirstTwice(vals, bind, cnt, j);
      var v := if InForce(f) then Over(vals, f.bnd) else vals;
      var left := if Called(f) then j - 1 else j;
      if !(Called(f) && left == 0) {
        PutBackExactly(v, rest, cnt, left);
      }
      hide SwappedTwice, InFrame, OutFrame, ComesBack, InForce, Called;
      ByOneFrame(vals, f, rest, cnt, if Called(f) && left == 0 then (v, rest) else SwappedTwice(v, rest, cnt, left));
      FirstAndRest(vals, f, rest, cnt);
    }
  }

  lemma {:induction false} FirstAndRest(vals: Vals, f: BindFrame, rest: seq<BindFrame>, cnt: int)
    ensures (forall k :: 0 <= k < |[f] + rest| ==> ComesBack(vals, ([f] + rest)[k], cnt))
            <==> ComesBack(vals, f, cnt) && forall k :: 0 <= k < |rest| ==> ComesBack(vals, rest[k], cnt)
  {
    hide ComesBack;
    var bind := [f] + rest;
    if forall k :: 0 <= k < |bind| ==> ComesBack(vals, bind[k], cnt) {
      assert ComesBack(vals, bind[0], cnt);
      forall k | 0 <= k < |rest| ensures ComesBack(vals, rest[k], cnt) {
        assert ComesBack(vals, bind[k + 1], cnt);
      }
    }
  }

  // r is what the loops make of the other frames.
  lemma {:induction false} ByOneFrame(vals: Vals, f: BindFrame, rest: seq<BindFrame>, cnt: int,
                                      r: (Vals, seq<BindFrame>))
    requires Distinct(f.bnd)
    requires (var v := if InForce(f) then Over(vals, f.bnd) else vals;
              r == (v, rest) <==> forall k :: 0 <= k < |rest| ==> ComesBack(v, rest[k], cnt))
    ensures (var g := OutFrame(vals, f, cnt);
             (if Due(g, cnt) then Over(r.0, g.bnd) else r.0, [InFrame(r.0, g, cnt)] + r.1) == (vals, [f] + rest)
             <==> ComesBack(vals, f, cnt) && forall k :: 0 <= k < |rest| ==> ComesBack(vals, rest[k], cnt))
  {
    var g := OutFrame(vals, f, cnt);
    var v := if InForce(f) then Over(vals, f.bnd) else vals;
    var front := InFrame(r.0, g, cnt);
    assert [front] + r.1 == [f] + rest <==> front == f && r.1 == rest by {
      assert ([front] + r.1)[0] == front && ([front] + r.1)[1..] == r.1;
      assert ([f] + rest)[0] == f && ([f] + rest)[1..] == rest;
    }
    if cnt >= 1 {
      assert forall k :: 0 <= k < |rest| ==> ComesBack(v, rest[k], cnt);
      SwapTwice(vals, f.bnd);
    } else if ComesBack(vals, f, cnt) {
      SameOwn(vals, f.bnd);
      assert v == vals && !Due(g, cnt) && front == f;
    } else {
      assert front != f;
    }
  }

  // Swapping in values that the symbols have changes nothing.
  lemma {:induction false} SameOwn(vals: Vals, bnd: Bnd)
    ensures Own(vals, bnd) == bnd ==> Over(vals, bnd) == vals
  {
    if Own(vals, bnd) == bnd {
      forall s ensures Get(Over(vals, bnd), s) == Get(vals, s) {
        GetOver(vals, bnd, s);
        if Has(bnd, s) {
          assert Own(vals, bnd)[IndexOf(bnd, s)].val == Get(vals, s);
        }
      }
      SameVals(Over(vals, bnd), vals);
    }
  }

  // Both loops, for the newest frame and the others.
  lemma {:induction false} FirstTwice(vals: Vals, bind: seq<BindFrame>, cnt: int, j: int)
    requires bind != []
    ensures (var f := bind[0];
             var v := if InForce(f) then Over(vals, f.bnd) else vals;
             var g := OutFrame(vals, f, cnt);
             var left := if Called(f) then j - 1 else j;
             var r := if Called(f) && left == 0 then (v, bind[1..]) else SwappedTwice(v, bind[1..], cnt, left);
             SwappedTwice(vals, bind, cnt, j)
             == (if Due(g, cnt) then Over(r.0, g.bnd) else r.0, [InFrame(r.0, g, cnt)] + r.1))
  {
    var f := bind[0];
    var v := if InForce(f) then Over(vals, f.bnd) else vals;
    var g := OutFrame(vals, f, cnt);
    var left := if Called(f) then j - 1 else j;
    hide OutFrame, InFrame, Due;
    if Called(f) && left == 0 {
      FirstComesLast(v, g, bind[1..], cnt, 0);
    } else {
      var r := SwappedOut(v, bind[1..], cnt, left);
      FirstComesLast(r.vals, g, r.bind, cnt, r.n);
    }
  }

  // ---------- (eval x 0) ----------

  // With 0 the second loop does nothing, whatever the evaluation has done in between.
  lemma {:induction false} NothingComesIn(vals: Vals, bind: seq<BindFrame>, n: nat)
    requires n <= |bind|
    ensures SwappedIn(vals, bind, 0, n) == (vals, bind)
    decreases n
  {
    if n > 0 {
      assert bind[n - 1 := bind[n - 1]] == bind;
      NothingComesIn(vals, bind, n - 1);
    }
  }

  // So a frame in force stays swapped out, though its count says that it is in force: its symbols keep
  // their outer values, and when the frame is left they get the values that it had.
  lemma {:induction false} ZeroForgets(vals: Vals, f: BindFrame, j: nat)
    requires InForce(f) && Distinct(f.bnd) && j < |f.bnd|
    ensures SwappedTwice(vals, [f], 0, 0) == (Over(vals, f.bnd), [BindFrame(0, Own(vals, f.bnd))])
    ensures Get(Over(vals, f.bnd), f.bnd[j].sym) == f.bnd[j].val
    ensures Lookup(View(vals, [f]), f.bnd[j].sym) == Get(vals, f.bnd[j].sym)
    ensures Over(Over(vals, f.bnd), Own(vals, f.bnd)) == vals
  {
    FirstTwice(vals, [f], 0, 0);
    var v, g := Over(vals, f.bnd), OutFrame(vals, f, 0);
    assert [f][1..] == [];
    assert SwappedOut(v, [], 0, 0) == SwappedOut(v, [], 0, -1) == Passed(v, [], 0);
    assert SwappedTwice(v, [], 0, 0) == SwappedTwice(v, [], 0, -1) == (v, []);
    assert g == InFrame(v, g, 0) == BindFrame(0, Own(vals, f.bnd));
    assert [g] + [] == [g];
    GetOver(vals, f.bnd, f.bnd[j].sym);
    LookupIsValue(vals, [f], f.bnd[j].sym);
    SwapTwice(vals, f.bnd);
  }

  // A function with the formal 5, called with the argument 7 where 5 is NIL outside: after (eval 1 0) the
  // formal is NIL, and after the call it is 7.
  lemma {:induction false} ZeroInput()
    ensures (var f := BindFrame(0, [Entry(AT, Nil), Entry(5, Nil)]);
             var r := SwappedTwice(map[5 := Num(7)], [f], 0, 0);
             && Get(map[5 := Num(7)], 5) == Num(7)
             && r.1 == [BindFrame(0, [Entry(AT, Nil), Entry(5, Num(7))])]
             && Get(r.0, 5) == Nil && Get(Over(r.0, r.1[0].bnd), 5) == Num(7))
  {
    var f, vals: Vals := BindFrame(0, [Entry(AT, Nil), Entry(5, Nil)]), map[5 := Num(7)];
    ZeroForgets(vals, f, 1);
    assert Own(vals, f.bnd) == [Entry(AT, Nil), Entry(5, Num(7))];
  }
}
