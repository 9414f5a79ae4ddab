/** A throw out of (eval x n): unwind swaps frames in again on its way to the catch. When it has found all
    of them. */
module Rescue {
  import opened DeepBinding
  import opened ShallowBinding
  import opened FrameSwapping

  // ---------- unwind ----------

  // How many frames behind the newest one are looked at until j, counted up for each frame that has been
  // swapped out no more often than i says, is 0.
  function Scan(rest: seq<BindFrame>, i: int, j: int): (n: nat)
    requires j <= 0
    ensures n <= |rest|
    decreases |rest|
  {
    if j == 0 || rest == [] then 0
    else 1 + Scan(rest[1..], i, if rest[0].i >= 0 || rest[0].i < i then j else j + 1)
  }

  // Those of the n newest frames that have been swapped out no more often than i says are swapped in
  // again, oldest first.
  function BackIn(vals: Vals, bind: seq<BindFrame>, i: int, n: nat): (r: (Vals, seq<BindFrame>))
    requires n <= |bind|
    ensures |r.1| == |bind|
    decreases n
  {
    if n == 0 then (vals, bind)
    else
      var f, r := bind[0], BackIn(vals, bind[1..], i, n - 1);
      if i <= f.i < 0 then (Over(r.0, f.bnd), [BindFrame(0, Own(r.0, f.bnd))] + r.1)
      else if f.i < 0 then (r.0, [BindFrame(f.i - i, f.bnd)] + r.1)
      else (r.0, [f] + r.1)
  }

  // What is done if the newest frame has been swapped out.
  function Rescued(vals: Vals, bind: seq<BindFrame>): (r: (Vals, seq<BindFrame>))
    requires bind != []
    ensures |r.1| == |bind|
  {
    var i := bind[0].i;
    if i >= 0 then (vals, bind) else BackIn(vals, bind, i, 1 + Scan(bind[1..], i, i + 1))
  }

  // The frames above the height of a catch are left.
  function Unwound(vals: Vals, bind: seq<BindFrame>, height: nat): (Vals, seq<BindFrame>)
    decreases |bind|
  {
    if bind == [] then (vals, bind)
    else
      var r := Rescued(vals, bind);
      if |bind| == height then r
      else Unwound(if r.1[0].i == 0 then Over(r.0, r.1[0].bnd) else r.0, r.1[1..], height)
  }

  // What should have come out: the frames left as if none had been swapped out.
  function Popped(vals: Vals, bind: seq<BindFrame>, height: nat): (Vals, seq<BindFrame>)
    decreases |bind|
  {
    if bind == [] || |bind| == height then (vals, bind)
    else Popped(if bind[0].i == 0 then Over(vals, bind[0].bnd) else vals, bind[1..], height)
  }

  // ---------- frames swapped out, and some of them in again ----------

  ghost predicate NoneOut(bind: seq<BindFrame>) {
    forall k :: 0 <= k < |bind| ==> bind[k].i >= 0
  }

  // The n newest frames swapped out, the k newest of these in again.
  function Mixed(vals: Vals, bind: seq<BindFrame>, cnt: int, k: nat, n: nat): (r: (Vals, seq<BindFrame>))
    requires k <= n <= |bind|
    ensures |r.1| == |bind|
    decreases n
  {
    if n == 0 then (vals, bind)
    else
      var f := bind[0];
      var g := OutFrame(vals, f, cnt);
      var v := if InForce(f) then Over(vals, f.bnd) else vals;
      var r := Mixed(v, bind[1..], cnt, if k == 0 then 0 else k - 1, n - 1);
      if k > 0 && g.i < 0 then (Over(r.0, g.bnd), [BindFrame(0, Own(r.0, g.bnd))] + r.1) else (r.0, [g] + r.1)
  }

  lemma {:induction false} MixedStep(vals: Vals, bind: seq<BindFrame>, cnt: int, k: nat, n: nat)
    requires 0 < n <= |bind| && k <= n
    ensures (var f := bind[0];
             var g := OutFrame(vals, f, cnt);
             var v := if InForce(f) then Over(vals, f.bnd) else vals;
             var r := Mixed(v, bind[1..], cnt, if k == 0 then 0 else k - 1, n - 1);
             Mixed(vals, bind, cnt, k, n)
             == if k > 0 && g.i < 0 then (Over(r.0, g.bnd), [BindFrame(0, Own(r.0, g.bnd))] + r.1)
                else (r.0, [g] + r.1))
  {
  }

  // The first loop of (eval x n) swaps out the frames it passes.
  lemma {:induction false} OutIsMixed(vals: Vals, bind: seq<BindFrame>, cnt: int, j: int)
    ensures (var r := SwappedOut(vals, bind, cnt, j); (r.vals, r.bind) == Mixed(vals, bind, cnt, 0, r.n))
    decreases |bind|
  {
    if bind != [] {
      var f := bind[0];
      var v := if InForce(f) then Over(vals, f.bnd) else vals;
      var left := if Called(f) then j - 1 else j;
      if !(Called(f) && left == 0) {
        OutIsMixed(v, bind[1..], cnt, left);
      }
    }
  }

  // How many of the frames are in force, empty ones included.
  function InCount(bind: seq<BindFrame>): nat {
    if bind == [] then 0 else (if bind[0].i == 0 then 1 else 0) + InCount(bind[1..])
  }

  // How many have been swapped out.
  function OutCount(bind: seq<BindFrame>): nat {
    if bind == [] then 0 else (if bind[0].i < 0 then 1 else 0) + OutCount(bind[1..])
  }

  function Min(a: nat, b: nat): nat {
    if a < b then a else b
  }

  lemma {:induction false} CountFirst(bind: seq<BindFrame>, n: nat)
    requires 0 < n <= |bind|
    ensures InCount(bind[..n]) == (if bind[0].i == 0 then 1 else 0) + InCount(bind[1..][..n - 1])
    ensures OutCount(bind[..n]) == (if bind[0].i < 0 then 1 else 0) + OutCount(bind[1..][..n - 1])
  {
    assert bind[..n][0] == bind[0] && bind[..n][1..] == bind[1..][..n - 1];
  }

  lemma {:induction false} OutOfMixed(vals: Vals, bind: seq<BindFrame>, cnt: int, n: nat, m: nat)
    requires NoneOut(bind) && cnt > 0 && n <= |bind| && m <= |bind|
    ensures OutCount(Mixed(vals, bind, cnt, 0, n).1[..m]) == InCount(bind[..Min(m, n)])
    ensures forall k :: 0 <= k < |bind| ==> Mixed(vals, bind, cnt, 0, n).1[k].i >= -cnt
    decreases n
  {
    hide Mixed, OutFrame, InCount, OutCount;
    var r := Mixed(vals, bind, cnt, 0, n);
    if n == 0 {
      MixedNone(vals, bind, cnt);
      NoneCounted(bind, m);
      NoneInCount(bind);
    } else {
      var f := bind[0];
      var v := if InForce(f) then Over(vals, f.bnd) else vals;
      var rest := Mixed(v, bind[1..], cnt, 0, n - 1);
      OutOfMixed(v, bind[1..], cnt, n - 1, if m == 0 then 0 else m - 1);
      MixedStep(vals, bind, cnt, 0, n);
      OutFrameIs(vals, f, cnt);
      assert r.1[1..] == rest.1;
      assert forall k :: 0 < k < |bind| ==> r.1[k] == rest.1[k - 1];
      if m > 0 {
        CountFirst(r.1, m);
        CountFirst(bind, Min(m, n));
      } else {
        NoneInCount(bind);
        NoneInCount(r.1);
      }
    }
  }

  lemma {:induction false} NoneInCount(bind: seq<BindFrame>)
    ensures InCount(bind[..0]) == 0 && OutCount(bind[..0]) == 0
  {
  }

  lemma {:induction false} NoneCounted(bind: seq<BindFrame>, m: nat)
    requires NoneOut(bind) && m <= |bind|
    ensures OutCount(bind[..m]) == 0
    decreases m
  {
    if m > 0 {
      CountFirst(bind, m);
      NoneCounted(bind[1..], m - 1);
    }
  }

  // The scan takes in as many frames that have been swapped out as it looks for, if there are.
  lemma {:induction false} ScanCounts(rest: seq<BindFrame>, i: int, j: int)
    requires j <= 0 && forall k :: 0 <= k < |rest| ==> rest[k].i >= i
    ensures OutCount(rest[..Scan(rest, i, j)]) == Min(-j, OutCount(rest))
    decreases |rest|
  {
    if rest != [] && j < 0 {
      var j' := if rest[0].i >= 0 then j else j + 1;
      ScanCounts(rest[1..], i, j');
      CountFirst(rest, 1 + Scan(rest[1..], i, j'));
    }
  }

  lemma {:induction false} BackNothing(vals: Vals, bind: seq<BindFrame>, i: int, n: nat)
    requires NoneOut(bind) && n <= |bind|
    ensures BackIn(vals, bind, i, n) == (vals, bind)
    decreases n
  {
    if n > 0 {
      BackNothing(vals, bind[1..], i, n - 1);
      assert [bind[0]] + bind[1..] == bind;
    }
  }

  lemma {:induction false} BackStep(vals: Vals, f: BindFrame, rest: seq<BindFrame>, i: int, n: nat)
    requires 0 < n <= |rest| + 1
    ensures BackIn(vals, [f] + rest, i, n)
            == (var r := BackIn(vals, rest, i, n - 1);
                if i <= f.i < 0 then (Over(r.0, f.bnd), [BindFrame(0, Own(r.0, f.bnd))] + r.1)
                else if f.i < 0 then (r.0, [BindFrame(f.i - i, f.bnd)] + r.1)
                else (r.0, [f] + r.1))
  {
    assert ([f] + rest)[1..] == rest;
  }

  lemma {:induction false} NoneOutRest(bind: seq<BindFrame>)
    requires NoneOut(bind) && bind != []
    ensures NoneOut(bind[1..]) && bind[0].i >= 0
  {
  }

  // Swapping in the m newest of the frames swapped out.
  lemma {:induction false} BackIsMixed(vals: Vals, bind: seq<BindFrame>, cnt: int, n: nat, m: nat)
    requires NoneOut(bind) && cnt > 0 && n <= |bind| && m <= |bind|
    ensures (var r := Mixed(vals, bind, cnt, 0, n); BackIn(r.0, r.1, -cnt, m) == Mixed(vals, bind, cnt, Min(m, n), n))
    decreases n
  {
    hide Mixed, BackIn, NoneOut, OutFrame;
    MixedNone(vals, bind, cnt);
    if n == 0 {
      BackNothing(vals, bind, -cnt, m);
    } else if m == 0 {
      BackZero(vals, bind, cnt, n);
    } else {
      var f := bind[0];
      var g := OutFrame(vals, f, cnt);
      var v := if InForce(f) then Over(vals, f.bnd) else vals;
      var rest := Mixed(v, bind[1..], cnt, 0, n - 1);
      NoneOutRest(bind);
      BackIsMixed(v, bind[1..], cnt, n - 1, m - 1);
      MixedStep(vals, bind, cnt, 0, n);
      MixedStep(vals, bind, cnt, Min(m, n), n);
      BackStep(rest.0, g, rest.1, -cnt, m);
      OutFrameIs(vals, f, cnt);
    }
  }

  lemma {:induction false} MixedNone(vals: Vals, bind: seq<BindFrame>, cnt: int)
    ensures Mixed(vals, bind, cnt, 0, 0) == (vals, bind)
  {
  }

  lemma {:induction false} BackZero(vals: Vals, bind: seq<BindFrame>, cnt: int, n: nat)
    requires n <= |bind|
    ensures (var r := Mixed(vals, bind, cnt, 0, n); BackIn(r.0, r.1, -cnt, 0) == r)
  {
  }

  lemma {:induction false} OutFrameIs(vals: Vals, f: BindFrame, cnt: int)
    requires f.i >= 0 && cnt > 0
    ensures OutFrame(vals, f, cnt).i == if f.i == 0 then -cnt else f.i
  {
  }

  // How many of the frames that have been swapped out the scan from the newest one takes in.
  lemma {:induction false} ScanFrom(bind: seq<BindFrame>, cnt: int)
    requires cnt > 0 && bind != [] && bind[0].i == -cnt && forall k :: 0 <= k < |bind| ==> bind[k].i >= -cnt
    ensures OutCount(bind[..1 + Scan(bind[1..], -cnt, -cnt + 1)]) == Min(cnt, OutCount(bind[..|bind|]))
  {
    var rest := bind[1..];
    ScanCounts(rest, -cnt, -cnt + 1);
    CountFirst(bind, 1 + Scan(rest, -cnt, -cnt + 1));
    assert bind[..|bind|] == bind;
  }

  // When the newest frame has been swapped out, cnt frames come back, or all if there are fewer.
  lemma {:induction false} RescueIsMixed(vals: Vals, bind: seq<BindFrame>, cnt: int, n: nat) returns (k: nat)
    requires NoneOut(bind) && cnt > 0 && 0 < n <= |bind| && bind[0].i == 0
    ensures k <= n && InCount(bind[..k]) == Min(cnt, InCount(bind[..n]))
    ensures (var r := Mixed(vals, bind, cnt, 0, n); Rescued(r.0, r.1) == Mixed(vals, bind, cnt, k, n)) && k > 0
  {
    var r := Mixed(vals, bind, cnt, 0, n);
    assert r.1[0] == OutFrame(vals, bind[0], cnt) && r.1[0].i == -cnt;
    hide Mixed, OutCount, InCount, OutFrame, NoneOut;
    var m := 1 + Scan(r.1[1..], -cnt, -cnt + 1);
    OutOfMixed(vals, bind, cnt, n, |bind|);
    OutOfMixed(vals, bind, cnt, n, m);
    ScanFrom(r.1, cnt);
    BackIsMixed(vals, bind, cnt, n, m);
    k := Min(m, n);
  }

  // ---------- when all frames have come back ----------

  // The least multiple of cnt that is not below e.
  function RoundUp(e: nat, cnt: int): nat
    requires cnt > 0
  {
    if e == 0 then 0 else cnt + RoundUp(if e > cnt then e - cnt else 0, cnt)
  }

  lemma {:induction false} RoundUpCovers(e: nat, cnt: int)
    requires cnt > 0
    ensures e <= RoundUp(e, cnt)
  {
    if e > cnt {
      RoundUpCovers(e - cnt, cnt);
    }
  }

  // The frames above the height, and the one at it.
  function UpTo(bind: seq<BindFrame>, height: nat): (m: nat)
    ensures m <= |bind|
  {
    if 0 < height <= |bind| then |bind| - height + 1 else |bind|
  }

  // a frames that had been swapped out are in again; of the others the newest one that is met brings cnt
  // of them back.
  ghost predicate Covered(bind: seq<BindFrame>, cnt: int, a: nat, n: nat, height: nat)
    requires cnt > 0 && n <= |bind|
  {
    var e := InCount(bind[..UpTo(bind, height)]);
    InCount(bind[..n]) <= a + RoundUp(if e > a then e - a else 0, cnt)
  }

  // A frame that has been swapped out and not in again has not its old count.
  lemma {:induction false} MixedSame(vals: Vals, bind: seq<BindFrame>, cnt: int, k: nat, n: nat)
    requires NoneOut(bind) && AllDistinct(bind) && cnt > 0 && k <= n <= |bind|
    ensures Mixed(vals, bind, cnt, k, n) == (vals, bind) <==> InCount(bind[..k]) == InCount(bind[..n])
    decreases n
  {
    if n > 0 {
      var f, rest := bind[0], bind[1..];
      assert bind == [f] + rest;
      var v := if InForce(f) then Over(vals, f.bnd) else vals;
      var k' := if k == 0 then 0 else k - 1;
      MixedSame(v, rest, cnt, k', n - 1);
      CountFirst(bind, n);
      CountMore(rest, k', n - 1);
      if k > 0 {
        CountFirst(bind, k);
      } else {
        assert bind[..0] == [] && rest[..0] == [];
      }
      MixedFirst(vals, f, rest, cnt, k, Mixed(v, rest, cnt, k', n - 1));
      assert Mixed(vals, bind, cnt, k, n).1[1..] == Mixed(v, rest, cnt, k', n - 1).1;
    } else {
      assert bind[..k] == bind[..n];
    }
  }

  // The newest frame, if r is what has become of the others.
  lemma {:induction false} MixedFirst(vals: Vals, f: BindFrame, rest: seq<BindFrame>, cnt: int, k: nat,
                                      r: (Vals, seq<BindFrame>))
    requires Distinct(f.bnd) && f.i >= 0 && cnt > 0
    ensures (var g := OutFrame(vals, f, cnt);
             var v := if InForce(f) then Over(vals, f.bnd) else vals;
             var s := if k > 0 && g.i < 0 then (Over(r.0, g.bnd), [BindFrame(0, Own(r.0, g.bnd))] + r.1)
                      else (r.0, [g] + r.1);
             && (k > 0 || f.i > 0 ==> (s == (vals, [f] + rest) <==> r == (v, rest)))
             && (k == 0 && f.i == 0 ==> s.1[0] != f))
  {
    var g := OutFrame(vals, f, cnt);
    var v := if InForce(f) then Over(vals, f.bnd) else vals;
    if k > 0 && g.i < 0 {
      var first := BindFrame(0, Own(r.0, g.bnd));
      FirstOf(first, r.1, f, rest);
      assert f.bnd == [] ==> Own(vals, f.bnd) == [] && Own(r.0, g.bnd) == [];
      SwapTwice(vals, f.bnd);
      SwapTwice(r.0, g.bnd);
    } else {
      FirstOf(g, r.1, f, rest);
    }
  }

  lemma {:induction false} FirstOf(g: BindFrame, s: seq<BindFrame>, f: BindFrame, rest: seq<BindFrame>)
    ensures [g] + s == [f] + rest <==> g == f && s == rest
    ensures ([g] + s)[0] == g
  {
    assert ([g] + s)[1..] == s && ([f] + rest)[1..] == rest;
  }

  lemma {:induction false} CountMore(bind: seq<BindFrame>, k: nat, n: nat)
    requires k <= n <= |bind|
    ensures InCount(bind[..k]) <= InCount(bind[..n])
    decreases n
  {
    if k > 0 {
      CountFirst(bind, k);
      CountFirst(bind, n);
      CountMore(bind[1..], k - 1, n - 1);
    }
  }

  // Leaving the newest frame, when all up to it are in.
  lemma {:induction false} LeaveFirst(vals: Vals, bind: seq<BindFrame>, cnt: int, k: nat, n: nat)
    requires NoneOut(bind) && AllDistinct(bind) && cnt > 0 && k <= n <= |bind| && bind != []
    requires n > 0 && bind[0].i == 0 ==> k > 0
    ensures (var r := Mixed(vals, bind, cnt, k, n);
             var v := if bind[0].i == 0 then Over(vals, bind[0].bnd) else vals;
             (if r.1[0].i == 0 then Over(r.0, r.1[0].bnd) else r.0, r.1[1..])
             == Mixed(v, bind[1..], cnt, if k == 0 then 0 else k - 1, if n == 0 then 0 else n - 1))
    ensures (Mixed(vals, bind, cnt, k, n).1[0].i < 0) == false
  {
    if n > 0 {
      var f := bind[0];
      var g := OutFrame(vals, f, cnt);
      var v := if InForce(f) then Over(vals, f.bnd) else vals;
      var rest := Mixed(v, bind[1..], cnt, if k == 0 then 0 else k - 1, n - 1);
      hide Mixed;
      assert f.bnd == [] ==> Own(vals, f.bnd) == [] && Over(vals, f.bnd) == vals;
      SwapTwice(rest.0, g.bnd);
      var first := if k > 0 && g.i < 0 then BindFrame(0, Own(rest.0, g.bnd)) else g;
      assert ([first] + rest.1)[0] == first && ([first] + rest.1)[1..] == rest.1;
      MixedStep(vals, bind, cnt, k, n);
    }
  }

  // A throw leaves values and frames as it should exactly if the frames met bring all of them back.
  lemma {:induction false} UnwoundMixed(vals: Vals, bind: seq<BindFrame>, cnt: int, k: nat, n: nat, height: nat)
    requires NoneOut(bind) && AllDistinct(bind) && cnt > 0 && k <= n <= |bind|
    ensures (var r := Mixed(vals, bind, cnt, k, n);
             Unwound(r.0, r.1, height) == Popped(vals, bind, height)
             <==> Covered(bind, cnt, InCount(bind[..k]), n, height))
    decreases |bind|
  {
    if bind != [] {
      var rest := bind[1..];
      hide Mixed, Covered, NoneOut, AllDistinct, InCount, Rescued, UpTo;
      var k2 := k;
      if n > 0 && k == 0 && bind[0].i == 0 {
        k2 := RescueIsMixed(vals, bind, cnt, n);
        CoveredRescue(bind, cnt, k2, n, height);
      } else {
        NoRescue(vals, bind, cnt, k, n);
      }
      if |bind| == height {
        MixedSame(vals, bind, cnt, k2, n);
        CoveredHere(bind, cnt, k2, n);
      } else {
        LeaveFirst(vals, bind, cnt, k2, n);
        RestNone(bind);
        var v := if bind[0].i == 0 then Over(vals, bind[0].bnd) else vals;
        var k', n' := if k2 == 0 then 0 else k2 - 1, if n == 0 then 0 else n - 1;
        UnwoundMixed(v, rest, cnt, k', n', height);
        CoveredRest(bind, cnt, k2, n, height);
      }
    } else {
      assert bind[..k] == [] && bind[..n] == [];
    }
  }

  lemma {:induction false} RestNone(bind: seq<BindFrame>)
    requires NoneOut(bind) && AllDistinct(bind) && bind != []
    ensures NoneOut(bind[1..]) && AllDistinct(bind[1..])
  {
  }

  lemma {:induction false} NoRescue(vals: Vals, bind: seq<BindFrame>, cnt: int, k: nat, n: nat)
    requires NoneOut(bind) && AllDistinct(bind) && cnt > 0 && k <= n <= |bind| && bind != []
    requires n > 0 && bind[0].i == 0 ==> k > 0
    ensures (var r := Mixed(vals, bind, cnt, k, n); Rescued(r.0, r.1) == r)
  {
    LeaveFirst(vals, bind, cnt, k, n);
    hide Mixed;
  }

  lemma {:induction false} CoveredRescue(bind: seq<BindFrame>, cnt: int, k: nat, n: nat, height: nat)
    requires cnt > 0 && 0 < n <= |bind| && bind[0].i == 0 && k <= n
    requires InCount(bind[..k]) == Min(cnt, InCount(bind[..n]))
    ensures Covered(bind, cnt, InCount(bind[..0]), n, height) <==> Covered(bind, cnt, InCount(bind[..k]), n, height)
  {
    var m := UpTo(bind, height);
    CountFirst(bind, m);
    CountFirst(bind, n);
    assert bind[..0] == [];
    hide InCount, UpTo;
    RoundUpCovers(InCount(bind[..m]), cnt);
  }

  lemma {:induction false} CoveredHere(bind: seq<BindFrame>, cnt: int, k: nat, n: nat)
    requires cnt > 0 && k <= n <= |bind| && bind != [] && (n > 0 && bind[0].i == 0 ==> k > 0)
    ensures InCount(bind[..k]) == InCount(bind[..n]) <==> Covered(bind, cnt, InCount(bind[..k]), n, |bind|)
  {
    CountMore(bind, k, n);
    CountFirst(bind, 1);
    assert bind[1..][..0] == [];
    if k > 0 {
      CountFirst(bind, k);
    } else {
      assert bind[..k] == [];
    }
    if n == 0 {
      assert bind[..n] == [];
    }
  }

  lemma {:induction false} CoveredRest(bind: seq<BindFrame>, cnt: int, k: nat, n: nat, height: nat)
    requires cnt > 0 && k <= n <= |bind| && bind != [] && (n > 0 && bind[0].i == 0 ==> k > 0) && |bind| != height
    ensures Covered(bind, cnt, InCount(bind[..k]), n, height)
            <==> Covered(bind[1..], cnt, InCount(bind[1..][..if k == 0 then 0 else k - 1]),
                         if n == 0 then 0 else n - 1, height)
  {
    CountFirst(bind, UpTo(bind, height));
    if n > 0 {
      CountFirst(bind, n);
    } else {
      assert bind[..n] == [] && bind[1..][..0] == [];
    }
    if k > 0 {
      CountFirst(bind, k);
    } else {
      assert bind[..k] == [] && bind[1..][..0] == [];
    }
  }

  // A throw out of (eval x n) to a catch made when there were height frames. With N frames swapped out and
  // E of the frames above the catch and at it in force before, it leaves values and frames as it should
  // exactly if N <= E rounded up to a multiple of n.
  lemma {:induction false} ThrowExactly(vals: Vals, bind: seq<BindFrame>, cnt: int, height: nat)
    requires NoneOut(bind) && AllDistinct(bind) && cnt > 0 && height <= |bind|
    ensures (var r := SwappedOut(vals, bind, cnt, cnt);
             Unwound(r.vals, [BindFrame(0, [])] + r.bind, height) == Popped(vals, bind, height)
             <==> InCount(bind[..r.n]) <= RoundUp(InCount(bind[..UpTo(bind, height)]), cnt))
  {
    var r := SwappedOut(vals, bind, cnt, cnt);
    OutIsMixed(vals, bind, cnt, cnt);
    UnwoundMixed(vals, bind, cnt, 0, r.n, height);
    assert bind[..0] == [];
    assert Covered(bind, cnt, 0, r.n, height) <==>
             InCount(bind[..r.n]) <= RoundUp(InCount(bind[..UpTo(bind, height)]), cnt);
    hide Mixed, InCount, SwappedOut;
    var more := [BindFrame(0, [])] + r.bind;
    assert more[1..] == r.bind && Rescued(r.vals, more) == (r.vals, more);
  }

  // If all the frames in force that are swapped out are those of calls, they all come back at once.
  lemma {:induction false} CallsComeBack(vals: Vals, bind: seq<BindFrame>, cnt: int, height: nat)
    requires NoneOut(bind) && AllDistinct(bind) && cnt > 0 && height <= |bind|
    requires forall k :: 0 <= k < |bind| && bind[k].i == 0 ==> IsCall(bind[k].bnd)
    requires InCount(bind[..UpTo(bind, height)]) > 0
    ensures (var r := SwappedOut(vals, bind, cnt, cnt);
             Unwound(r.vals, [BindFrame(0, [])] + r.bind, height) == Popped(vals, bind, height))
  {
    ThrowExactly(vals, bind, cnt, height);
    CallsPassed(vals, bind, cnt, cnt);
  }

  lemma {:induction false} CallsPassed(vals: Vals, bind: seq<BindFrame>, cnt: int, j: int)
    requires j > 0 && forall k :: 0 <= k < |bind| && bind[k].i == 0 ==> IsCall(bind[k].bnd)
    ensures (var r := SwappedOut(vals, bind, cnt, j); InCount(bind[..r.n]) <= j)
    decreases |bind|
  {
    if bind != [] {
      var f := bind[0];
      var left := if Called(f) then j - 1 else j;
      CountFirst(bind, SwappedOut(vals, bind, cnt, j).n);
      if left > 0 {
        CallsPassed(if InForce(f) then Over(vals, f.bnd) else vals, bind[1..], cnt, left);
      } else {
        assert bind[1..][..0] == [];
      }
    }
  }

  // A function with the formal 5 and the argument 7, in it (let 6 ..), and in that a catch around
  // (eval '(throw ..) 1): both frames are swapped out, and unwind brings only the newest one back, so that
  // the formal is NIL behind the catch.
  lemma {:induction false} ThrowInput()
    ensures (var bind := [BindFrame(0, [Entry(6, Nil)]), BindFrame(0, [Entry(AT, Nil), Entry(5, Nil)])];
             var vals: Vals := map[5 := Num(7)];
             var r := SwappedOut(vals, bind, 1, 1);
             && Popped(vals, bind, 2) == (vals, bind) && Get(vals, 5) == Num(7)
             && Get(Unwound(r.vals, [BindFrame(0, [])] + r.bind, 2).0, 5) == Nil)
  {
    var f, g := BindFrame(0, [Entry(6, Nil)]), BindFrame(0, [Entry(AT, Nil), Entry(5, Nil)]);
    var bind := [f, g];
    var vals: Vals := map[5 := Num(7)];
    var g' := BindFrame(-1, [Entry(AT, Nil), Entry(5, Num(7))]);
    assert bind[1..] == [g] && [g][1..] == [];
    assert Own(vals, g.bnd) == g'.bnd && Own(vals, f.bnd) == f.bnd;
    var empty: Vals := map[];
    assert Over(vals, f.bnd) == vals && Over(vals, g.bnd) == empty by {
      assert f.bnd[1..] == [] && g.bnd[1..] == [Entry(5, Nil)] && g.bnd[1..][1..] == [];
    }
    assert SwappedOut(vals, [g], 1, 1) == Passed(empty, [g'], 1);
    var f' := BindFrame(-1, f.bnd);
    var r := SwappedOut(vals, bind, 1, 1);
    assert r == Passed(empty, [f', g'], 2);
    var more := [BindFrame(0, [])] + r.bind;
    assert more[1..] == r.bind && r.bind[1..] == [g'];
    assert BackIn(empty, [g'], -1, 0) == (empty, [g']);
    assert Over(empty, f'.bnd) == empty by {
      assert f'.bnd[1..] == [];
    }
    assert Rescued(empty, r.bind).0 == empty;
    assert Unwound(empty, r.bind, 2).0 == empty;
  }
}
