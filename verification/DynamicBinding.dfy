/** The interpreter with shallow binding, against the meaning of programs with association lists. */
module DynamicBinding {
  import opened DeepBinding
  import opened ShallowBinding
  import opened FrameSwapping
  import opened Rescue

  // What setjmp saves of the binding environment: the height of the stack of frames.
  datatype CatchFrame = CatchFrame(tag: Val, height: nat)

  // How an evaluation ends: with a value, or with a jump to the catch that has level others around it.
  datatype Signal = Ret(v: Val) | Jump(level: nat, v: Val)

  predicate Matches(bind: seq<BindFrame>, c: CatchFrame, m: Mark) {
    c.tag == m.tag && c.height <= |bind| && m.height == Depth(Below(bind, c.height))
  }

  // The marks cs stand for the newest catches; no frame above the oldest of these, and not the one
  // below it either, has been swapped out.
  ghost predicate CatchRel(bind: seq<BindFrame>, catches: seq<CatchFrame>, cs: seq<Mark>) {
    && |cs| <= |catches|
    && (forall j :: 0 <= j < |cs| ==> Matches(bind, catches[j], cs[j]))
    && (forall j, k :: 0 <= j < k < |cs| ==> catches[k].height <= catches[j].height)
    && (cs != [] ==> forall k :: 0 <= k < |bind| && k <= |bind| - catches[|cs| - 1].height ==> bind[k].i >= 0)
  }

  lemma {:induction false} CatchSame(a: seq<BindFrame>, b: seq<BindFrame>, catches: seq<CatchFrame>, cs: seq<Mark>)
    requires Same(a, b) && CatchRel(a, catches, cs)
    ensures CatchRel(b, catches, cs)
  {
    forall j | 0 <= j < |cs| ensures Matches(b, catches[j], cs[j]) {
      assert Matches(a, catches[j], cs[j]);
      SameBelow(a, b, catches[j].height);
      DepthSame(Below(a, catches[j].height), Below(b, catches[j].height));
    }
    if cs != [] {
      forall k | 0 <= k < |b| && k <= |b| - catches[|cs| - 1].height ensures b[k].i >= 0 {
        assert Kept(a[k], b[k]);
      }
    }
  }

  lemma {:induction false} CatchPush(bind: seq<BindFrame>, f: BindFrame, catches: seq<CatchFrame>, cs: seq<Mark>)
    requires CatchRel(bind, catches, cs) && f.i >= 0
    ensures CatchRel([f] + bind, catches, cs)
  {
    var more := [f] + bind;
    forall j | 0 <= j < |cs| ensures Matches(more, catches[j], cs[j]) {
      assert Matches(bind, catches[j], cs[j]);
      assert Below(more, catches[j].height) == Below(bind, catches[j].height);
    }
    if cs != [] {
      forall k | 0 <= k < |more| && k <= |more| - catches[|cs| - 1].height ensures more[k].i >= 0 {
        if k > 0 {
          assert more[k] == bind[k - 1];
        }
      }
    }
  }

  // A new catch.
  lemma {:induction false} CatchNew(bind: seq<BindFrame>, tag: Val, catches: seq<CatchFrame>, cs: seq<Mark>)
    requires CatchRel(bind, catches, cs) && (bind != [] ==> bind[0].i >= 0)
    ensures CatchRel(bind, [CatchFrame(tag, |bind|)] + catches, [Mark(tag, Depth(bind))] + cs)
  {
    var c', cs' := [CatchFrame(tag, |bind|)] + catches, [Mark(tag, Depth(bind))] + cs;
    forall j | 0 <= j < |cs'| ensures Matches(bind, c'[j], cs'[j]) {
      if j > 0 {
        assert Matches(bind, catches[j - 1], cs[j - 1]);
      } else {
        assert Below(bind, |bind|) == bind;
      }
    }
    forall j, k | 0 <= j < k < |cs'| ensures c'[k].height <= c'[j].height {
      assert Matches(bind, catches[k - 1], cs[k - 1]);
    }
  }

  // What evaluation may assume of the state.
  ghost predicate Ready(bind: seq<BindFrame>, catches: seq<CatchFrame>, cs: seq<Mark>) {
    AllDistinct(bind) && CatchRel(bind, catches, cs) && (bind != [] ==> bind[0].i >= 0)
  }

  lemma {:induction false} ReadySame(a: seq<BindFrame>, b: seq<BindFrame>, catches: seq<CatchFrame>, cs: seq<Mark>)
    requires Same(a, b) && Ready(a, catches, cs)
    ensures Ready(b, catches, cs)
  {
    CatchSame(a, b, catches, cs);
    SameDistinct(a, b);
    if a != [] {
      assert Kept(a[0], b[0]);
    }
  }

  lemma {:induction false} ReadyPush(bind: seq<BindFrame>, f: BindFrame, catches: seq<CatchFrame>, cs: seq<Mark>)
    requires Ready(bind, catches, cs) && f.i >= 0 && Distinct(f.bnd)
    ensures Ready([f] + bind, catches, cs)
  {
    CatchPush(bind, f, catches, cs);
    var more := [f] + bind;
    forall k | 0 <= k < |more| ensures Distinct(more[k].bnd) {
      if k > 0 {
        assert more[k] == bind[k - 1];
      }
    }
  }

  // A state against an outcome of an evaluation that began with the frames b0 and the catches c0.
  ghost predicate Post(vals: Vals, bind: seq<BindFrame>, catches: seq<CatchFrame>, b0: seq<BindFrame>,
                       c0: seq<CatchFrame>, cs: seq<Mark>, o: Outcome, r: Signal) {
    match o
    case Done(v, d) => r == Ret(v) && View(vals, bind) == d && Same(b0, bind) && catches == c0
    case Thrown(k, v, d) =>
      && k < |cs| <= |c0| && r == Jump(|c0| - |cs| + k, v) && View(vals, bind) == d
      && (var j := |cs| - 1 - k;
          c0[j].height <= |b0| && Same(Below(b0, c0[j].height), bind) && catches == c0[j + 1..])
    case NoClaim => true
  }

  // A jump out of an evaluation within another one, which began with fewer frames, is a jump out of both.
  lemma {:induction false} Outwards(vals: Vals, bind: seq<BindFrame>, catches: seq<CatchFrame>, b0: seq<BindFrame>,
                                    b1: seq<BindFrame>, c0: seq<CatchFrame>, cs: seq<Mark>, o: Outcome, r: Signal)
    requires Post(vals, bind, catches, b1, c0, cs, o, r) && o.Thrown? && CatchRel(b0, c0, cs)
    requires |b0| <= |b1| && Same(b0, Below(b1, |b0|))
    ensures Post(vals, bind, catches, b0, c0, cs, o, r)
  {
    var j := |cs| - 1 - o.level;
    var h := c0[j].height;
    assert Matches(b0, c0[j], cs[j]);
    SameBelow(b0, Below(b1, |b0|), h);
    assert Below(Below(b1, |b0|), h) == Below(b1, h);
    SameTrans(Below(b0, h), Below(b1, h), bind);
  }

  // ---------- (eval x n) ----------

  // What hiding does to the frame at place k, whose own list is the next of the lists.
  predicate Hidden(f: BindFrame, g: BindFrame, cnt: int, own: Bnd) {
    if InForce(f) then g == BindFrame(-cnt, own) && Distinct(own) && |own| == |f.bnd| && forall j :: 0 <= j < |own| ==>
         own[j].sym == f.bnd[j].sym
    else if f.i <= 0 then g == BindFrame(f.i - cnt, f.bnd)
    else g == f
  }

  function OwnAt(frames: seq<Bnd>, j: nat): Bnd {
    if j < |frames| then frames[j] else []
  }

  // After the first k frames of b0 have been hidden; d is what the frames showed before.
  ghost predicate HidingOn(b0: seq<BindFrame>, d: Deep, cnt: int, vals: Vals, bind: seq<BindFrame>, k: nat) {
    && k <= |b0| == |bind| && NoneInForce(bind[..k]) && bind[k..] == b0[k..] && Depth(b0[..k]) <= |d.frames|
    && View(vals, bind) == Deep(d.frames[Depth(b0[..k])..], d.globals)
    && forall q :: 0 <= q < k ==> Hidden(b0[q], bind[q], cnt, OwnAt(d.frames, Depth(b0[..q])))
  }

  lemma {:induction false} DepthNext(b: seq<BindFrame>, k: nat)
    requires k < |b|
    ensures Depth(b[..k + 1]) == Depth(b[..k]) + (if InForce(b[k]) then 1 else 0)
  {
    if k > 0 {
      DepthNext(b[1..], k - 1);
      assert b[..k + 1][1..] == b[1..][..k] && b[..k][1..] == b[1..][..k - 1];
    } else {
      assert b[..1] == [b[0]] && b[..0] == [];
    }
  }

  // Hiding a frame that is not in force changes nothing that can be seen.
  lemma {:induction false} HideOther(b0: seq<BindFrame>, d: Deep, cnt: int, vals: Vals, bind: seq<BindFrame>, k: nat,
                                     g: BindFrame)
    requires HidingOn(b0, d, cnt, vals, bind, k) && k < |bind| && cnt > 0 && !InForce(bind[k])
    requires g == if bind[k].i <= 0 then BindFrame(bind[k].i - cnt, bind[k].bnd) else bind[k]
    ensures HidingOn(b0, d, cnt, vals, bind[k := g], k + 1)
  {
    var more := bind[k := g];
    DepthNext(b0, k);
    assert bind[k] == bind[k..][0] == b0[k];
    assert more[..k + 1] == bind[..k] + [g];
    assert more[k + 1..] == bind[k..][1..] == b0[k + 1..];
    assert bind[..k + 1] == bind[..k] + [bind[k]];
    ViewBelow(vals, bind, k + 1);
    ViewBelow(vals, more, k + 1);
    assert bind[k + 1..] == more[k + 1..];
  }

  lemma {:induction false} HideOne(b0: seq<BindFrame>, d: Deep, cnt: int, vals: Vals, bind: seq<BindFrame>, k: nat)
    requires HidingOn(b0, d, cnt, vals, bind, k) && k < |bind| && cnt > 0 && InForce(bind[k]) && Distinct(bind[k].bnd)
    ensures (var bnd := bind[k].bnd;
             HidingOn(b0, d, cnt, Over(vals, bnd), bind[k := BindFrame(-cnt, Own(vals, bnd))], k + 1))
    ensures Depth(b0[..k]) < |d.frames| && (IsCall(d.frames[Depth(b0[..k])]) <==> IsCall(bind[k].bnd))
  {
    var bnd := bind[k].bnd;
    var more := bind[k := BindFrame(-cnt, Own(vals, bnd))];
    DepthNext(b0, k);
    assert bind[k] == bind[k..][0] == b0[k];
    assert more[..k + 1] == bind[..k] + [more[k]];
    assert more[k + 1..] == bind[k..][1..] == b0[k + 1..];
    SwapOut(vals, bind, k, -cnt);
    var m := Depth(b0[..k]);
    assert d.frames[m..][0] == d.frames[m] == Own(vals, bnd);
    assert d.frames[m..][1..] == d.frames[m + 1..];
    assert Hidden(b0[k], more[k], cnt, OwnAt(d.frames, m));
  }

  lemma {:induction false} HidingDistinct(b0: seq<BindFrame>, d: Deep, cnt: int, vals: Vals, bind: seq<BindFrame>,
                                          k: nat)
    requires HidingOn(b0, d, cnt, vals, bind, k) && AllDistinct(b0)
    ensures AllDistinct(bind)
  {
    forall q | 0 <= q < |bind| ensures Distinct(bind[q].bnd) {
      assert Distinct(b0[q].bnd);
      if q < k {
        assert Hidden(b0[q], bind[q], cnt, OwnAt(d.frames, Depth(b0[..q])));
      } else {
        assert bind[q] == bind[k..][q - k] == b0[k..][q - k];
      }
    }
  }

  // While the frames are put back, from the n-th up to the first: those from k on are as before.
  ghost predicate ShowingOn(b0: seq<BindFrame>, d: Deep, b1: seq<BindFrame>, d1: Deep, n: nat,
                            vals: Vals, bind: seq<BindFrame>, k: nat) {
    && k <= n <= |b0| == |b1| == |bind| && NoneInForce(bind[..k]) && bind[..k] == b1[..k] && bind[n..] == b1[n..]
    && (forall q :: k <= q < n ==> Kept(b0[q], bind[q]))
    && Depth(b0[..k]) <= Depth(b0[..n]) <= |d.frames|
    && View(vals, bind) == Deep(d.frames[Depth(b0[..k])..Depth(b0[..n])] + d1.frames, d1.globals)
  }

  // Where the frames are when they are to be put back: hidden, and kept so by the evaluation.
  ghost predicate WasHidden(b0: seq<BindFrame>, d: Deep, cnt: int, b1: seq<BindFrame>, q: nat)
    requires q < |b0| == |b1|
  {
    var own := OwnAt(d.frames, Depth(b0[..q]));
    if InForce(b0[q]) then b1[q] == BindFrame(-cnt, own) && Distinct(own) && Depth(b0[..q]) < |d.frames|
                           && |own| == |b0[q].bnd| && forall j :: 0 <= j < |own| ==> own[j].sym == b0[q].bnd[j].sym
    else if b0[q].i <= 0 then b1[q] == BindFrame(b0[q].i - cnt, b0[q].bnd)
    else b1[q] == b0[q]
  }

  lemma {:induction false} ShowOther(b0: seq<BindFrame>, d: Deep, cnt: int, b1: seq<BindFrame>, d1: Deep, n: nat,
                                     vals: Vals, bind: seq<BindFrame>, k: nat, g: BindFrame)
    requires ShowingOn(b0, d, b1, d1, n, vals, bind, k) && k > 0 && cnt > 0 && WasHidden(b0, d, cnt, b1, k - 1)
             && !InForce(b0[k - 1])
    requires g == if bind[k - 1].i < 0 then BindFrame(bind[k - 1].i + cnt, bind[k - 1].bnd) else bind[k - 1]
    ensures ShowingOn(b0, d, b1, d1, n, vals, bind[k - 1 := g], k - 1)
  {
    var more := bind[k - 1 := g];
    DepthNext(b0, k - 1);
    assert bind[k - 1] == bind[..k][k - 1] == b1[..k][k - 1];
    assert g == b0[k - 1];
    assert NoneInForce(more[..k - 1]) && more[..k - 1] == b1[..k - 1] by {
      assert more[..k - 1] == bind[..k][..k - 1];
    }
    assert more[n..] == bind[n..];
    assert more[..k] == more[..k - 1] + [g];
    ViewBelow(vals, bind, k);
    ViewBelow(vals, more, k);
    assert bind[k..] == more[k..];
  }

  lemma {:induction false} ShowOne(b0: seq<BindFrame>, d: Deep, cnt: int, b1: seq<BindFrame>, d1: Deep, n: nat,
                                   vals: Vals, bind: seq<BindFrame>, k: nat)
    requires ShowingOn(b0, d, b1, d1, n, vals, bind, k) && k > 0 && cnt > 0 && WasHidden(b0, d, cnt, b1, k - 1)
             && InForce(b0[k - 1])
    ensures (var f := bind[k - 1];
             && f.i == -cnt && Distinct(f.bnd)
             && ShowingOn(b0, d, b1, d1, n, Over(vals, f.bnd), bind[k - 1 := BindFrame(0, Own(vals, f.bnd))], k - 1))
  {
    var f := bind[k - 1];
    assert bind[k - 1] == bind[..k][k - 1] == b1[..k][k - 1];
    var more := bind[k - 1 := BindFrame(0, Own(vals, f.bnd))];
    DepthNext(b0, k - 1);
    assert more[..k - 1] == bind[..k][..k - 1];
    assert bind[..k - 1] == bind[..k][..k - 1];
    assert more[n..] == bind[n..];
    FewerNone(bind[..k], k - 1);
    SwapIn(vals, bind, k - 1);
    ListBack(d, d1, Depth(b0[..k - 1]), Depth(b0[..n]), f.bnd);
    assert Kept(b0[k - 1], more[k - 1]);
  }

  lemma {:induction false} FewerNone(bind: seq<BindFrame>, k: nat)
    requires NoneInForce(bind) && k <= |bind|
    ensures NoneInForce(bind[..k])
  {
  }

  lemma {:induction false} ListBack(d: Deep, d1: Deep, m: nat, n: nat, bnd: Bnd)
    requires m < n <= |d.frames| && d.frames[m] == bnd
    ensures [bnd] + (d.frames[m + 1..n] + d1.frames) == d.frames[m..n] + d1.frames
  {
    assert d.frames[m..n] == [bnd] + d.frames[m + 1..n];
  }

  class PicoLisp {
    var vals: Vals
    var bind: seq<BindFrame>
    var catches: seq<CatchFrame>

    constructor ()
      ensures vals == map[] && bind == [] && catches == []
    {
      vals, bind, catches := map[], [], [];
    }

    // val(s) = v
    method SetVal(s: Sym, v: Val)
      modifies `vals
      ensures vals == Put(old(vals), s, v)
    {
      vals := Put(vals, s, v);
    }

    // The loop at the end of a construct: the saved values are put back, the last one first.
    method PutBack(bnd: Bnd)
      modifies `vals
      ensures vals == Over(old(vals), bnd)
    {
      var j := |bnd|;
      while j > 0
        invariant 0 <= j <= |bnd| && vals == Over(old(vals), bnd[j..])
      {
        j := j - 1;
        assert bnd[j..][1..] == bnd[j + 1..];
        SetVal(bnd[j].sym, bnd[j].val);
      }
      assert bnd[0..] == bnd;
    }

    // Unbinding the newest frame.
    method Unbind()
      requires bind != [] && InForce(bind[0])
      modifies `vals, `bind
      ensures bind == old(bind)[1..] && View(vals, bind) == Pop(old(View(vals, bind)))
    {
      PopShows(vals, bind);
      PutBack(bind[0].bnd);
      bind := bind[1..];
    }

    // Exchanging the value of a symbol with the one kept in a frame.
    method SwapEntry(k: nat, j: nat)
      requires k < |bind| && j < |bind[k].bnd|
      modifies `vals, `bind
      ensures (var e := old(bind)[k].bnd[j];
               && vals == Put(old(vals), e.sym, e.val)
               && bind == old(bind)[k := BindFrame(old(bind)[k].i,
                                                   old(bind)[k].bnd[j := Entry(e.sym, Get(old(vals), e.sym))])])
    {
      var e := bind[k].bnd[j];
      bind := bind[k := BindFrame(bind[k].i, bind[k].bnd[j := Entry(e.sym, Get(vals, e.sym))])];
      SetVal(e.sym, e.val);
    }

    // Exchanging the values of the first n symbols of a frame, the last one first.
    method SwapDown(k: nat, n: nat)
      requires k < |bind| && n <= |bind[k].bnd| && Distinct(bind[k].bnd)
      modifies `vals, `bind
      ensures (var bnd := old(bind)[k].bnd;
               && vals == Over(old(vals), bnd[..n])
               && bind == old(bind)[k := BindFrame(old(bind)[k].i, Own(old(vals), bnd[..n]) + bnd[n..])])
    {
      ghost var b0, v0, bnd := bind, vals, bind[k].bnd;
      var j := n;
      while j > 0
        invariant 0 <= j <= n && Swapped(v0, bnd, vals, j, n)
        invariant |bind| == |b0| && bind == b0[k := BindFrame(b0[k].i, bind[k].bnd)]
                  && PartOwn(v0, bnd, bind[k].bnd, j, n)
      {
        j := j - 1;
        SwapStep(v0, bnd, vals, j, n);
        SwapEntry(k, j);
      }
      assert bnd[0..n] == bnd[..n];
      assert bind[k].bnd == Own(v0, bnd[..n]) + bnd[n..];
    }

    // The same for all its symbols, the first one first.
    method SwapUp(k: nat)
      requires k < |bind| && Distinct(bind[k].bnd)
      modifies `vals, `bind
      ensures (var bnd := old(bind)[k].bnd;
               && vals == Over(old(vals), bnd)
                  && bind == old(bind)[k := BindFrame(old(bind)[k].i, Own(old(vals), bnd))])
    {
      ghost var b0, v0, bnd := bind, vals, bind[k].bnd;
      var j := 0;
      while j < |bind[k].bnd|
        invariant 0 <= j <= |bnd| && |bind| == |b0| && bind == b0[k := BindFrame(b0[k].i, bind[k].bnd)]
        invariant PartOwn(v0, bnd, bind[k].bnd, 0, j) && SwappedTo(v0, bnd, vals, j)
      {
        SwapNext(v0, bnd, vals, j);
        SwapEntry(k, j);
        j := j + 1;
      }
      SwappedAll(v0, bnd, vals);
      assert bind[k].bnd == Own(v0, bnd);
    }

    // The loop of eval that swaps frames out until it has met cnt calls; it returns how many it passed.
    method HideFrames(cnt: int) returns (n: nat)
      requires bind != [] && AllDistinct(bind)
      modifies `vals, `bind
      ensures Passed(vals, bind, n) == old(SwappedOut(vals, bind, cnt, cnt))
    {
      ghost var all := SwappedOut(vals, bind, cnt, cnt);
      var j := cnt;
      n := 0;
      StartPassing(vals, bind, cnt);
      hide Passing, OutFrame, Distinct, AllDistinct, SwappedOut;
      var more := true;
      while more
        invariant n <= |bind| && (more ==> n < |bind|) && Passing(all, vals, bind, n, cnt, j, more)
        decreases |bind| - n, more
      {
        PassNext(all, vals, bind, n, cnt, j);
        var call := Called(bind[n]);
        TakeOut(n, cnt);
        n := n + 1;
        j := if call then j - 1 else j;
        more := n < |bind| && !(call && j == 0);
      }
      PassedAll(all, vals, bind, n, cnt, j);
    }

    // Swapping out one frame.
    method TakeOut(k: nat, cnt: int)
      requires k < |bind| && Distinct(bind[k].bnd)
      modifies `vals, `bind
      ensures vals == (if InForce(old(bind)[k]) then Over(old(vals), old(bind)[k].bnd) else old(vals))
      ensures bind == old(bind)[k := OutFrame(old(vals), old(bind)[k], cnt)]
    {
      ghost var f := bind[k];
      var i := bind[k].i;
      if i <= 0 {
        bind := bind[k := BindFrame(i - cnt, bind[k].bnd)];
        if i == 0 {
          SwapUp(k);
          NoEntries(old(vals), f.bnd);
        }
      } else {
        assert bind[k := f] == bind;
      }
    }

    // The loop of eval that swaps the n newest frames in, oldest first.
    method ShowFrames(n: nat, cnt: int)
      requires n <= |bind| && forall k :: 0 <= k < n && Due(bind[k], cnt) ==> Distinct(bind[k].bnd)
      modifies `vals, `bind
      ensures (vals, bind) == old(SwappedIn(vals, bind, cnt, n))
    {
      ghost var all := SwappedIn(vals, bind, cnt, n);
      hide InFrame, Due, Distinct;
      var k := n;
      while k > 0
        invariant 0 <= k <= n && k <= |bind| && all == SwappedIn(vals, bind, cnt, k)
        invariant forall q :: 0 <= q < k && Due(bind[q], cnt) ==> Distinct(bind[q].bnd)
      {
        k := k - 1;
        PutIn(k, cnt);
      }
    }

    // Swapping one frame in.
    method PutIn(k: nat, cnt: int)
      requires k < |bind| && (Due(bind[k], cnt) ==> Distinct(bind[k].bnd))
      modifies `vals, `bind
      ensures vals == (if Due(old(bind)[k], cnt) then Over(old(vals), old(bind)[k].bnd) else old(vals))
      ensures bind == old(bind)[k := InFrame(old(vals), old(bind)[k], cnt)]
    {
      ghost var f := bind[k];
      var i := bind[k].i;
      if i < 0 {
        bind := bind[k := BindFrame(i + cnt, bind[k].bnd)];
        if i + cnt == 0 {
          SwapDown(k, |bind[k].bnd|);
          assert f.bnd[..|f.bnd|] == f.bnd && f.bnd[|f.bnd|..] == [];
          assert Own(old(vals), f.bnd) + [] == Own(old(vals), f.bnd);
        }
      } else {
        assert bind[k := f] == bind;
      }
    }

    // ---------- evaluation ----------

    // What a method that evaluates with the outcome o does.
    ghost predicate Ends(b0: seq<BindFrame>, c0: seq<CatchFrame>, cs: seq<Mark>, o: Outcome, r: Signal)
      reads this
    {
      Post(vals, bind, catches, b0, c0, cs, o, r)
    }

    function Seen(): Deep
      reads this
    {
      View(vals, bind)
    }

    method EvalExpr(ghost n: nat, e: Expr, ghost cs: seq<Mark>) returns (r: Signal)
      requires Ready(bind, catches, cs) && !EvalD(n, e, Seen(), cs).NoClaim?
      modifies this
      ensures Ends(old(bind), old(catches), cs, old(EvalD(n, e, Seen(), cs)), r)
      decreases n, 0, 1
    {
      SameSelf(bind);
      match e {
        case Quote(v) => return Ret(v);
        case Var(s) =>
          LookupIsValue(vals, bind, s);
          return Ret(Get(vals, s));
        case Setq(_, _) => r := EvalSetq(n, e, cs);
        case If(_, _, _) => r := EvalIf(n, e, cs);
        case Call(_, _) => r := EvalCall(n, e, cs);
        case Let(binds, body) => r := EvalLet(n - 1, binds, body, cs);
        case Use(syms, body) => r := EvalUse(n, e, cs);
        case Eval(_, _) => r := EvalEval(n, e, cs);
        case Catch(_, _) => r := EvalCatch(n, e, cs);
        case Throw(_, _) => r := EvalThrow(n, e, cs);
      }
    }

    // prog
    method EvalBody(ghost n: nat, es: seq<Expr>, ghost cs: seq<Mark>) returns (r: Signal)
      requires Ready(bind, catches, cs) && !BodyD(n, es, Seen(), cs).NoClaim?
      modifies this
      ensures Ends(old(bind), old(catches), cs, old(BodyD(n, es, Seen(), cs)), r)
      decreases n, 1, 1
    {
      ghost var b0, c0, o := bind, catches, BodyD(n, es, Seen(), cs);
      SameSelf(bind);
      var x := es;
      if x == [] {
        return Ret(Nil);
      }
      hide EvalD, Ready, Same, View, Post;
      while true
        invariant x != [] && Ready(bind, catches, cs) && Same(b0, bind) && catches == c0 && BodyD(n, x, Seen(), cs) == o
        decreases |x|
      {
        ghost var b1 := bind;
        ghost var first := EvalD(n, x[0], Seen(), cs);
        r := EvalExpr(n, x[0], cs);
        Rebase(vals, bind, catches, b0, b1, c0, cs, first, r);
        if r.Jump? || |x| == 1 {
          OnlyFirst(vals, bind, catches, b0, c0, cs, n, x, first, o, r);
          return;
        }
        Normal(vals, bind, catches, b0, c0, cs, first, r);
        x := x[1..];
      }
    }

    method EvalSetq(ghost n: nat, e: Expr, ghost cs: seq<Mark>) returns (r: Signal)
      requires e.Setq? && Ready(bind, catches, cs) && !EvalD(n, e, Seen(), cs).NoClaim?
      modifies this
      ensures Ends(old(bind), old(catches), cs, old(EvalD(n, e, Seen(), cs)), r)
      decreases n, 0, 0
    {
      ghost var b0, c0, o := bind, catches, EvalD(n - 1, e.x, Seen(), cs);
      r := EvalExpr(n - 1, e.x, cs);
      if r.Ret? {
        Normal(vals, bind, catches, b0, c0, cs, o, r);
        PutIsAssign(vals, bind, e.s, r.v);
        SetVal(e.s, r.v);
      }
    }

    method EvalIf(ghost n: nat, e: Expr, ghost cs: seq<Mark>) returns (r: Signal)
      requires e.If? && Ready(bind, catches, cs) && !EvalD(n, e, Seen(), cs).NoClaim?
      modifies this
      ensures Ends(old(bind), old(catches), cs, old(EvalD(n, e, Seen(), cs)), r)
      decreases n, 0, 0
    {
      ghost var b0, c0, d0 := bind, catches, Seen();
      ghost var o := EvalD(n - 1, e.c, Seen(), cs);
      hide Ready, Same, View, Post, BranchD;
      r := EvalExpr(n - 1, e.c, cs);
      if r.Jump? {
        Jumping(vals, bind, catches, b0, c0, cs, o, r);
        return;
      }
      Normal(vals, bind, catches, b0, c0, cs, o, r);
      ghost var b1 := bind;
      r := EvalBranch(n - 1, r.v, e.a, e.b, cs);
      Rebase(vals, bind, catches, b0, b1, c0, cs, EvalD(n, e, d0, cs), r);
    }

    method EvalBranch(ghost n: nat, v: Val, a: Expr, b: seq<Expr>, ghost cs: seq<Mark>) returns (r: Signal)
      requires Ready(bind, catches, cs) && !BranchD(n, v, a, b, Seen(), cs).NoClaim?
      modifies this
      ensures Ends(old(bind), old(catches), cs, old(BranchD(n, v, a, b, Seen(), cs)), r)
      decreases n, 2
    {
      hide Ready, Same, View, Post, EvalD, BodyD;
      if v == Nil {
        r := EvalBody(n, b, cs);
      } else {
        StoreKeeps(vals, bind, catches, cs, AT, v);
        SetVal(AT, v);
        r := EvalExpr(n, a, cs);
      }
    }

    method EvalCall(ghost n: nat, e: Expr, ghost cs: seq<Mark>) returns (r: Signal)
      requires e.Call? && Ready(bind, catches, cs) && !EvalD(n, e, Seen(), cs).NoClaim?
      modifies this
      ensures Ends(old(bind), old(catches), cs, old(EvalD(n, e, Seen(), cs)), r)
      decreases n, 0, 0
    {
      ghost var b0, c0, d0 := bind, catches, Seen();
      ghost var o := EvalD(n - 1, e.f, Seen(), cs);
      hide Ready, Same, View, Post, CallD;
      r := EvalExpr(n - 1, e.f, cs);
      if r.Jump? {
        Jumping(vals, bind, catches, b0, c0, cs, o, r);
        return;
      }
      Normal(vals, bind, catches, b0, c0, cs, o, r);
      ghost var b1 := bind;
      r := EvExpr(n - 1, r.v, e.args, cs);
      Rebase(vals, bind, catches, b0, b1, c0, cs, EvalD(n, e, d0, cs), r);
    }

    // evExpr: a call of a function.
    method EvExpr(ghost n: nat, f: Val, args: seq<Expr>, ghost cs: seq<Mark>) returns (r: Signal)
      requires f.Fun? && DistinctSyms(CallSyms(f)) && Ready(bind, catches, cs)
               && !CallD(n, f, args, Seen(), cs).NoClaim?
      modifies this
      ensures Ends(old(bind), old(catches), cs, old(CallD(n, f, args, Seen(), cs)), r)
      decreases n, 2
    {
      ghost var b0, c0, d0, at := bind, catches, Seen(), Get(vals, AT);
      StartFilling(vals, bind, catches, cs, f, at);
      hide Ready, Same, View, Post, ArgsD, BodyD, Filling, LeaveD;
      bind := [BindFrame(|f.formals| + 1, [Entry(AT, Get(vals, AT))])] + bind;
      ghost var values;
      r, values := EvalArgs(n, f, args, b0, at, cs);
      if r.Jump? {
        return;
      }
      ghost var d1, b1 := Seen(), bind[1..];
      ghost var top := Deep([CallFrame(f, at, values, args)] + d1.frames, d1.globals);
      Activate(f, args, b0, at, values, cs);
      ghost var body := BodyD(n, f.body, top, cs);
      ghost var b2 := bind;
      r := EvalBody(n, f.body, cs);
      if r.Jump? {
        JumpOut(vals, bind, catches, b0, b2, c0, cs, body, r);
        return;
      }
      LeaveFrame(vals, bind, catches, b0, b2, c0, cs, body, r);
      Unbind();
    }

    // With the arguments evaluated, the rest symbol gets the other ones and the frame is swapped in.
    method Activate(f: Val, args: seq<Expr>, ghost b0: seq<BindFrame>, ghost at: Val, ghost values: seq<Val>,
                    ghost cs: seq<Mark>)
      requires f.Fun? && DistinctSyms(CallSyms(f)) && Filling(bind, catches, b0, catches, cs, f, at, values)
               && |values| == |f.formals|
      modifies `vals, `bind
      ensures Seen() == Deep([CallFrame(f, at, values, args)] + old(Seen()).frames, old(Seen()).globals)
      ensures bind != [] && InForce(bind[0]) && Same(b0, bind[1..]) && Ready(bind, catches, cs)
      ensures |b0| <= |bind| && Same(b0, Below(bind, |b0|))
    {
      ghost var frame, rest, v0 := CallFrame(f, at, values, args), bind[1..], vals;
      FillingReady(bind, catches, b0, catches, cs, f, at, values);
      ActivateShows(vals, rest, f, at, values, args);
      SwapsIn(bind, catches, b0, cs, f, at, values, args, v0);
      hide Ready, Same, View, Over, Own, Entries, CallFrame, Filled, Distinct, Filling, InForce;
      SwapCall(f.rest, RestArgs(args, |f.formals|));
      assert bind == [BindFrame(0, Own(v0, frame))] + rest;
    }

    method SwapCall(rest: Rest, x: Val)
      requires bind != [] && Distinct(bind[0].bnd + RestEntry(vals, rest))
      modifies `vals, `bind
      ensures (var v := RestPut(old(vals), rest, x); var bnd := old(bind)[0].bnd;
               && vals == Over(v, bnd)
               && bind == [BindFrame(0, Own(v, bnd) + RestEntry(old(vals), rest))] + old(bind)[1..])
    {
      ghost var bnd := bind[0].bnd;
      var n := |bind[0].bnd|;
      ghost var more := bnd + RestEntry(vals, rest);
      assert more[..n] == bnd && more[n..] == RestEntry(vals, rest);
      if rest.RestIn? {
        bind := bind[0 := BindFrame(bind[0].i, bind[0].bnd + [Entry(rest.s, Get(vals, rest.s))])];
        SetVal(rest.s, x);
      } else {
        assert more == bnd;
      }
      SwapDown(0, n);
      bind := bind[0 := BindFrame(0, bind[0].bnd)];
    }

    // The loop that evaluates the arguments of a call into its frame.
    method EvalArgs(ghost n: nat, f: Val, args: seq<Expr>, ghost b0: seq<BindFrame>, ghost at: Val, ghost cs: seq<Mark>)
      returns (r: Signal, ghost values: seq<Val>)
      requires f.Fun? && DistinctSyms(CallSyms(f)) && Filling(bind, catches, b0, catches, cs, f, at, [])
      requires match ArgsD(n, args, |f.formals|, Seen(), cs)
               case Values(_, _) => true
               case Other(o) => !o.NoClaim?
      modifies this
      ensures match old(ArgsD(n, args, |f.formals|, Seen(), cs))
              case Values(vs, d) => r.Ret? && values == vs && Seen() == d
                                    && Filling(bind, catches, b0, old(catches), cs, f, at, values)
              case Other(o) => r.Jump? && Ends(b0, old(catches), cs, o, r)
      decreases n, 1
    {
      hide Ready, Same, View, Post, Filling;
      ghost var c0, total := catches, ArgsD(n, args, |f.formals|, Seen(), cs);
      var j := 0;
      var x := args;
      values := [];
      r := Ret(Nil);
      while j < |f.formals|
        invariant 0 <= j == |values| <= |f.formals| && r.Ret? && Filling(bind, catches, b0, c0, cs, f, at, values)
        invariant Continues(total, values, ArgsD(n, x, |f.formals| - j, Seen(), cs))
      {
        ghost var o := ArgOutcome(n, x, Seen(), cs);
        ArgsNext(total, values, n, x, |f.formals| - j, Seen(), cs);
        r := EvalArg(n, f, x, b0, c0, at, values, cs);
        if r.Jump? {
          return;
        }
        FillMore(vals, bind, catches, b0, c0, cs, f, at, values, r.v);
        bind := bind[0 := BindFrame(bind[0].i, bind[0].bnd + [Entry(f.formals[j], r.v)])];
        values := values + [r.v];
        x := if x == [] then [] else x[1..];
        j := j + 1;
      }
    }

    // The value of the next argument, NIL if there is none.
    method EvalArg(ghost n: nat, f: Val, x: seq<Expr>, ghost b0: seq<BindFrame>, ghost c0: seq<CatchFrame>,
                   ghost at: Val,
                   ghost values: seq<Val>, ghost cs: seq<Mark>)
      returns (r: Signal)
      requires f.Fun? && DistinctSyms(CallSyms(f)) && Filling(bind, catches, b0, c0, cs, f, at, values)
      requires !ArgOutcome(n, x, Seen(), cs).NoClaim?
      modifies this
      ensures (var o := old(ArgOutcome(n, x, Seen(), cs));
               if r.Ret? then o == Done(r.v, Seen()) && Filling(bind, catches, b0, c0, cs, f, at, values)
               else o.Thrown? && Ends(b0, c0, cs, o, r))
      decreases n, 0, 2
    {
      if x == [] {
        return Ret(Nil);
      }
      ghost var b1, o := bind, EvalD(n, x[0], Seen(), cs);
      FillingReady(bind, catches, b0, c0, cs, f, at, values);
      hide Ready, Same, View, Post, Filling;
      r := EvalExpr(n, x[0], cs);
      if r.Jump? {
        JumpOut(vals, bind, catches, b0, b1, c0, cs, o, r);
      } else {
        FillingKept(vals, bind, catches, b0, b1, c0, cs, f, at, values, o, r);
      }
    }

    // let: each symbol is saved and then given the value of its expression.
    method EvalLet(ghost n: nat, binds: seq<Init>, body: seq<Expr>, ghost cs: seq<Mark>) returns (r: Signal)
      requires binds != [] && DistinctSyms(InitSyms(binds)) && Ready(bind, catches, cs)
               && !LetD(n, binds, 0, body, Seen(), cs).NoClaim?
      modifies this
      ensures Ends(old(bind), old(catches), cs, old(LetD(n, binds, 0, body, Seen(), cs)), r)
      decreases n, 2
    {
      ghost var b0, c0, o := bind, catches, LetD(n, binds, 0, body, Seen(), cs);
      ghost var syms := InitSyms(binds);
      StartSaving(vals, bind, catches, cs, syms);
      hide Ready, Same, View, Post, Saving, EvalD, BodyD, BindMore;
      bind := [BindFrame(0, [])] + bind;
      var k := 0;
      while k < |binds|
        invariant 0 <= k <= |binds| && Saving(bind, catches, b0, c0, cs, syms, k)
                  && LetD(n, binds, k, body, Seen(), cs) == o
      {
        SaveOne(vals, bind, catches, b0, c0, cs, syms, k);
        Save(binds[k].s);
        ghost var b1 := bind;
        ghost var x := EvalD(n, binds[k].x, Seen(), cs);
        r := EvalExpr(n, binds[k].x, cs);
        if r.Jump? {
          JumpOut(vals, bind, catches, b0, b1, c0, cs, x, r);
          return;
        }
        SavingKept(vals, bind, catches, b0, b1, c0, cs, syms, k + 1, x, r);
        StoreKeeps(vals, bind, catches, cs, binds[k].s, r.v);
        SetVal(binds[k].s, r.v);
        k := k + 1;
      }
      r := EvalWithin(n, body, b0, syms, cs);
    }

    // Saving a symbol's value in the newest frame.
    method Save(s: Sym)
      requires bind != []
      modifies `bind
      ensures bind == [BindFrame(old(bind)[0].i, old(bind)[0].bnd + [Entry(s, Get(vals, s))])] + old(bind)[1..]
    {
      bind := bind[0 := BindFrame(bind[0].i, bind[0].bnd + [Entry(s, Get(vals, s))])];
    }

    // The body of a let or a use, with the frame for it in force, and its end.
    method EvalWithin(ghost n: nat, body: seq<Expr>, ghost b0: seq<BindFrame>, ghost syms: seq<Sym>,
                      ghost cs: seq<Mark>) returns (r: Signal)
      requires syms != [] && DistinctSyms(syms) && Saving(bind, catches, b0, catches, cs, syms, |syms|)
      requires !LeaveD(BodyD(n, body, Seen(), cs)).NoClaim?
      modifies this
      ensures Ends(b0, old(catches), cs, old(LeaveD(BodyD(n, body, Seen(), cs))), r)
      decreases n, 1, 2
    {
      ghost var c0, b1, o := catches, bind, BodyD(n, body, Seen(), cs);
      SavingReady(bind, catches, b0, catches, cs, syms, |syms|);
      hide Ready, Same, View, Post, Saving, EvalD, BodyD, InForce;
      r := EvalBody(n, body, cs);
      if r.Jump? {
        JumpOut(vals, bind, catches, b0, b1, c0, cs, o, r);
        return;
      }
      LeaveFrame(vals, bind, catches, b0, b1, c0, cs, o, r);
      Unbind();
    }

    // use: the symbols are saved and keep their values.
    method EvalUse(ghost n: nat, e: Expr, ghost cs: seq<Mark>) returns (r: Signal)
      requires e.Use? && Ready(bind, catches, cs) && !EvalD(n, e, Seen(), cs).NoClaim?
      modifies this
      ensures Ends(old(bind), old(catches), cs, old(EvalD(n, e, Seen(), cs)), r)
      decreases n, 0, 0
    {
      ghost var b0, c0 := bind, catches;
      StartSaving(vals, bind, catches, cs, e.syms);
      hide Ready, Same, View, Post, Saving, BodyD, Own;
      bind := [BindFrame(0, [])] + bind;
      var k := 0;
      assert AllSaved(vals, bind[0].bnd, e.syms, 0);
      while k < |e.syms|
        invariant 0 <= k <= |e.syms| && Saving(bind, catches, b0, c0, cs, e.syms, k)
                  && bind == [BindFrame(0, bind[0].bnd)] + b0
        invariant AllSaved(vals, bind[0].bnd, e.syms, k) && vals == old(vals)
      {
        SaveOne(vals, bind, catches, b0, c0, cs, e.syms, k);
        Save(e.syms[k]);
        k := k + 1;
      }
      UseShows(vals, b0, bind[0].bnd, e.syms);
      r := EvalWithin(n - 1, e.body, b0, e.syms, cs);
    }

    // Data evaluated as an expression.
    method EvalCode(ghost n: nat, v: Val, ghost cs: seq<Mark>) returns (r: Signal)
      requires Ready(bind, catches, cs) && !CodeD(n, v, Seen(), cs).NoClaim?
      modifies this
      ensures Ends(old(bind), old(catches), cs, old(CodeD(n, v, Seen(), cs)), r)
      decreases n, 1
    {
      SameSelf(bind);
      match v {
        case Code(e) => r := EvalExpr(n, e, cs);
        case _ => return Ret(v);
      }
    }

    // (eval any n)
    method EvalEval(ghost n: nat, e: Expr, ghost cs: seq<Mark>) returns (r: Signal)
      requires e.Eval? && Ready(bind, catches, cs) && !EvalD(n, e, Seen(), cs).NoClaim?
      modifies this
      ensures Ends(old(bind), old(catches), cs, old(EvalD(n, e, Seen(), cs)), r)
      decreases n, 0, 0
    {
      hide Ready, Same, View, Post, EvalD, CountedD;
      EvalIs(n, e, Seen(), cs);
      ghost var b0, c0, whole := bind, catches, EvalD(n, e, Seen(), cs);
      ghost var o := EvalD(n - 1, e.x, Seen(), cs);
      r := EvalExpr(n - 1, e.x, cs);
      if r.Jump? {
        Jumping(vals, bind, catches, b0, c0, cs, o, r);
        return;
      }
      Normal(vals, bind, catches, b0, c0, cs, o, r);
      ghost var b1 := bind;
      ghost var c := EvalD(n - 1, e.cnt, Seen(), cs);
      var cnt := EvalExpr(n - 1, e.cnt, cs);
      Rebase(vals, bind, catches, b0, b1, c0, cs, c, cnt);
      if cnt.Jump? {
        Jumping(vals, bind, catches, b0, c0, cs, c, cnt);
        return cnt;
      }
      Normal(vals, bind, catches, b0, c0, cs, c, cnt);
      ghost var b2 := bind;
      r := EvalCounted(n - 1, r.v, cnt.v, cs);
      Rebase(vals, bind, catches, b0, b2, c0, cs, whole, r);
    }

    // The value of the first argument, and that of the second.
    method EvalCounted(ghost n: nat, v: Val, cnt: Val, ghost cs: seq<Mark>) returns (r: Signal)
      requires Ready(bind, catches, cs) && !CountedD(n, v, cnt, Seen(), cs).NoClaim?
      modifies this
      ensures Ends(old(bind), old(catches), cs, old(CountedD(n, v, cnt, Seen(), cs)), r)
      decreases n, 3
    {
      hide Ready, View, Post, CodeD, WithoutFrames;
      if cnt.Num? {
        r := EvalOutside(n, v, cnt.n, cs);
      } else {
        r := EvalCode(n, v, cs);
      }
    }

    // Evaluation without the frames of the cnt newest calls.
    method EvalOutside(ghost n: nat, v: Val, cnt: int, ghost cs: seq<Mark>) returns (r: Signal)
      requires cnt > 0 && Ready(bind, catches, cs) && !WithoutFrames(n, v, cnt, Seen()).NoClaim?
      modifies this
      ensures Ends(old(bind), old(catches), cs, old(WithoutFrames(n, v, cnt, Seen())), r)
      decreases n, 2
    {
      ghost var b0, c0, d := bind, catches, Seen();
      if bind == [] {
        OutsideAll(vals, catches);
        r := EvalCode(n, v, []);
        return;
      }
      hide Ready, Same, View, Post, CodeD, Extent, HidingOn, ShowingOn, WasHidden, Depth;
      ReadyDistinct(bind, catches, cs);
      ghost var v0 := vals;
      var passed := HideFrames(cnt);
      HidesCalls(v0, b0, d, cnt);
      ghost var hidden := bind;
      AfterHiding(b0, d, cnt, vals, bind, passed, catches);
      bind := [BindFrame(0, [])] + bind;
      ghost var b1, inner := bind, CodeD(n, v, Seen(), []);
      r := EvalCode(n, v, []);
      BeforeShowing(b0, d, cnt, hidden, passed, vals, bind, catches, b1, c0, inner, r);
      bind := bind[1..];
      ghost var b2, d2 := bind, Seen();
      ShowsCalls(b0, d, cnt, b2, d2, passed, vals, bind, passed);
      ShowFrames(passed, cnt);
      AfterShowing(b0, d, b2, d2, passed, vals, bind, catches, cs, r);
    }

    method EvalCatch(ghost n: nat, e: Expr, ghost cs: seq<Mark>) returns (r: Signal)
      requires e.Catch? && Ready(bind, catches, cs) && !EvalD(n, e, Seen(), cs).NoClaim?
      modifies this
      ensures Ends(old(bind), old(catches), cs, old(EvalD(n, e, Seen(), cs)), r)
      decreases n, 0, 0
    {
      ghost var b0, c0, whole := bind, catches, EvalD(n, e, Seen(), cs);
      ghost var o := EvalD(n - 1, e.tag, Seen(), cs);
      hide Ready, Same, View, Post, BodyD;
      r := EvalExpr(n - 1, e.tag, cs);
      if r.Jump? {
        Jumping(vals, bind, catches, b0, c0, cs, o, r);
        return;
      }
      Normal(vals, bind, catches, b0, c0, cs, o, r);
      ghost var b1, d1 := bind, Seen();
      ghost var cs' := [Mark(r.v, |Seen().frames|)] + cs;
      EnterCatch(vals, bind, r.v, catches, cs);
      var level := |catches|;
      catches := [CatchFrame(r.v, |bind|)] + catches;
      ghost var c1, tag := catches, r.v;
      r := EvalBody(n - 1, e.body, cs');
      LeaveCatch(vals, bind, catches, b1, c0, c1, cs, cs', BodyD(n - 1, e.body, d1, cs'), r, level);
      if r == Jump(level, r.v) {
        r := Ret(r.v);
      } else if r.Ret? {
        catches := catches[1..];
      }
      Rebase(vals, bind, catches, b0, b1, c0, cs, whole, r);
    }

    method EvalThrow(ghost n: nat, e: Expr, ghost cs: seq<Mark>) returns (r: Signal)
      requires e.Throw? && Ready(bind, catches, cs) && !EvalD(n, e, Seen(), cs).NoClaim?
      modifies this
      ensures Ends(old(bind), old(catches), cs, old(EvalD(n, e, Seen(), cs)), r)
      decreases n, 0, 0
    {
      ghost var b0, c0, whole := bind, catches, EvalD(n, e, Seen(), cs);
      ghost var o := EvalD(n - 1, e.tag, Seen(), cs);
      hide Ready, Same, View, Post, Truncate;
      var tag := EvalExpr(n - 1, e.tag, cs);
      if tag.Jump? {
        Jumping(vals, bind, catches, b0, c0, cs, o, tag);
        return tag;
      }
      Normal(vals, bind, catches, b0, c0, cs, o, tag);
      ghost var b1 := bind;
      r := ThrowTo(n - 1, tag.v, e.x, cs);
      Rebase(vals, bind, catches, b0, b1, c0, cs, whole, r);
    }

    // The value to be thrown, and the throw.
    method ThrowTo(ghost n: nat, tag: Val, e: Expr, ghost cs: seq<Mark>) returns (r: Signal)
      requires IsTag(tag) && Ready(bind, catches, cs) && !ThrowD(n, tag, e, Seen(), cs).NoClaim?
      modifies this
      ensures Ends(old(bind), old(catches), cs, old(ThrowD(n, tag, e, Seen(), cs)), r)
      decreases n, 1
    {
      ghost var b0, c0, whole := bind, catches, ThrowD(n, tag, e, Seen(), cs);
      ghost var x := EvalD(n, e, Seen(), cs);
      hide Ready, Same, View, Post, Truncate, IsTag;
      r := EvalExpr(n, e, cs);
      if r.Jump? {
        Jumping(vals, bind, catches, b0, c0, cs, x, r);
        return;
      }
      Normal(vals, bind, catches, b0, c0, cs, x, r);
      ghost var b1 := bind;
      r := Unwind(tag, r.v, cs);
      Rebase(vals, bind, catches, b0, b1, c0, cs, whole, r);
    }

    // throw: the newest catch for the tag, and what unwind does on the way to it.
    method Unwind(tag: Val, v: Val, ghost cs: seq<Mark>) returns (r: Signal)
      requires Ready(bind, catches, cs) && CatchFor(cs, tag) < |cs|
      modifies this
      ensures (var j := CatchFor(cs, tag);
               Ends(old(bind), old(catches), cs, Thrown(|cs| - 1 - j, v, Truncate(old(Seen()), cs[j].height)), r))
    {
      ghost var b0, c0, d, j := bind, catches, Seen(), CatchFor(cs, tag);
      StartUnwinding(vals, bind, catches, cs, j);
      ReadyDistinct(bind, catches, cs);
      hide AllDistinct, View, Post, Depth, Unwinding, Truncate, Ready;
      var p := FindCatch(tag, cs);
      var level := |catches| - 1 - p;
      UnwindTo(level, b0, c0, cs, d, j);
      ThrownTo(b0, c0, cs, d, j, vals, bind, v);
      return Jump(level, v);
    }

    // unwind: catch by catch, to the one that has level others around it.
    method UnwindTo(level: nat, ghost b0: seq<BindFrame>, ghost c0: seq<CatchFrame>, ghost cs: seq<Mark>, ghost d: Deep,
                    ghost j: nat)
      requires |cs| <= |c0| && j < |cs| && level == |c0| - 1 - j && catches == c0
               && AllDistinct(b0) && Unwinding(b0, c0, cs, d, 0, j, vals, bind)
      modifies this
      ensures catches == c0[j..][1..] && Unwinding(b0, c0, cs, d, j, j, vals, bind) && |bind| == c0[j].height
    {
      hide AllDistinct, View, Depth, Unwinding;
      ghost var q := 0;
      while |catches| > level + 1
        invariant 0 <= q <= j && catches == c0[q..] && Unwinding(b0, c0, cs, d, q, j, vals, bind)
        decreases |catches|
      {
        PopTo(b0, c0, cs, d, q, j);
        catches := catches[1..];
        q := q + 1;
      }
      PopTo(b0, c0, cs, d, j, j);
      catches := catches[1..];
    }

    // The newest catch that is for the tag.
    method FindCatch(tag: Val, ghost cs: seq<Mark>) returns (p: nat)
      requires Ready(bind, catches, cs) && CatchFor(cs, tag) < |cs|
      ensures p == CatchFor(cs, tag) && p < |catches|
    {
      SameTags(bind, catches, cs);
      hide Ready;
      p := 0;
      while catches[p].tag != Code(Var(TRUE)) && catches[p].tag != tag
        invariant 0 <= p <= CatchFor(cs, tag)
        decreases CatchFor(cs, tag) - p
      {
        p := p + 1;
      }
    }

    // The frames above the height of the newest catch are unbound.
    method PopTo(ghost b0: seq<BindFrame>, ghost c0: seq<CatchFrame>, ghost cs: seq<Mark>, ghost d: Deep, ghost q: nat,
                 ghost j: nat)
      requires q <= j < |cs| <= |c0| && catches == c0[q..] && Unwinding(b0, c0, cs, d, q, j, vals, bind)
      requires AllDistinct(b0)
      modifies `vals, `bind
      ensures Unwinding(b0, c0, cs, d, if q < j then q + 1 else q, j, vals, bind) && |bind| == c0[q].height
    {
      hide View, Depth, Unwinding, Unwound;
      LeavesFrames(b0, c0, cs, d, q, j, vals, bind);
      UnwindingDistinct(b0, c0, cs, d, q, j, vals, bind);
      LeaveTo(catches[0].height);
      NextCatch(b0, c0, cs, d, q, j, vals, bind);
    }

    // The frames above the height of a catch are left; those that have been swapped out are swapped in
    // first.
    method LeaveTo(height: nat)
      requires AllDistinct(bind)
      modifies `vals, `bind
      ensures (vals, bind) == Unwound(old(vals), old(bind), height)
    {
      hide AllDistinct, Rescued;
      while bind != []
        invariant AllDistinct(bind) && Unwound(vals, bind, height) == Unwound(old(vals), old(bind), height)
        decreases |bind|
      {
        RescuedDistinct(vals, bind);
        RescueFrames();
        if |bind| == height {
          break;
        }
        RestDistinct(bind);
        if bind[0].i == 0 {
          PutBack(bind[0].bnd);
        }
        bind := bind[1..];
      }
    }

    // If the newest frame has been swapped out, as many calls as its count says are looked for, and the
    // frames up to there are swapped in.
    method RescueFrames()
      requires bind != [] && AllDistinct(bind)
      modifies `vals, `bind
      ensures (vals, bind) == Rescued(old(vals), old(bind))
    {
      var i := bind[0].i;
      if i < 0 {
        var j, n := i + 1, 1;
        while j != 0 && n < |bind|
          invariant 1 <= n <= |bind| && j <= 0
          invariant n + Scan(bind[n..], i, j) == 1 + Scan(bind[1..], i, i + 1)
          decreases |bind| - n
        {
          var f := bind[n];
          assert bind[n..][0] == f && bind[n..][1..] == bind[n + 1..];
          if f.i >= 0 || f.i < i {
            j := j - 1;
          }
          n, j := n + 1, j + 1;
        }
        BackFrames(i, n);
      }
    }

    method BackFrames(i: int, n: nat)
      requires n <= |bind| && i < 0 && AllDistinct(bind)
      modifies `vals, `bind
      ensures (vals, bind) == BackIn(old(vals), old(bind), i, n)
    {
      ghost var b0, v0 := bind, vals;
      hide BackIn, AllDistinct;
      BackStart(v0, b0, i, n);
      var k := n;
      while k > 0
        invariant 0 <= k <= n && BackOn(v0, b0, i, n, vals, bind, k)
      {
        k := k - 1;
        BackNext(v0, b0, i, n, vals, bind, k);
        BackFrame(k, i);
      }
      BackDone(v0, b0, i, n, vals, bind);
    }

    // One frame: its count is raised, to 0 at most, and then it is swapped in.
    method BackFrame(k: nat, i: int)
      requires k < |bind| && i < 0 && Distinct(bind[k].bnd)
      modifies `vals, `bind
      ensures vals == (if i <= old(bind)[k].i < 0 then Over(old(vals), old(bind)[k].bnd) else old(vals))
      ensures bind == old(bind)[k := BackInFrame(old(vals), old(bind)[k], i)]
    {
      ghost var f := bind[k];
      if bind[k].i < 0 {
        var c := bind[k].i - i;
        if c > 0 {
          c := 0;
        }
        bind := bind[k := BindFrame(c, bind[k].bnd)];
        if c == 0 {
          SwapDown(k, |bind[k].bnd|);
          assert f.bnd[..|f.bnd|] == f.bnd && f.bnd[|f.bnd|..] == [];
          assert Own(old(vals), f.bnd) + [] == Own(old(vals), f.bnd);
        }
      } else {
        assert bind[k := f] == bind;
      }
    }
  }

  lemma {:induction false} SameSelf(b: seq<BindFrame>)
    ensures Same(b, b)
  {
  }

  // An evaluation that began with frames that were those of b0, but for saved values.
  lemma {:induction false} Rebase(vals: Vals, bind: seq<BindFrame>, catches: seq<CatchFrame>, b0: seq<BindFrame>,
                                  b1: seq<BindFrame>, c0: seq<CatchFrame>, cs: seq<Mark>, o: Outcome, r: Signal)
    requires Post(vals, bind, catches, b1, c0, cs, o, r) && Same(b0, b1) && Ready(b1, c0, cs)
    ensures Post(vals, bind, catches, b0, c0, cs, o, r)
  {
    SameBack(b0, b1);
    ReadySame(b1, b0, c0, cs);
    match o
    case Done(_, _) => SameTrans(b0, b1, bind);
    case Thrown(_, _, _) => {
      assert Below(b1, |b0|) == b1;
      Outwards(vals, bind, catches, b0, b1, c0, cs, o, r);
    }
    case NoClaim =>
  }

  // After a value: the frames and the catches are as they were.
  lemma {:induction false} Normal(vals: Vals, bind: seq<BindFrame>, catches: seq<CatchFrame>, b0: seq<BindFrame>,
                                  c0: seq<CatchFrame>, cs: seq<Mark>, o: Outcome, r: Signal)
    requires Post(vals, bind, catches, b0, c0, cs, o, r) && !o.NoClaim? && r.Ret? && Ready(b0, c0, cs)
    ensures o.Done? && o.v == r.v && o.d == View(vals, bind) && Same(b0, bind) && catches == c0
            && Ready(bind, catches, cs) && AllDistinct(bind)
  {
    ReadySame(b0, bind, c0, cs);
  }

  lemma {:induction false} Jumping(vals: Vals, bind: seq<BindFrame>, catches: seq<CatchFrame>, b0: seq<BindFrame>,
                                   c0: seq<CatchFrame>, cs: seq<Mark>, o: Outcome, r: Signal)
    requires Post(vals, bind, catches, b0, c0, cs, o, r) && !o.NoClaim? && r.Jump?
    ensures o.Thrown?
  {
  }

  lemma {:induction false} OnlyFirst(vals: Vals, bind: seq<BindFrame>, catches: seq<CatchFrame>, b0: seq<BindFrame>,
                                     c0: seq<CatchFrame>,
                                     cs: seq<Mark>, n: nat, x: seq<Expr>, first: Outcome, o: Outcome, r: Signal)
    requires Post(vals, bind, catches, b0, c0, cs, first, r) && !first.NoClaim? && x != []
    requires r.Jump? || |x| == 1
    ensures first.Thrown? || |x| == 1
  {
  }

  // Storing a value leaves the frames as they are.
  lemma {:induction false} StoreKeeps(vals: Vals, bind: seq<BindFrame>, catches: seq<CatchFrame>, cs: seq<Mark>, s: Sym,
                                      v: Val)
    requires Ready(bind, catches, cs)
    ensures View(Put(vals, s, v), bind) == Assign(View(vals, bind), s, v)
  {
    PutIsAssign(vals, bind, s, v);
  }

  // What the value of code is, without the lists of as many calls as cnt says if it is a number.
  ghost function CountedD(n: nat, v: Val, cnt: Val, d: Deep, cs: seq<Mark>): Outcome {
    if !cnt.Num? then CodeD(n, v, d, cs) else if cnt.n < 1 then NoClaim else WithoutFrames(n, v, cnt.n, d)
  }

  lemma {:induction false} EvalIs(n: nat, e: Expr, d: Deep, cs: seq<Mark>)
    requires e.Eval? && !EvalD(n, e, d, cs).NoClaim?
    ensures n > 0
    ensures (var o := EvalD(n - 1, e.x, d, cs);
             EvalD(n, e, d, cs)
             == if !o.Done? then o
                else (var c := EvalD(n - 1, e.cnt, o.d, cs);
                      if !c.Done? then c else CountedD(n - 1, o.v, c.v, c.d, cs)))
  {
    hide CodeD, Extent;
  }

  // What the value of code is without the lists of the cnt newest calls.
  ghost function WithoutFrames(n: nat, v: Val, cnt: int, d: Deep): Outcome
    requires cnt > 0
  {
    var m := Extent(d.frames, cnt);
    var r := CodeD(n, v, Deep(d.frames[m..], d.globals), []);
    if r.Done? then Done(r.v, Deep(d.frames[..m] + r.d.frames, r.d.globals)) else NoClaim
  }

  lemma {:induction false} OutsideAll(vals: Vals, catches: seq<CatchFrame>)
    ensures Ready([], catches, [])
    ensures (var d := View(vals, []); d.frames == [] && Deep(d.frames[0..], d.globals) == d)
  {
  }

  lemma {:induction false} ReadyDistinct(bind: seq<BindFrame>, catches: seq<CatchFrame>, cs: seq<Mark>)
    requires Ready(bind, catches, cs)
    ensures AllDistinct(bind)
  {
  }

  lemma {:induction false} AfterHiding(b0: seq<BindFrame>, d: Deep, cnt: int, vals: Vals, bind: seq<BindFrame>, n: nat,
                                       catches: seq<CatchFrame>)
    requires cnt > 0 && HidingOn(b0, d, cnt, vals, bind, n) && AllDistinct(b0)
             && Depth(b0[..n]) == Extent(d.frames, cnt)
    ensures (var more := [BindFrame(0, [])] + bind;
             Ready(more, catches, []) && View(vals, more) == Deep(d.frames[Extent(d.frames, cnt)..], d.globals))
  {
    HidingDistinct(b0, d, cnt, vals, bind, n);
    var more := [BindFrame(0, [])] + bind;
    assert more[1..] == bind;
    forall k | 0 <= k < |more| ensures Distinct(more[k].bnd) {
      if k > 0 {
        assert Distinct(bind[k - 1].bnd);
      }
    }
  }

  lemma {:induction false} BeforeShowing(b0: seq<BindFrame>, d: Deep, cnt: int, hidden: seq<BindFrame>, n: nat,
                                         vals: Vals, bind: seq<BindFrame>,
                                         catches: seq<CatchFrame>, b1: seq<BindFrame>, c0: seq<CatchFrame>,
                                           inner: Outcome, r: Signal)
    requires exists v: Vals :: HidingOn(b0, d, cnt, v, hidden, n)
    requires b1 == [BindFrame(0, [])] + hidden && cnt > 0 && 0 < n
    requires Post(vals, bind, catches, b1, c0, [], inner, r) && !inner.NoClaim?
    ensures bind != [] && r.Ret? && catches == c0 && inner == Done(r.v, View(vals, bind[1..]))
    ensures (var b2 := bind[1..]; var d2 := View(vals, b2);
             && n <= |b0| == |b2| && ShowingOn(b0, d, b2, d2, n, vals, b2, n) && KeptBeyond(b0, b2, n)
             && forall q :: 0 <= q < n ==> WasHidden(b0, d, cnt, b2, q))
  {
    var v: Vals :| HidingOn(b0, d, cnt, v, hidden, n);
    var b2 := bind[1..];
    assert Kept(b1[0], bind[0]);
    forall q | 0 <= q < |b0| ensures Kept(hidden[q], b2[q]) {
      assert Kept(b1[q + 1], bind[q + 1]);
    }
    forall q | 0 <= q < n ensures WasHidden(b0, d, cnt, b2, q) && !InForce(b2[q]) {
      assert Hidden(b0[q], hidden[q], cnt, OwnAt(d.frames, Depth(b0[..q])));
      assert Kept(hidden[q], b2[q]);
      assert !InForce(hidden[..n][q]);
      DepthUpTo(b0, q, n);
    }
    forall q | n <= q < |b0| ensures Kept(b0[q], b2[q]) {
      assert hidden[n..][q - n] == b0[n..][q - n];
      assert Kept(hidden[q], b2[q]);
    }
    assert d.frames[Depth(b0[..n])..Depth(b0[..n])] == [];
    var d2 := View(vals, b2);
    assert [] + d2.frames == d2.frames;
  }

  // The frames below the n newest ones are as before but for saved values.
  ghost predicate KeptBeyond(b0: seq<BindFrame>, b2: seq<BindFrame>, n: nat) {
    |b0| == |b2| && forall q :: n <= q < |b0| ==> Kept(b0[q], b2[q])
  }

  lemma {:induction false} DepthUpTo(b: seq<BindFrame>, q: nat, n: nat)
    requires q < n <= |b|
    ensures Depth(b[..q]) + (if InForce(b[q]) then 1 else 0) <= Depth(b[..n])
    decreases n
  {
    DepthNext(b, n - 1);
    if q < n - 1 {
      DepthUpTo(b, q, n - 1);
    }
  }

  lemma {:induction false} AfterShowing(b0: seq<BindFrame>, d: Deep, b2: seq<BindFrame>, d2: Deep, n: nat, vals: Vals,
                                        bind: seq<BindFrame>, catches: seq<CatchFrame>, cs: seq<Mark>, r: Signal)
    requires ShowingOn(b0, d, b2, d2, n, vals, bind, 0) && KeptBeyond(b0, b2, n) && r.Ret?
    ensures (var m := Depth(b0[..n]);
             Post(vals, bind, catches, b0, catches, cs, Done(r.v, Deep(d.frames[..m] + d2.frames, d2.globals)), r))
  {
    forall q | 0 <= q < |b0| ensures Kept(b0[q], bind[q]) {
      if q >= n {
        assert bind[n..][q - n] == b2[n..][q - n];
        assert Kept(b0[q], b2[q]);
      }
    }
    assert b0[..0] == [];
    assert d.frames[0..Depth(b0[..n])] == d.frames[..Depth(b0[..n])];
  }

  // ---------- catch and throw ----------

  lemma {:induction false} EnterCatch(vals: Vals, bind: seq<BindFrame>, tag: Val, catches: seq<CatchFrame>,
                                      cs: seq<Mark>)
    requires Ready(bind, catches, cs)
    ensures Ready(bind, [CatchFrame(tag, |bind|)] + catches, [Mark(tag, |View(vals, bind).frames|)] + cs)
    ensures |cs| <= |catches|
  {
    DepthIs(vals, bind);
    CatchNew(bind, tag, catches, cs);
  }

  lemma {:induction false} SameTags(bind: seq<BindFrame>, catches: seq<CatchFrame>, cs: seq<Mark>)
    requires Ready(bind, catches, cs)
    ensures |cs| <= |catches| && forall q :: 0 <= q < |cs| ==> catches[q].tag == cs[q].tag
  {
    forall q | 0 <= q < |cs| ensures catches[q].tag == cs[q].tag {
      assert Matches(bind, catches[q], cs[q]);
    }
  }

  // On the way from the frames b0 to the catch j: the frames left, and what they show.
  ghost predicate Unwinding(b0: seq<BindFrame>, c0: seq<CatchFrame>, cs: seq<Mark>, d: Deep, q: nat, j: nat, vals: Vals,
                            bind: seq<BindFrame>) {
    && q <= j < |cs| <= |c0| && CatchRel(b0, c0, cs) && |bind| <= |b0| && bind == Below(b0, |bind|)
       && c0[q].height <= |bind|
    && Depth(bind) <= |d.frames| && View(vals, bind) == Deep(d.frames[|d.frames| - Depth(bind)..], d.globals)
  }

  lemma {:induction false} StartUnwinding(vals: Vals, bind: seq<BindFrame>, catches: seq<CatchFrame>, cs: seq<Mark>,
                                          j: nat)
    requires Ready(bind, catches, cs) && j < |cs|
    ensures Unwinding(bind, catches, cs, View(vals, bind), 0, j, vals, bind)
  {
    assert Matches(bind, catches[0], cs[0]);
    assert Below(bind, |bind|) == bind;
    DepthIs(vals, bind);
    var d := View(vals, bind);
    assert d.frames[0..] == d.frames;
  }

  lemma {:induction false} InReach(b0: seq<BindFrame>, c0: seq<CatchFrame>, cs: seq<Mark>, d: Deep, q: nat, j: nat,
                                   vals: Vals, bind: seq<BindFrame>)
    requires Unwinding(b0, c0, cs, d, q, j, vals, bind)
    ensures c0[q].height <= |bind|
  {
  }

  // The newest frame is not swapped out; leaving it takes its list away.
  lemma {:induction false} UnwindOne(b0: seq<BindFrame>, c0: seq<CatchFrame>, cs: seq<Mark>, d: Deep, q: nat, j: nat,
                                     vals: Vals, bind: seq<BindFrame>)
    requires Unwinding(b0, c0, cs, d, q, j, vals, bind) && bind != [] && |bind| != c0[q].height
    ensures bind[0].i >= 0
    ensures Unwinding(b0, c0, cs, d, q, j, if bind[0].i == 0 then Over(vals, bind[0].bnd) else vals, bind[1..])
  {
    var f := bind[0];
    assert f == b0[|b0| - |bind|];
    assert c0[|cs| - 1].height <= c0[q].height;
    assert bind[1..] == Below(b0, |bind| - 1);
    if InForce(f) {
      PopShows(vals, bind);
      var m := |d.frames| - Depth(bind);
      assert d.frames[m..][1..] == d.frames[m + 1..];
    } else {
      NoEntries(vals, f.bnd);
    }
  }

  // No frame above the catch, and not the one at it, has been swapped out, so unwind only leaves them.
  lemma {:induction false} LeavesFrames(b0: seq<BindFrame>, c0: seq<CatchFrame>, cs: seq<Mark>, d: Deep, q: nat, j: nat,
                                        vals: Vals, bind: seq<BindFrame>)
    requires Unwinding(b0, c0, cs, d, q, j, vals, bind)
    ensures (var r := Unwound(vals, bind, c0[q].height);
             Unwinding(b0, c0, cs, d, q, j, r.0, r.1) && |r.1| == c0[q].height)
    decreases |bind|
  {
    InReach(b0, c0, cs, d, q, j, vals, bind);
    if bind != [] {
      NewestIn(b0, c0, cs, d, q, j, vals, bind);
      if |bind| != c0[q].height {
        UnwindOne(b0, c0, cs, d, q, j, vals, bind);
        hide Unwinding;
        LeavesFrames(b0, c0, cs, d, q, j, if bind[0].i == 0 then Over(vals, bind[0].bnd) else vals, bind[1..]);
      }
    }
  }

  lemma {:induction false} NewestIn(b0: seq<BindFrame>, c0: seq<CatchFrame>, cs: seq<Mark>, d: Deep, q: nat, j: nat,
                                    vals: Vals, bind: seq<BindFrame>)
    requires Unwinding(b0, c0, cs, d, q, j, vals, bind) && bind != []
    ensures bind[0].i >= 0
  {
    assert bind[0] == b0[|b0| - |bind|];
    assert c0[|cs| - 1].height <= c0[q].height;
  }

  lemma {:induction false} UnwindingDistinct(b0: seq<BindFrame>, c0: seq<CatchFrame>, cs: seq<Mark>, d: Deep, q: nat,
                                             j: nat, vals: Vals, bind: seq<BindFrame>)
    requires Unwinding(b0, c0, cs, d, q, j, vals, bind) && AllDistinct(b0)
    ensures AllDistinct(bind)
  {
    forall k | 0 <= k < |bind| ensures Distinct(bind[k].bnd) {
      assert bind[k] == b0[|b0| - |bind| + k];
    }
  }

  lemma {:induction false} RestDistinct(bind: seq<BindFrame>)
    requires AllDistinct(bind) && bind != []
    ensures AllDistinct(bind[1..])
  {
  }

  // What unwind makes of a frame.
  function BackInFrame(vals: Vals, f: BindFrame, i: int): BindFrame {
    if i <= f.i < 0 then BindFrame(0, Own(vals, f.bnd)) else if f.i < 0 then BindFrame(f.i - i, f.bnd) else f
  }

  // The frames from the k-th to the n-th have been brought back.
  ghost predicate BackOn(v0: Vals, b0: seq<BindFrame>, i: int, n: nat, vals: Vals, bind: seq<BindFrame>, k: nat) {
    && k <= n <= |b0| == |bind| && AllDistinct(b0) && bind[..k] == b0[..k]
    && (vals, bind[k..]) == BackIn(v0, b0[k..], i, n - k)
  }

  lemma {:induction false} BackStart(v0: Vals, b0: seq<BindFrame>, i: int, n: nat)
    requires n <= |b0| && AllDistinct(b0)
    ensures BackOn(v0, b0, i, n, v0, b0, n)
  {
  }

  lemma {:induction false} BackNext(v0: Vals, b0: seq<BindFrame>, i: int, n: nat, vals: Vals, bind: seq<BindFrame>,
                                    k: nat)
    requires BackOn(v0, b0, i, n, vals, bind, k + 1)
    ensures k < |bind| && Distinct(bind[k].bnd)
    ensures (var f := bind[k];
             BackOn(v0, b0, i, n, if i <= f.i < 0 then Over(vals, f.bnd) else vals,
                    bind[k := BackInFrame(vals, f, i)], k))
  {
    var f := bind[k];
    assert f == bind[..k + 1][k] == b0[k] && Distinct(b0[k].bnd);
    assert b0[k..][0] == f && b0[k..][1..] == b0[k + 1..];
    var more := bind[k := BackInFrame(vals, f, i)];
    assert more[k..] == [BackInFrame(vals, f, i)] + bind[k + 1..];
    assert more[..k] == bind[..k + 1][..k] == b0[..k];
    hide AllDistinct;
  }

  lemma {:induction false} BackDone(v0: Vals, b0: seq<BindFrame>, i: int, n: nat, vals: Vals, bind: seq<BindFrame>)
    requires BackOn(v0, b0, i, n, vals, bind, 0)
    ensures (vals, bind) == BackIn(v0, b0, i, n)
  {
    assert b0[0..] == b0 && bind[0..] == bind;
  }

  lemma {:induction false} RescuedDistinct(vals: Vals, bind: seq<BindFrame>)
    requires bind != [] && AllDistinct(bind)
    ensures AllDistinct(Rescued(vals, bind).1)
  {
    var i := bind[0].i;
    if i < 0 {
      BackInDistinct(vals, bind, i, 1 + Scan(bind[1..], i, i + 1));
    }
  }

  lemma {:induction false} BackInDistinct(vals: Vals, bind: seq<BindFrame>, i: int, n: nat)
    requires n <= |bind| && AllDistinct(bind)
    ensures AllDistinct(BackIn(vals, bind, i, n).1)
    decreases n
  {
    if n > 0 {
      RestDistinct(bind);
      BackInDistinct(vals, bind[1..], i, n - 1);
      var r := BackIn(vals, bind, i, n).1;
      var rest := BackIn(vals, bind[1..], i, n - 1).1;
      assert Distinct(bind[0].bnd) && r[1..] == rest;
      hide BackIn;
      forall k | 0 <= k < |r| ensures Distinct(r[k].bnd) {
        if k > 0 {
          assert r[k] == rest[k - 1] && Distinct(rest[k - 1].bnd);
        }
      }
    }
  }

  lemma {:induction false} NextCatch(b0: seq<BindFrame>, c0: seq<CatchFrame>, cs: seq<Mark>, d: Deep, q: nat, j: nat,
                                     vals: Vals, bind: seq<BindFrame>)
    requires Unwinding(b0, c0, cs, d, q, j, vals, bind)
    ensures Unwinding(b0, c0, cs, d, if q < j then q + 1 else q, j, vals, bind)
  {
  }

  lemma {:induction false} ThrownTo(b0: seq<BindFrame>, c0: seq<CatchFrame>, cs: seq<Mark>, d: Deep, j: nat, vals: Vals,
                                    bind: seq<BindFrame>, v: Val)
    requires Unwinding(b0, c0, cs, d, j, j, vals, bind) && |bind| == c0[j].height
    ensures Post(vals, bind, c0[j..][1..], b0, c0, cs, Thrown(|cs| - 1 - j, v, Truncate(d, cs[j].height)),
                 Jump(|c0| - 1 - j, v))
  {
    assert Matches(b0, c0[j], cs[j]);
    SameSelf(bind);
    assert c0[j..][1..] == c0[j + 1..];
    hide CatchRel, Depth, Same, Matches;
    TruncateIs(d, Depth(bind), View(vals, bind));
  }

  lemma {:induction false} TruncateIs(d: Deep, h: nat, v: Deep)
    requires h <= |d.frames| && v == Deep(d.frames[|d.frames| - h..], d.globals)
    ensures Truncate(d, h) == v
  {
    if |d.frames| == h {
      assert d.frames[0..] == d.frames;
    }
  }

  // The end of a catch: with a value, by a throw to it, or by one to a catch around it.
  lemma {:induction false} LeaveCatch(vals: Vals, bind: seq<BindFrame>, catches: seq<CatchFrame>, b1: seq<BindFrame>,
                                      c0: seq<CatchFrame>,
                                      c1: seq<CatchFrame>, cs: seq<Mark>, cs': seq<Mark>, o: Outcome, r: Signal,
                                        level: nat)
    requires c1 != [] && c1[1..] == c0 && c1[0].height == |b1| && |cs'| == |cs| + 1 && |cs| <= |c0| && level == |c0|
    requires Post(vals, bind, catches, b1, c1, cs', o, r) && !o.NoClaim?
    ensures (var whole := if o.Thrown? && o.level == |cs| then Done(o.v, o.d) else o;
             var r' := if r == Jump(level, r.v) then Ret(r.v) else r;
             && (r.Ret? ==> catches == c1)
             && Post(vals, bind, if r.Ret? then catches[1..] else catches, b1, c0, cs, whole, r'))
  {
    if o.Thrown? {
      var j := |cs'| - 1 - o.level;
      if o.level == |cs| {
        assert Below(b1, |b1|) == b1;
      } else {
        assert c1[j] == c0[j - 1];
        assert c1[j + 1..] == c0[j..];
      }
    }
  }

  // ---------- let and use ----------

  // A frame in force on top of b0 that holds the first k symbols.
  ghost predicate Saving(bind: seq<BindFrame>, catches: seq<CatchFrame>, b0: seq<BindFrame>, c0: seq<CatchFrame>,
                         cs: seq<Mark>, syms: seq<Sym>, k: nat) {
    && k <= |syms| && bind != [] && bind[0].i == 0 && |bind[0].bnd| == k
       && (forall j :: 0 <= j < k ==> bind[0].bnd[j].sym == syms[j])
    && Same(b0, bind[1..]) && catches == c0 && Ready(b0, c0, cs)
  }

  lemma {:induction false} StartSaving(vals: Vals, bind: seq<BindFrame>, catches: seq<CatchFrame>, cs: seq<Mark>,
                                       syms: seq<Sym>)
    requires Ready(bind, catches, cs)
    ensures (var more := [BindFrame(0, [])] + bind;
             Saving(more, catches, bind, catches, cs, syms, 0) && View(vals, more) == View(vals, bind)
               && more == [BindFrame(0, more[0].bnd)] + bind)
  {
    SameSelf(bind);
    assert ([BindFrame(0, [])] + bind)[1..] == bind;
  }

  lemma {:induction false} SavingReady(bind: seq<BindFrame>, catches: seq<CatchFrame>, b0: seq<BindFrame>,
                                       c0: seq<CatchFrame>, cs: seq<Mark>, syms: seq<Sym>, k: nat)
    requires Saving(bind, catches, b0, c0, cs, syms, k) && DistinctSyms(syms)
    ensures bind != [] && Ready(bind, catches, cs) && Same(b0, Below(bind, |b0|)) && |b0| <= |bind| && catches == c0
            && Ready(b0, c0, cs)
    ensures k > 0 ==> InForce(bind[0])
    ensures Same(b0, bind[1..])
  {
    ReadySame(b0, bind[1..], c0, cs);
    ReadyPush(bind[1..], bind[0], c0, cs);
    assert [bind[0]] + bind[1..] == bind;
  }

  // Saving one more symbol.
  lemma {:induction false} SaveOne(vals: Vals, bind: seq<BindFrame>, catches: seq<CatchFrame>, b0: seq<BindFrame>,
                                   c0: seq<CatchFrame>, cs: seq<Mark>, syms: seq<Sym>, k: nat)
    requires Saving(bind, catches, b0, c0, cs, syms, k) && DistinctSyms(syms) && k < |syms|
    ensures bind != [] && bind[0].i == 0
    ensures (var more := [BindFrame(0, bind[0].bnd + [Entry(syms[k], Get(vals, syms[k]))])] + bind[1..];
             && Saving(more, catches, b0, c0, cs, syms, k + 1)
                && View(vals, more) == BindMore(View(vals, bind), syms[k], k == 0)
             && Ready(more, catches, cs) && Same(b0, Below(more, |b0|)) && |b0| <= |more| && catches == c0
                && Ready(b0, c0, cs)
             && (AllSaved(vals, bind[0].bnd, syms, k) ==> AllSaved(vals, more[0].bnd, syms, k + 1)))
  {
    var more := [BindFrame(0, bind[0].bnd + [Entry(syms[k], Get(vals, syms[k]))])] + bind[1..];
    MoreShows(vals, bind, syms[k]);
    assert more[1..] == bind[1..];
    SavingReady(more, catches, b0, c0, cs, syms, k + 1);
  }

  lemma {:induction false} SavingKept(vals: Vals, bind: seq<BindFrame>, catches: seq<CatchFrame>, b0: seq<BindFrame>,
                                      b1: seq<BindFrame>,
                                      c0: seq<CatchFrame>, cs: seq<Mark>, syms: seq<Sym>, k: nat, o: Outcome, r: Signal)
    requires Saving(b1, c0, b0, c0, cs, syms, k) && DistinctSyms(syms) && Post(vals, bind, catches, b1, c0, cs, o, r)
             && !o.NoClaim? && r.Ret?
    ensures Saving(bind, catches, b0, c0, cs, syms, k) && o == Done(r.v, View(vals, bind)) && Ready(bind, catches, cs)
  {
    assert Kept(b1[0], bind[0]);
    assert Same(b1[1..], bind[1..]) by {
      forall k | 0 <= k < |b1| - 1 ensures Kept(b1[1..][k], bind[1..][k]) {
        assert Kept(b1[k + 1], bind[k + 1]);
      }
    }
    SameTrans(b0, b1[1..], bind[1..]);
    SavingReady(bind, catches, b0, c0, cs, syms, k);
  }

  // The first k symbols with the values they have.
  predicate AllSaved(vals: Vals, bnd: Bnd, syms: seq<Sym>, k: nat) {
    k <= |syms| && |bnd| == k && forall j :: 0 <= j < k ==> bnd[j] == Entry(syms[j], Get(vals, syms[j]))
  }

  lemma {:induction false} UseShows(vals: Vals, b0: seq<BindFrame>, bnd: Bnd, syms: seq<Sym>)
    requires AllSaved(vals, bnd, syms, |syms|) && syms != [] && DistinctSyms(syms)
    ensures (var d := View(vals, b0);
             View(vals, [BindFrame(0, bnd)] + b0)
             == Deep([seq(|syms|, i requires 0 <= i < |syms| => Entry(syms[i], Lookup(d, syms[i])))] + d.frames,
                     d.globals))
  {
    var d := View(vals, b0);
    forall i | 0 <= i < |syms| ensures Lookup(d, syms[i]) == Get(vals, syms[i]) {
      LookupIsValue(vals, b0, syms[i]);
    }
    assert seq(|syms|, i requires 0 <= i < |syms| => Entry(syms[i], Lookup(d, syms[i]))) == bnd == Own(vals, bnd);
    forall s ensures Get(Over(vals, bnd), s) == Get(vals, s) {
      GetOver(vals, bnd, s);
    }
    SameVals(Over(vals, bnd), vals);
    PushShows(vals, b0, bnd);
  }

  // ---------- calls ----------

  // The frame of a call on top of the frames b0, with the first values in it.
  ghost predicate Filling(bind: seq<BindFrame>, catches: seq<CatchFrame>, b0: seq<BindFrame>, c0: seq<CatchFrame>,
                          cs: seq<Mark>, f: Val, at: Val, values: seq<Val>)
    requires f.Fun?
  {
    && |values| <= |f.formals| && bind != []
    && bind[0] == BindFrame(|f.formals| + 1, Entries([AT] + f.formals[..|values|], [at] + values))
    && Same(b0, bind[1..]) && catches == c0 && Ready(b0, c0, cs)
  }

  // The rest of the arguments decides how the evaluation of all of them ends.
  ghost predicate Continues(total: Outcomes, done: seq<Val>, rest: Outcomes) {
    match rest
    case Values(vs, d) => total == Values(done + vs, d)
    case Other(o) => total == Other(o)
  }

  ghost function ArgOutcome(n: nat, x: seq<Expr>, d: Deep, cs: seq<Mark>): Outcome {
    if x == [] then Done(Nil, d) else EvalD(n, x[0], d, cs)
  }

  // One more argument: its own end is that of the whole, or its value comes first.
  lemma {:induction false} ArgsNext(total: Outcomes, done: seq<Val>, n: nat, x: seq<Expr>, k: nat, d: Deep,
                                    cs: seq<Mark>)
    requires k > 0 && Continues(total, done, ArgsD(n, x, k, d, cs))
    ensures (var o := ArgOutcome(n, x, d, cs);
             if o.Done? then Continues(total, done + [o.v], ArgsD(n, if x == [] then [] else x[1..], k - 1, o.d, cs))
             else total == Other(o))
  {
    var o := ArgOutcome(n, x, d, cs);
    if o.Done? {
      var rest := ArgsD(n, if x == [] then [] else x[1..], k - 1, o.d, cs);
      if rest.Values? {
        assert done + ([o.v] + rest.vals) == done + [o.v] + rest.vals;
      }
    }
  }

  lemma {:induction false} StartFilling(vals: Vals, bind: seq<BindFrame>, catches: seq<CatchFrame>, cs: seq<Mark>,
                                        f: Val, at: Val)
    requires f.Fun? && Ready(bind, catches, cs)
    ensures (var more := [BindFrame(|f.formals| + 1, [Entry(AT, at)])] + bind;
             Filling(more, catches, bind, catches, cs, f, at, []) && View(vals, more) == View(vals, bind))
    ensures Lookup(View(vals, bind), AT) == Get(vals, AT)
  {
    var more := [BindFrame(|f.formals| + 1, [Entry(AT, at)])] + bind;
    SameSelf(bind);
    assert more[1..] == bind;
    assert f.formals[..0] == [];
    assert Entries([AT], [at]) == [Entry(AT, at)];
    LookupIsValue(vals, bind, AT);
  }

  // The entry and the value of the rest symbol.
  function RestEntry(vals: Vals, rest: Rest): Bnd {
    if rest.RestIn? then [Entry(rest.s, Get(vals, rest.s))] else []
  }

  function RestPut(vals: Vals, rest: Rest, x: Val): Vals {
    if rest.RestIn? then Put(vals, rest.s, x) else vals
  }

  // The frame as the arguments leave it, without the rest symbol.
  function Filled(f: Val, at: Val, values: seq<Val>): Bnd
    requires f.Fun? && |values| == |f.formals|
  {
    Entries([AT] + f.formals, [at] + values)
  }

  lemma {:induction false} ActivateShows(vals: Vals, rest: seq<BindFrame>, f: Val, at: Val, values: seq<Val>,
                                         args: seq<Expr>)
    requires f.Fun? && DistinctSyms(CallSyms(f)) && |values| == |f.formals|
    ensures (var frame := CallFrame(f, at, values, args);
             View(Over(vals, frame), [BindFrame(0, Own(vals, frame))] + rest)
             == Deep([frame] + View(vals, rest).frames, View(vals, rest).globals))
    ensures (var bnd := Filled(f, at, values); var v := RestPut(vals, f.rest, RestArgs(args, |f.formals|));
             && Over(v, bnd) == Over(vals, CallFrame(f, at, values, args))
             && Own(v, bnd) + RestEntry(vals, f.rest) == Own(vals, CallFrame(f, at, values, args)))
  {
    var frame := CallFrame(f, at, values, args);
    forall i, j | 0 <= i < j < |frame| ensures frame[i].sym != frame[j].sym {
      assert frame[i].sym == CallSyms(f)[i] && frame[j].sym == CallSyms(f)[j];
    }
    PushShows(vals, rest, frame);
    if f.rest.RestIn? {
      assert frame == Filled(f, at, values) + [Entry(f.rest.s, RestArgs(args, |f.formals|))];
      RestShows(vals, Filled(f, at, values), f.rest.s, RestArgs(args, |f.formals|));
    } else {
      assert frame == Filled(f, at, values);
      assert Own(vals, frame) + [] == Own(vals, frame);
    }
  }

  // The frame to be swapped in, and the state afterwards.
  lemma {:induction false} SwapsIn(bind: seq<BindFrame>, catches: seq<CatchFrame>, b0: seq<BindFrame>, cs: seq<Mark>,
                                   f: Val, at: Val, values: seq<Val>, args: seq<Expr>, v0: Vals)
    requires f.Fun? && DistinctSyms(CallSyms(f)) && Filling(bind, catches, b0, catches, cs, f, at, values)
             && |values| == |f.formals|
    ensures (var bnd := Filled(f, at, values);
             && bind != [] && bind[0].bnd == bnd && Distinct(bnd + RestEntry(v0, f.rest)))
    ensures (var frame := CallFrame(f, at, values, args); var after := [BindFrame(0, Own(v0, frame))] + bind[1..];
             && InForce(after[0]) && Same(b0, after[1..]) && Ready(after, catches, cs) && |b0| <= |after|
                && Same(b0, Below(after, |b0|)))
  {
    var bnd := Filled(f, at, values);
    assert f.formals[..|f.formals|] == f.formals;
    var more := bnd + RestEntry(v0, f.rest);
    forall i, j | 0 <= i < j < |more| ensures more[i].sym != more[j].sym {
      assert more[i].sym == CallSyms(f)[i] && more[j].sym == CallSyms(f)[j];
    }
    var frame := CallFrame(f, at, values, args);
    var own := Own(v0, frame);
    forall i, j | 0 <= i < j < |own| ensures own[i].sym != own[j].sym {
      assert own[i].sym == CallSyms(f)[i] && own[j].sym == CallSyms(f)[j];
    }
    var after := [BindFrame(0, own)] + bind[1..];
    assert after[1..] == bind[1..];
    ReadySame(b0, bind[1..], catches, cs);
    ReadyPush(bind[1..], BindFrame(0, own), catches, cs);
  }

  lemma {:induction false} FillingReady(bind: seq<BindFrame>, catches: seq<CatchFrame>, b0: seq<BindFrame>,
                                        c0: seq<CatchFrame>, cs: seq<Mark>, f: Val, at: Val, values: seq<Val>)
    requires f.Fun? && Filling(bind, catches, b0, c0, cs, f, at, values) && DistinctSyms(CallSyms(f))
    ensures Ready(bind, catches, cs) && Same(b0, Below(bind, |b0|)) && |b0| <= |bind| && catches == c0
            && Ready(b0, c0, cs)
  {
    ReadySame(b0, bind[1..], c0, cs);
    var bnd := bind[0].bnd;
    forall i, j | 0 <= i < j < |bnd| ensures bnd[i].sym != bnd[j].sym {
      assert bnd[i].sym == CallSyms(f)[i] && bnd[j].sym == CallSyms(f)[j];
    }
    ReadyPush(bind[1..], bind[0], c0, cs);
    assert [bind[0]] + bind[1..] == bind;
  }

  lemma {:induction false} FillingKept(vals: Vals, bind: seq<BindFrame>, catches: seq<CatchFrame>, b0: seq<BindFrame>,
                                       b1: seq<BindFrame>,
                                       c0: seq<CatchFrame>, cs: seq<Mark>, f: Val, at: Val, values: seq<Val>,
                                         o: Outcome, r: Signal)
    requires f.Fun? && Filling(b1, c0, b0, c0, cs, f, at, values) && Post(vals, bind, catches, b1, c0, cs, o, r)
             && !o.NoClaim? && r.Ret?
    ensures Filling(bind, catches, b0, c0, cs, f, at, values) && o == Done(r.v, View(vals, bind))
  {
    assert Kept(b1[0], bind[0]);
    assert Same(b1[1..], bind[1..]) by {
      forall k | 0 <= k < |b1| - 1 ensures Kept(b1[1..][k], bind[1..][k]) {
        assert Kept(b1[k + 1], bind[k + 1]);
      }
    }
    SameTrans(b0, b1[1..], bind[1..]);
  }

  lemma {:induction false} FillMore(vals: Vals, bind: seq<BindFrame>, catches: seq<CatchFrame>, b0: seq<BindFrame>,
                                    c0: seq<CatchFrame>, cs: seq<Mark>, f: Val, at: Val, values: seq<Val>, v: Val)
    requires f.Fun? && Filling(bind, catches, b0, c0, cs, f, at, values) && |values| < |f.formals|
    ensures bind != []
    ensures (var more := bind[0 := BindFrame(bind[0].i, bind[0].bnd + [Entry(f.formals[|values|], v)])];
             Filling(more, catches, b0, c0, cs, f, at, values + [v]) && View(vals, more) == View(vals, bind))
  {
    var k := |values|;
    var more := bind[0 := BindFrame(bind[0].i, bind[0].bnd + [Entry(f.formals[k], v)])];
    assert more[1..] == bind[1..];
    assert more[0].bnd == Entries([AT] + f.formals[..k + 1], [at] + (values + [v]));
  }

  // A jump out of a construct that has pushed frames.
  lemma {:induction false} JumpOut(vals: Vals, bind: seq<BindFrame>, catches: seq<CatchFrame>, b0: seq<BindFrame>,
                                   b1: seq<BindFrame>, c0: seq<CatchFrame>, cs: seq<Mark>, o: Outcome, r: Signal)
    requires Post(vals, bind, catches, b1, c0, cs, o, r) && r.Jump? && !o.NoClaim? && Ready(b0, c0, cs)
    requires |b0| <= |b1| && Same(b0, Below(b1, |b0|))
    ensures o.Thrown? && Post(vals, bind, catches, b0, c0, cs, o, r)
  {
    Outwards(vals, bind, catches, b0, b1, c0, cs, o, r);
  }

  // At the end of a construct with a frame in force on top of b0.
  lemma {:induction false} LeaveFrame(vals: Vals, bind: seq<BindFrame>, catches: seq<CatchFrame>, b0: seq<BindFrame>,
                                      b1: seq<BindFrame>, c0: seq<CatchFrame>, cs: seq<Mark>, o: Outcome, r: Signal)
    requires Post(vals, bind, catches, b1, c0, cs, o, r) && !o.NoClaim? && r.Ret? && b1 != [] && InForce(b1[0])
             && Same(b0, b1[1..])
    ensures bind != [] && InForce(bind[0]) && catches == c0
    ensures forall vals': Vals :: View(vals', bind[1..]) == Pop(View(vals, bind)) ==>
              Post(vals', bind[1..], catches, b0, c0, cs, LeaveD(o), r)
  {
    assert Kept(b1[0], bind[0]);
    assert Same(b1[1..], bind[1..]) by {
      forall k | 0 <= k < |b1| - 1 ensures Kept(b1[1..][k], bind[1..][k]) {
        assert Kept(b1[k + 1], bind[k + 1]);
      }
    }
    SameTrans(b0, b1[1..], bind[1..]);
  }

  // ---------- the loops of (eval x n), for n >= 1 ----------

  // The frames passed so far, and those still to be passed.
  function After(passed: seq<BindFrame>, r: Passed): Passed {
    Passed(r.vals, passed + r.bind, |passed| + r.n)
  }

  // The loop makes of the frames from the n-th on what is still missing of all.
  ghost predicate Passing(all: Passed, vals: Vals, bind: seq<BindFrame>, n: nat, cnt: int, j: int, more: bool) {
    && n <= |bind| && (forall k :: n <= k < |bind| ==> Distinct(bind[k].bnd))
    && all == if more then After(bind[..n], SwappedOut(vals, bind[n..], cnt, j)) else Passed(vals, bind, n)
  }

  lemma {:induction false} StartPassing(vals: Vals, bind: seq<BindFrame>, cnt: int)
    requires AllDistinct(bind)
    ensures Passing(SwappedOut(vals, bind, cnt, cnt), vals, bind, 0, cnt, cnt, true)
  {
    assert bind[..0] == [] && bind[0..] == bind;
    var r := SwappedOut(vals, bind, cnt, cnt);
    assert [] + r.bind == r.bind && After([], r) == r;
  }

  lemma {:induction false} PassNext(all: Passed, vals: Vals, bind: seq<BindFrame>, n: nat, cnt: int, j: int)
    requires n < |bind| && Passing(all, vals, bind, n, cnt, j, true)
    ensures Distinct(bind[n].bnd)
    ensures (var f := bind[n];
             var left := if Called(f) then j - 1 else j;
             Passing(all, if InForce(f) then Over(vals, f.bnd)
                     else vals, bind[n := OutFrame(vals, f, cnt)], n + 1, cnt, left,
                     n + 1 < |bind| && !(Called(f) && left == 0)))
  {
    OutNext(vals, bind, n, cnt, j);
    hide OutFrame, SwappedOut, Distinct, Called, InForce;
  }

  lemma {:induction false} PassedAll(all: Passed, vals: Vals, bind: seq<BindFrame>, n: nat, cnt: int, j: int)
    requires Passing(all, vals, bind, n, cnt, j, false)
    ensures all == Passed(vals, bind, n)
  {
  }

  lemma {:induction false} OutNext(vals: Vals, bind: seq<BindFrame>, n: nat, cnt: int, j: int)
    requires n < |bind|
    ensures (var f := bind[n];
             var v := if InForce(f) then Over(vals, f.bnd) else vals;
             var left := if Called(f) then j - 1 else j;
             var more := bind[n := OutFrame(vals, f, cnt)];
             After(bind[..n], SwappedOut(vals, bind[n..], cnt, j))
             == if n + 1 == |bind| || (Called(f) && left == 0) then Passed(v, more, n + 1)
                else After(more[..n + 1], SwappedOut(v, more[n + 1..], cnt, left)))
  {
    hide OutFrame, Called;
    var f := bind[n];
    var g := OutFrame(vals, f, cnt);
    var more := bind[n := g];
    assert bind[n..][0] == f && bind[n..][1..] == bind[n + 1..] == more[n + 1..];
    assert more[..n + 1] == bind[..n] + [g];
    assert bind[..n] + ([g] + bind[n + 1..]) == more;
    if n + 1 == |bind| {
      assert bind[n + 1..] == [];
    } else if !(Called(f) && (if Called(f) then j - 1 else j) == 0) {
      var r := SwappedOut(if InForce(f) then Over(vals, f.bnd) else vals, bind[n + 1..], cnt, if Called(f) then j - 1
                          else j);
      assert bind[..n] + ([g] + r.bind) == more[..n + 1] + r.bind;
    }
  }

  // The first loop hides the lists of the cnt newest calls.
  lemma {:induction false} HidesCalls(vals: Vals, bind: seq<BindFrame>, d: Deep, cnt: int)
    requires cnt > 0 && bind != [] && AllDistinct(bind) && d == View(vals, bind)
    ensures (var r := SwappedOut(vals, bind, cnt, cnt);
             HidingOn(bind, d, cnt, r.vals, r.bind, r.n) && Depth(bind[..r.n]) == Extent(d.frames, cnt))
  {
    hide View, Extent, Depth, AllDistinct, HidingOn, HideLeft, SwappedOut;
    StartHiding(bind, d, cnt, vals);
    assert bind[0..] == bind && bind[..0] == [];
    HidesFrom(bind, d, cnt, vals, bind, 0, cnt);
    var r := SwappedOut(vals, bind, cnt, cnt);
    assert [] + r.bind == r.bind && After([], r) == r;
  }

  lemma {:induction false} HidesFrom(b0: seq<BindFrame>, d: Deep, cnt: int, vals: Vals, bind: seq<BindFrame>, k: nat,
                                     j: int)
    requires cnt > 0 && HidingOn(b0, d, cnt, vals, bind, k) && k < |bind| && AllDistinct(b0)
             && HideLeft(b0, d, cnt, k, j)
    ensures (var r := After(bind[..k], SwappedOut(vals, bind[k..], cnt, j));
             r.n <= |b0| && HidingOn(b0, d, cnt, r.vals, r.bind, r.n) && Depth(b0[..r.n]) == Extent(d.frames, cnt))
    decreases |bind| - k
  {
    HidingDistinct(b0, d, cnt, vals, bind, k);
    HideCounts(b0, d, cnt, vals, bind, k, j);
    HideTurn(b0, d, cnt, vals, bind, k);
    OutNext(vals, bind, k, cnt, j);
    hide View, Extent, Depth, AllDistinct, NoneInForce, HidingOn, HideLeft, OutFrame, SwappedOut;
    var f := bind[k];
    var more := bind[k := OutFrame(vals, f, cnt)];
    if k + 1 < |bind| && !(Called(f) && j == 1) {
      HidesFrom(b0, d, cnt, if InForce(f) then Over(vals, f.bnd) else vals, more, k + 1, if Called(f) then j - 1
                else j);
    }
  }

  // The second loop shows them again.
  lemma {:induction false} ShowsCalls(b0: seq<BindFrame>, d: Deep, cnt: int, b1: seq<BindFrame>, d1: Deep, n: nat,
                                      vals: Vals, bind: seq<BindFrame>, k: nat)
    requires cnt > 0 && k <= n <= |b0| == |b1| == |bind| && ShowingOn(b0, d, b1, d1, n, vals, bind, k)
    requires forall q :: 0 <= q < n ==> WasHidden(b0, d, cnt, b1, q)
    ensures (var r := SwappedIn(vals, bind, cnt, k); ShowingOn(b0, d, b1, d1, n, r.0, r.1, 0))
    ensures forall q :: 0 <= q < k && Due(bind[q], cnt) ==> Distinct(bind[q].bnd)
    decreases k
  {
    forall q | 0 <= q < k && Due(bind[q], cnt) ensures Distinct(bind[q].bnd) {
      assert WasHidden(b0, d, cnt, b1, q);
      assert bind[q] == bind[..k][q] == b1[..k][q];
    }
    if k > 0 {
      ShowTurn(b0, d, cnt, b1, d1, n, vals, bind, k);
      hide View, Depth, ShowingOn, WasHidden, InFrame, Distinct;
      var f := bind[k - 1];
      ShowsCalls(b0, d, cnt, b1, d1, n, if Due(f, cnt) then Over(vals, f.bnd) else vals,
                 bind[k - 1 := InFrame(vals, f, cnt)], k - 1);
    }
  }

  lemma {:induction false} HideTurn(b0: seq<BindFrame>, d: Deep, cnt: int, vals: Vals, bind: seq<BindFrame>, k: nat)
    requires HidingOn(b0, d, cnt, vals, bind, k) && k < |bind| && cnt > 0 && Distinct(bind[k].bnd)
    ensures (var f := bind[k];
             HidingOn(b0, d, cnt, if InForce(f) then Over(vals, f.bnd)
                      else vals, bind[k := OutFrame(vals, f, cnt)], k + 1))
  {
    if InForce(bind[k]) {
      HideOne(b0, d, cnt, vals, bind, k);
    } else {
      HideOther(b0, d, cnt, vals, bind, k, OutFrame(vals, bind[k], cnt));
    }
  }

  lemma {:induction false} ShowTurn(b0: seq<BindFrame>, d: Deep, cnt: int, b1: seq<BindFrame>, d1: Deep, n: nat,
                                    vals: Vals, bind: seq<BindFrame>, k: nat)
    requires ShowingOn(b0, d, b1, d1, n, vals, bind, k) && k > 0 && cnt > 0 && WasHidden(b0, d, cnt, b1, k - 1)
    ensures |bind| == |b0|
    ensures (var f := bind[k - 1];
             ShowingOn(b0, d, b1, d1, n, if Due(f, cnt) then Over(vals, f.bnd)
                       else vals, bind[k - 1 := InFrame(vals, f, cnt)], k - 1))
  {
    HiddenFrame(b0, d, cnt, b1, d1, n, vals, bind, k);
    var f := bind[k - 1];
    NoEntries(vals, f.bnd);
    if InForce(b0[k - 1]) {
      ShowOne(b0, d, cnt, b1, d1, n, vals, bind, k);
    } else {
      ShowOther(b0, d, cnt, b1, d1, n, vals, bind, k, if f.i < 0 then BindFrame(f.i + cnt, f.bnd) else f);
    }
  }

  lemma {:induction false} NoEntries(vals: Vals, bnd: Bnd)
    ensures bnd == [] ==> Over(vals, bnd) == vals && Own(vals, bnd) == []
  {
  }

  // What is known of a frame that is to be put back.
  lemma {:induction false} HiddenFrame(b0: seq<BindFrame>, d: Deep, cnt: int, b1: seq<BindFrame>, d1: Deep, n: nat,
                                       vals: Vals, bind: seq<BindFrame>, k: nat)
    requires ShowingOn(b0, d, b1, d1, n, vals, bind, k) && k > 0 && cnt > 0 && WasHidden(b0, d, cnt, b1, k - 1)
    ensures |bind| == |b0| && (InForce(b0[k - 1]) ==> Distinct(bind[k - 1].bnd))
    ensures |bind| == |b0| && (InForce(b0[k - 1]) <==> bind[k - 1].i == -cnt && bind[k - 1].bnd != [])
    ensures bind[k - 1].i == -cnt && bind[k - 1].bnd == [] ==> b0[k - 1] == BindFrame(0, [])
  {
    assert bind[k - 1] == bind[..k][k - 1] == b1[..k][k - 1];
  }

  // j calls are still to be met when n frames have been passed.
  ghost predicate HideLeft(b0: seq<BindFrame>, d: Deep, cnt: int, n: nat, j: int)
    requires n <= |b0|
  {
    var m := Depth(b0[..n]);
    j > 0 && cnt > 0 && m <= |d.frames| && Extent(d.frames, cnt) == m + Extent(d.frames[m..], j)
  }

  lemma {:induction false} StartHiding(bind: seq<BindFrame>, d: Deep, cnt: int, vals: Vals)
    requires cnt > 0 && d == View(vals, bind)
    ensures HidingOn(bind, d, cnt, vals, bind, 0) && HideLeft(bind, d, cnt, 0, cnt)
  {
    assert bind[..0] == [] && bind[0..] == bind && d.frames[0..] == d.frames;
  }

  // How passing one more frame counts.
  lemma {:induction false} HideCounts(b0: seq<BindFrame>, d: Deep, cnt: int, vals: Vals, bind: seq<BindFrame>, k: nat,
                                      j: int)
    requires cnt > 0 && HidingOn(b0, d, cnt, vals, bind, k) && k < |bind| && AllDistinct(bind)
             && HideLeft(b0, d, cnt, k, j)
    ensures |b0| == |bind|
    ensures (var last := InForce(bind[k]) && IsCall(bind[k].bnd);
             && ((last && j == 1) || k + 1 == |b0| ==> Depth(b0[..k + 1]) == Extent(d.frames, cnt))
             && (!(last && j == 1) ==> HideLeft(b0, d, cnt, k + 1, if last then j - 1 else j)))
  {
    DepthNext(b0, k);
    assert bind[k] == bind[k..][0] == b0[k];
    var m := Depth(b0[..k]);
    if InForce(bind[k]) {
      assert Distinct(bind[k].bnd);
      HideOne(b0, d, cnt, vals, bind, k);
      assert d.frames[m..][0] == d.frames[m];
      assert d.frames[m..][1..] == d.frames[m + 1..];
    }
    if k + 1 == |b0| {
      assert b0[..k + 1] == b0;
      LastFrame(b0, d, cnt, vals, bind, k);
    }
  }

  // At the end of the stack there are no more lists.
  lemma {:induction false} LastFrame(b0: seq<BindFrame>, d: Deep, cnt: int, vals: Vals, bind: seq<BindFrame>, k: nat)
    requires HidingOn(b0, d, cnt, vals, bind, k) && k + 1 == |b0|
    ensures |d.frames| == Depth(b0[..k]) + (if InForce(bind[k]) then 1 else 0)
  {
    DepthIs(vals, bind);
    DepthBelow(bind, k);
    assert bind[k..] == [bind[k]];
    assert bind[k..][1..] == [];
  }

  lemma {:induction false} DepthBelow(bind: seq<BindFrame>, k: nat)
    requires k <= |bind| && NoneInForce(bind[..k])
    ensures Depth(bind) == Depth(bind[k..])
  {
    if k > 0 {
      assert bind[0] == bind[..k][0];
      assert bind[1..][..k - 1] == bind[..k][1..];
      assert bind[1..][k - 1..] == bind[k..];
      DepthBelow(bind[1..], k - 1);
    } else {
      assert bind[0..] == bind;
    }
  }

  // The values after the first j entries have been swapped.
  ghost predicate SwappedTo(v0: Vals, bnd: Bnd, vals: Vals, j: nat) {
    forall s :: Get(vals, s) == if IndexOf(bnd, s) < j && Has(bnd, s) then bnd[IndexOf(bnd, s)].val else Get(v0, s)
  }

  lemma {:induction false} SwapNext(v0: Vals, bnd: Bnd, vals: Vals, j: nat)
    requires j < |bnd| && Distinct(bnd) && SwappedTo(v0, bnd, vals, j)
    ensures Get(vals, bnd[j].sym) == Get(v0, bnd[j].sym)
    ensures SwappedTo(v0, bnd, Put(vals, bnd[j].sym, bnd[j].val), j + 1)
  {
    assert IndexOf(bnd, bnd[j].sym) == j;
    forall s {
      GetPut(vals, bnd[j].sym, bnd[j].val, s);
    }
  }

  lemma {:induction false} SwappedAll(v0: Vals, bnd: Bnd, vals: Vals)
    requires SwappedTo(v0, bnd, vals, |bnd|)
    ensures vals == Over(v0, bnd)
  {
    forall s ensures Get(vals, s) == Get(Over(v0, bnd), s) {
      GetOver(v0, bnd, s);
    }
    SameVals(vals, Over(v0, bnd));
  }

  // The values after the entries from j to n have been swapped.
  ghost predicate Swapped(v0: Vals, bnd: Bnd, vals: Vals, j: nat, n: nat)
    requires j <= n <= |bnd|
  {
    vals == Over(v0, bnd[j..n])
  }

  // A frame whose entries from j to n hold the values the symbols had.
  ghost predicate PartOwn(v0: Vals, bnd: Bnd, b: Bnd, j: nat, n: nat) {
    |b| == |bnd| && forall i :: 0 <= i < |b| ==>
        b[i] == if j <= i < n then Entry(bnd[i].sym, Get(v0, bnd[i].sym)) else bnd[i]
  }

  lemma {:induction false} SwapStep(v0: Vals, bnd: Bnd, vals: Vals, j: nat, n: nat)
    requires j < n <= |bnd| && Distinct(bnd) && Swapped(v0, bnd, vals, j + 1, n)
    ensures Get(vals, bnd[j].sym) == Get(v0, bnd[j].sym)
    ensures Swapped(v0, bnd, Put(vals, bnd[j].sym, bnd[j].val), j, n)
  {
    GetOver(v0, bnd[j + 1..n], bnd[j].sym);
    assert bnd[j..n][1..] == bnd[j + 1..n];
  }
}
