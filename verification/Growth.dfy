/** Adding a segment of cells to the heap and its cells to the free list. */
module Growth {
  import opened CellHeap
  import opened Liveness
  import opened Sweeping
  import opened MemoryState

  // A block of memory for a new segment: no cell lies in it or right after it, and it does not
  // lie right after a segment.
  ghost predicate Fits(su: Setup, s: State, base: Addr) {
    match s
    case State(h, segs, free, holders) =>
      && (forall x :: x in h ==> x < base || base + su.segSize < x)
      && (forall j :: 0 <= j < |segs| ==> segs[j] + su.segSize < base || base + su.segSize < segs[j])
      && NULL < base
  }

  // malloc'ed blocks do not overlap.  A block has room for adj bytes beside the cells, where adj
  // is at least the size of a cell, and the cells start at the first multiple of adj in it.
  function Aligned(block: nat, adj: nat): nat
    requires adj > 0
  {
    if block % adj != 0 then adj * (block / adj + 1) else block
  }

  // That slack is what keeps two segments from being adjacent.
  lemma PaddingLeavesGap(block: nat, block': nat, bytes: nat, adj: nat)
    requires adj > 0 && block + bytes + adj <= block'
    ensures block <= Aligned(block, adj) && Aligned(block, adj) + bytes < block + bytes + adj
    ensures Aligned(block, adj) + bytes < Aligned(block', adj)
  {
    assert block == adj * (block / adj) + block % adj;
    assert block' == adj * (block' / adj) + block' % adj;
    assert adj * (block / adj + 1) == adj * (block / adj) + adj;
    assert adj * (block' / adj + 1) == adj * (block' / adj) + adj;
  }

  // The cells start at the first multiple of adj.
  lemma AlignedIs(block: nat, adj: nat) returns (k: nat)
    requires adj > 0
    ensures Aligned(block, adj) == adj * k && block <= adj * k < block + adj
  {
    PaddingLeavesGap(block, block + adj, 0, adj);
    k := if block % adj != 0 then block / adj + 1 else block / adj;
    assert block == adj * (block / adj) + block % adj;
  }

  ghost function Block(base: Addr, n: nat): seq<Addr> {
    seq(n, k => base + k)
  }

  // The heap of s with n free cells from base on, linked to each other and, at the end, to next.
  ghost predicate BlockOf(s: State, h1: Heap, base: Addr, n: nat, next: Addr, NIL: Addr) {
    match s
    case State(h, _, _, _) =>
      && h1.Keys == h.Keys + Elems(Block(base, n))
      && (forall x :: x in h && x !in Elems(Block(base, n)) ==> h1[x] == h[x])
      && (forall k :: 0 <= k < n ==> FreeAtBlock(h1, base, n, k, next, NIL))
  }

  ghost predicate FreeAtBlock(h: Heap, base: Addr, n: nat, k: nat, next: Addr, NIL: Addr) {
    FreeCell(h, base + k, if k + 1 < n then base + k + 1 else next, NIL)
  }

  ghost predicate Position(fl: seq<Addr>, i: nat, base: Addr) {
    i <= |fl| && (forall j :: 0 <= j < i ==> fl[j] < base) && (forall j :: i <= j < |fl| ==> base < fl[j])
  }

  ghost function Spliced(s: State, h1: Heap, segs: seq<Addr>, i: nat, base: Addr, n: nat): State
    requires i <= |s.free|
  {
    State(if i == 0 || s.free[i - 1] !in h1 then h1 else h1[s.free[i - 1] := h1[s.free[i - 1]].(cdr := base)],
          segs, s.free[..i] + Block(base, n) + s.free[i..], s.holders)
  }

  lemma InBlock(base: Addr, n: nat)
    ensures forall x :: x in Elems(Block(base, n)) <==> base <= x < base + n
  {
    forall x | base <= x < base + n ensures x in Elems(Block(base, n)) {
      assert Block(base, n)[x - base] == x;
    }
  }

  lemma SpliceOrder(fl: seq<Addr>, i: nat, base: Addr, n: nat)
    requires Position(fl, i, base) && forall j :: 0 <= j < |fl| ==> fl[j] < base || base + n <= fl[j]
    requires forall j, k :: 0 <= j < k < |fl| ==> fl[j] < fl[k]
    ensures (var f := fl[..i] + Block(base, n) + fl[i..]; forall j, k :: 0 <= j < k < |f| ==> f[j] < f[k])
  {
  }

  ghost predicate Spliceable(su: Setup, s: State, h1: Heap, i: nat, base: Addr) {
    match s
    case State(h, segs, free, holders) =>
      && FreeList(h, Head(free, 0, su.NIL), free, su.NIL) && Position(free, i, base)
      && Fits(su, s, base) && su.segSize > 0
      && BlockOf(s, h1, base, su.segSize, Head(free, i, su.NIL), su.NIL)
  }

  lemma SpliceBelow(su: Setup, s: State, h1: Heap, segs: seq<Addr>, i: nat, base: Addr, j: nat)
    requires Spliceable(su, s, h1, i, base) && j < i
    ensures (var t := Spliced(s, h1, segs, i, base, su.segSize); FreeAt(t.h, t.free, j, su.NIL))
  {
    InBlock(base, su.segSize);
    assert FreeAt(s.h, s.free, j, su.NIL) && FreeAt(s.h, s.free, i - 1, su.NIL);
    assert s.free[j] < base && s.free[i - 1] < base;
    assert Head(Spliced(s, h1, segs, i, base, su.segSize).free, i, su.NIL) == base;
  }

  lemma SpliceInside(su: Setup, s: State, h1: Heap, segs: seq<Addr>, i: nat, base: Addr, j: nat)
    requires Spliceable(su, s, h1, i, base) && i <= j < i + su.segSize
    ensures (var t := Spliced(s, h1, segs, i, base, su.segSize); FreeAt(t.h, t.free, j, su.NIL))
  {
    var t := Spliced(s, h1, segs, i, base, su.segSize);
    assert FreeAtBlock(h1, base, su.segSize, j - i, Head(s.free, i, su.NIL), su.NIL);
    assert i > 0 ==> s.free[i - 1] < base;
    assert t.free[j] == base + (j - i);
  }

  lemma SpliceAbove(su: Setup, s: State, h1: Heap, segs: seq<Addr>, i: nat, base: Addr, j: nat)
    requires Spliceable(su, s, h1, i, base) && i <= j < |s.free|
    ensures (var t := Spliced(s, h1, segs, i, base, su.segSize); FreeAt(t.h, t.free, j + su.segSize, su.NIL))
  {
    InBlock(base, su.segSize);
    var t := Spliced(s, h1, segs, i, base, su.segSize);
    assert FreeAt(s.h, s.free, j, su.NIL);
    assert i > 0 ==> s.free[i - 1] < s.free[j];
    assert s.free[j] >= base + su.segSize;
    assert Head(t.free, j + su.segSize + 1, su.NIL) == Head(s.free, j + 1, su.NIL);
  }

  lemma SpliceFreeList(su: Setup, s: State, h1: Heap, segs: seq<Addr>, i: nat, base: Addr)
    requires Spliceable(su, s, h1, i, base)
    ensures (var t := Spliced(s, h1, segs, i, base, su.segSize);
             FreeList(t.h, Head(t.free, 0, su.NIL), t.free, su.NIL))
  {
    var n := su.segSize;
    var t := Spliced(s, h1, segs, i, base, n);
    forall j | 0 <= j < |s.free| ensures s.free[j] < base || base + n <= s.free[j] {
      assert FreeAt(s.h, s.free, j, su.NIL);
    }
    SpliceOrder(s.free, i, base, n);
    hide Spliceable;
    forall j | 0 <= j < |t.free| ensures FreeAt(t.h, t.free, j, su.NIL) {
      if j < i {
        SpliceBelow(su, s, h1, segs, i, base, j);
      } else if j < i + n {
        SpliceInside(su, s, h1, segs, i, base, j);
      } else {
        SpliceAbove(su, s, h1, segs, i, base, j - n);
      }
    }
  }

  ghost function WithSegment(segs: seq<Addr>, k: nat, base: Addr): seq<Addr>
    requires k <= |segs|
  {
    segs[..k] + [base] + segs[k..]
  }

  lemma SegmentMembers(su: Setup, segs: seq<Addr>, k: nat, base: Addr, x: Addr)
    requires k <= |segs|
    ensures su.InSegments(WithSegment(segs, k, base), x) <==> su.InSegments(segs, x) || su.InSegment(base, x)
  {
    var segs1 := WithSegment(segs, k, base);
    if su.InSegments(segs, x) {
      var i :| 0 <= i < |segs| && su.InSegment(segs[i], x);
      assert segs1[if i < k then i else i + 1] == segs[i];
    }
    if su.InSegment(base, x) {
      assert segs1[k] == base;
    }
    if su.InSegments(segs1, x) {
      var i :| 0 <= i < |segs1| && su.InSegment(segs1[i], x);
      assert i != k ==> segs1[i] == segs[if i < k then i else i - 1];
    }
  }

  lemma SpliceLayout(su: Setup, s: State, h1: Heap, k: nat, base: Addr)
    requires su.Layout(s.h, s.segs) && Fits(su, s, base) && k <= |s.segs| && Position(s.segs, k, base)
    requires h1.Keys == s.h.Keys + Elems(Block(base, su.segSize))
    ensures su.Layout(h1, WithSegment(s.segs, k, base))
  {
    var segs1 := WithSegment(s.segs, k, base);
    InBlock(base, su.segSize);
    forall x ensures x in h1 <==> su.Fixed(x) || su.InSegments(segs1, x) {
      SegmentMembers(su, s.segs, k, base, x);
    }
  }

  lemma BlockIsFree(su: Setup, s: State, h1: Heap, segs: seq<Addr>, i: nat, base: Addr)
    requires Spliceable(su, s, h1, i, base)
    ensures (var t := Spliced(s, h1, segs, i, base, su.segSize);
             forall x :: x in t.h && x !in s.h ==> t.h[x].kind.Free? && !t.h[x].mark)
  {
    var t := Spliced(s, h1, segs, i, base, su.segSize);
    InBlock(base, su.segSize);
    assert i > 0 ==> FreeAt(s.h, s.free, i - 1, su.NIL);
    forall x | x in t.h && x !in s.h ensures t.h[x].kind.Free? && !t.h[x].mark {
      assert FreeAtBlock(h1, base, su.segSize, x - base, Head(s.free, i, su.NIL), su.NIL);
    }
  }

  lemma SpliceGraph(su: Setup, s: State, h1: Heap, segs: seq<Addr>, i: nat, base: Addr)
    requires Spliceable(su, s, h1, i, base) && WellFormed(s.h) && NoDangling(s.h) && su.NIL in s.h
    ensures (var t := Spliced(s, h1, segs, i, base, su.segSize); WellFormed(t.h) && NoDangling(t.h))
  {
    var t := Spliced(s, h1, segs, i, base, su.segSize);
    InBlock(base, su.segSize);
    assert i > 0 ==> FreeAt(s.h, s.free, i - 1, su.NIL);
    assert i < |s.free| ==> FreeAt(s.h, s.free, i, su.NIL);
    forall p | p in t.h ensures WellFormedCell(t.h, p) {
      if p in s.h {
        assert WellFormedCell(s.h, p);
      } else {
        assert FreeAtBlock(h1, base, su.segSize, p - base, Head(s.free, i, su.NIL), su.NIL);
      }
    }
    BlockIsFree(su, s, h1, segs, i, base);
    forall u, v | Allocated(t.h, u) && Child(t.h, u, v) ensures Allocated(t.h, v) {
      assert WellFormedCell(s.h, u);
      assert Allocated(s.h, u) && Child(s.h, u, v);
    }
  }

  // Outside the new block and the entry before it, nothing changes.
  lemma SpliceKeeps(su: Setup, s: State, h1: Heap, segs: seq<Addr>, i: nat, base: Addr, x: Addr)
    requires Spliceable(su, s, h1, i, base) && x in s.h
    ensures (var t := Spliced(s, h1, segs, i, base, su.segSize);
             x in t.h && t.h[x] == s.h[x].(cdr := t.h[x].cdr) && (!s.h[x].kind.Free? ==> t.h[x] == s.h[x]))
  {
    InBlock(base, su.segSize);
    assert i > 0 ==> FreeAt(s.h, s.free, i - 1, su.NIL);
  }

  lemma SpliceMembers(fl: seq<Addr>, i: nat, base: Addr, n: nat, x: Addr)
    requires i <= |fl|
    ensures x in fl[..i] + Block(base, n) + fl[i..] <==> x in fl || base <= x < base + n
  {
    InBlock(base, n);
    assert x in Block(base, n) <==> x in Elems(Block(base, n));
    assert fl == fl[..i] + fl[i..];
  }

  lemma SpliceFreeCells(su: Setup, s: State, h1: Heap, i: nat, k: nat, base: Addr)
    requires Spliceable(su, s, h1, i, base) && FreeCells(su, s, {}) && k <= |s.segs|
    ensures FreeCells(su, Spliced(s, h1, WithSegment(s.segs, k, base), i, base, su.segSize), {})
  {
    var segs := WithSegment(s.segs, k, base);
    var t := Spliced(s, h1, segs, i, base, su.segSize);
    SpliceFreeList(su, s, h1, segs, i, base);
    InBlock(base, su.segSize);
    forall x ensures x in t.free <==> x in s.free || base <= x < base + su.segSize {
      SpliceMembers(s.free, i, base, su.segSize, x);
    }
    forall x | x in t.free ensures su.InSegments(segs, x) {
      SegmentMembers(su, s.segs, k, base, x);
    }
    forall x | x in t.h ensures t.h[x].kind.Free? <==> x in t.free {
      if x in s.h {
        SpliceKeeps(su, s, h1, segs, i, base, x);
      } else {
        assert FreeAtBlock(h1, base, su.segSize, x - base, Head(s.free, i, su.NIL), su.NIL);
      }
    }
  }

  // A new segment keeps the whole invariant and no allocated cell changes.
  lemma SpliceSound(su: Setup, s: State, h1: Heap, i: nat, k: nat, base: Addr)
    requires Sound(su, s, {}) && Spliceable(su, s, h1, i, base) && k <= |s.segs| && Position(s.segs, k, base)
    ensures (var t := Spliced(s, h1, WithSegment(s.segs, k, base), i, base, su.segSize);
             Sound(su, t, {}) && AllocatedKept(s, t) && t.h.Keys == s.h.Keys + Elems(Block(base, su.segSize)))
  {
    var segs := WithSegment(s.segs, k, base);
    var t := Spliced(s, h1, segs, i, base, su.segSize);
    SpliceGraph(su, s, h1, segs, i, base);
    SpliceFreeCells(su, s, h1, i, k, base);
    assert t.h.Keys == s.h.Keys + Elems(Block(base, su.segSize)) by {
      assert i > 0 ==> FreeAt(s.h, s.free, i - 1, su.NIL);
    }
    SpliceLayout(su, s, t.h, k, base);
    forall x | x in s.h
      ensures x in t.h && t.h[x] == s.h[x].(cdr := t.h[x].cdr) && (!s.h[x].kind.Free? ==> t.h[x] == s.h[x])
    {
      SpliceKeeps(su, s, h1, segs, i, base, x);
    }
    SpliceRest(su, s, h1, segs, i, base, t);
    hide WellFormed, NoDangling, FreeCells, FixedCells, SinkList, Spliceable;
  }

  lemma SpliceRest(su: Setup, s: State, h1: Heap, segs: seq<Addr>, i: nat, base: Addr, t: State)
    requires Spliceable(su, s, h1, i, base) && t == Spliced(s, h1, segs, i, base, su.segSize)
    requires forall x :: x in s.h ==>
               x in t.h && t.h[x] == s.h[x].(cdr := t.h[x].cdr) && (!s.h[x].kind.Free? ==> t.h[x] == s.h[x])
    requires t.h.Keys == s.h.Keys + Elems(Block(base, su.segSize))
    requires FixedCells(su, s.h) && SinkList(su, s.h, s.holders) && su.Layout(s.h, s.segs)
    ensures FixedCells(su, t.h) && SinkList(su, t.h, t.holders)
  {
    InBlock(base, su.segSize);
    forall j | 0 <= j < |s.holders| ensures HolderAt(t.h, s.holders, j, su.NIL) {
      assert HolderAt(s.h, s.holders, j, su.NIL);
    }
    BlockIsFree(su, s, h1, segs, i, base);
  }

  lemma NoBlockYet(s: State, base: Addr, NIL: Addr)
    ensures BlockOf(s, s.h, base, 0, base, NIL)
  {
    InBlock(base, 0);
  }

  lemma BlockGrows(s: State, h1: Heap, base: Addr, n: nat, NIL: Addr)
    requires BlockOf(s, h1, base, n, base + n, NIL)
    ensures BlockOf(s, h1[base + n := Cell(Free, false, false, NIL, base + n + 1)], base, n + 1, base + n + 1, NIL)
  {
    InBlock(base, n);
    InBlock(base, n + 1);
    var h2 := h1[base + n := Cell(Free, false, false, NIL, base + n + 1)];
    var n1, next := n + 1, base + n + 1;
    forall k: nat | k < n1 ensures FreeAtBlock(h2, base, n1, k, next, NIL) {
      BlockLast(s, h1, base, n, k, NIL);
    }
  }

  lemma BlockLast(s: State, h1: Heap, base: Addr, n: nat, k: nat, NIL: Addr)
    requires BlockOf(s, h1, base, n, base + n, NIL)
    requires k <= n
    ensures FreeAtBlock(h1[base + n := Cell(Free, false, false, NIL, base + n + 1)], base, n + 1, k, base + n + 1, NIL)
  {
    if k < n {
      assert FreeAtBlock(h1, base, n, k, base + n, NIL);
    }
  }

  // Giving the last cell of a block another successor.
  lemma BlockRelinks(s: State, h1: Heap, base: Addr, n: nat, next: Addr, next': Addr, NIL: Addr)
    requires BlockOf(s, h1, base, n, next, NIL) && n > 0
    ensures base + n - 1 in h1
    ensures BlockOf(s, h1[base + n - 1 := h1[base + n - 1].(cdr := next')], base, n, next', NIL)
  {
    InBlock(base, n);
    assert FreeAtBlock(h1, base, n, n - 1, next, NIL);
    var h2 := h1[base + n - 1 := h1[base + n - 1].(cdr := next')];
    forall k: nat | k < n ensures FreeAtBlock(h2, base, n, k, next', NIL) {
      assert FreeAtBlock(h1, base, n, k, next, NIL);
    }
  }

  // The free list as the search for the place of a new segment sees it.
  ghost predicate Searching(su: Setup, s: State, h: Heap, base: Addr) {
    match s
    case State(h0, segs, free, holders) =>
      && FreeList(h0, Head(free, 0, su.NIL), free, su.NIL) && su.NIL !in free
      && Fits(su, s, base) && su.segSize > 0
      && BlockOf(s, h, base, su.segSize, base + su.segSize, su.NIL)
  }

  lemma NextFree(su: Setup, s: State, h: Heap, base: Addr, i: nat)
    requires Searching(su, s, h, base) && 0 < i <= |s.free|
    ensures s.free[i - 1] in h && h[s.free[i - 1]].cdr == Head(s.free, i, su.NIL)
    ensures s.free[i - 1] < base || base + su.segSize < s.free[i - 1]
    ensures Head(s.free, i, su.NIL) == su.NIL <==> i == |s.free|
    ensures s.free[i - 1] != su.NIL
  {
    InBlock(base, su.segSize);
    assert s.free[i - 1] in s.free;
    assert FreeAt(s.h, s.free, i - 1, su.NIL);
    assert i < |s.free| ==> s.free[i] in s.free;
  }

  // The place is found when the entry before it is below the segment and the one after it is not.
  lemma PlaceFound(su: Setup, s: State, h: Heap, base: Addr, i: nat)
    requires Searching(su, s, h, base) && i <= |s.free|
    requires i > 0 ==> s.free[i - 1] < base
    requires i < |s.free| ==> base <= s.free[i] || base + su.segSize <= s.free[i]
    ensures (var last := base + su.segSize - 1;
             last in h && Spliceable(su, s, h[last := h[last].(cdr := Head(s.free, i, su.NIL))], i, base))
  {
    BlockRelinks(s, h, base, su.segSize, base + su.segSize, Head(s.free, i, su.NIL), su.NIL);
    if i < |s.free| {
      NextFree(su, s, h, base, i + 1);
    }
    hide BlockOf, Fits;
  }

  lemma FirstFree(fl: seq<Addr>, i: nat, base: Addr, n: nat, NIL: Addr)
    requires i <= |fl| && n > 0
    ensures Head(fl[..i] + Block(base, n) + fl[i..], 0, NIL) == if i == 0 then base else fl[0]
  {
    assert Block(base, n)[0] == base;
  }

  lemma SearchReady(su: Setup, s: State, base: Addr)
    requires Sound(su, s, {}) && Fits(su, s, base)
    ensures forall i, j :: 0 <= i < j < |s.segs| ==> s.segs[i] < s.segs[j]
    ensures base !in s.segs
  {
    hide WellFormed, NoDangling, SinkList, FreeCells, FixedCells;
  }

  lemma NilNotFree(su: Setup, s: State)
    requires Sound(su, s, {})
    ensures su.NIL !in s.free && FreeList(s.h, Head(s.free, 0, su.NIL), s.free, su.NIL) && su.segSize > 0
  {
    if su.NIL in s.free {
      FixedOutside(su, s.h, s.segs, su.NIL);
    }
  }

  lemma NowSearching(su: Setup, s: State, h: Heap, base: Addr)
    requires Sound(su, s, {}) && Fits(su, s, base)
    requires BlockOf(s, h, base, su.segSize, base + su.segSize, su.NIL)
    ensures Searching(su, s, h, base)
  {
    hide Sound, Fits, BlockOf, FreeList;
    NilNotFree(su, s);
  }

  predicate Apart(su: Setup, base: Addr, base': Addr) {
    base + su.segSize < base' || base' + su.segSize < base
  }

  // A block apart from the one just used still fits.
  lemma StillFits(su: Setup, s: State, t: State, base: Addr, k: nat, base': Addr)
    requires Fits(su, s, base') && Apart(su, base, base') && k <= |s.segs|
    requires t.h.Keys == s.h.Keys + Elems(Block(base, su.segSize)) && t.segs == WithSegment(s.segs, k, base)
    ensures Fits(su, t, base')
  {
    InBlock(base, su.segSize);
    forall x | x in t.h ensures x < base' || base' + su.segSize < x {
    }
  }

  lemma SplicedParts(s: State, h1: Heap, segs: seq<Addr>, i: nat, base: Addr, n: nat)
    requires i <= |s.free|
    ensures Spliced(s, h1, segs, i, base, n)
         == State(Spliced(s, h1, [], i, base, n).h, segs, Spliced(s, h1, [], i, base, n).free, s.holders)
    ensures |Spliced(s, h1, segs, i, base, n).free| == |s.free| + n
  {
  }

  lemma OthersFit(su: Setup, s: State, h1: Heap, i: nat, k: nat, base: Addr)
    requires Sound(su, s, {}) && Spliceable(su, s, h1, i, base) && k <= |s.segs| && Position(s.segs, k, base)
    ensures (var t := Spliced(s, h1, WithSegment(s.segs, k, base), i, base, su.segSize);
             forall b :: Fits(su, s, b) && Apart(su, base, b) ==> Fits(su, t, b))
  {
    SpliceSound(su, s, h1, i, k, base);
    var t := Spliced(s, h1, WithSegment(s.segs, k, base), i, base, su.segSize);
    assert t.segs == WithSegment(s.segs, k, base);
    hide Sound, Spliceable, Fits, Spliced, Block, Elems, Position;
    forall b | Fits(su, s, b) && Apart(su, base, b) ensures Fits(su, t, b) {
      StillFits(su, s, t, base, k, b);
    }
  }

  lemma SegmentAdded(su: Setup, s: State, h1: Heap, i: nat, k: nat, base: Addr, regs: seq<Addr>)
    requires Sound(su, s, {}) && Spliceable(su, s, h1, i, base) && k <= |s.segs| && Position(s.segs, k, base)
    requires forall r :: r in regs ==> Allocated(s.h, r)
    ensures i <= |s.free|
    ensures (var t := Spliced(s, h1, WithSegment(s.segs, k, base), i, base, su.segSize);
             && t == State(Spliced(s, h1, [], i, base, su.segSize).h, WithSegment(s.segs, k, base), t.free, s.holders)
             && t.free == Spliced(s, h1, [], i, base, su.segSize).free
             && |t.free| == |s.free| + su.segSize && su.segSize > 0
             && Sound(su, t, {}) && AllocatedKept(s, t)
             && (forall r :: r in regs ==> Allocated(t.h, r))
             && (forall b :: Fits(su, s, b) && Apart(su, base, b) ==> Fits(su, t, b)))
  {
    SplicedParts(s, h1, WithSegment(s.segs, k, base), i, base, su.segSize);
    SpliceSound(su, s, h1, i, k, base);
    OthersFit(su, s, h1, i, k, base);
    assert su.segSize > 0;
    RegsStay(regs, s, Spliced(s, h1, WithSegment(s.segs, k, base), i, base, su.segSize));
    hide Sound, Spliced, Position, Spliceable, Fits, AllocatedKept, WithSegment, Block, Elems;
  }

  lemma FitsKept(su: Setup, s: State, t: State, base: Addr)
    requires Fits(su, s, base) && t.h.Keys == s.h.Keys && t.segs == s.segs
    ensures Fits(su, t, base)
  {
  }

  lemma CollectedFits(su: Setup, s: State, t: State, roots: set<Addr>, base: Addr)
    requires Fits(su, s, base) && Collected(su, s, t, roots)
    ensures Fits(su, t, base)
  {
    hide LiveSet;
  }

  // A block that fits in s and lies apart from the given ones fits in t too.
  ghost predicate OtherBlocksFit(su: Setup, s: State, t: State, blocks: seq<Addr>) {
    match s
    case State(h, segs, free, holders) =>
      forall b :: Fits(su, s, b) && ApartFrom(su, blocks, b) ==> Fits(su, t, b)
  }

  ghost predicate ApartFrom(su: Setup, blocks: seq<Addr>, b: Addr) {
    forall j :: 0 <= j < |blocks| && blocks[j] != NULL ==> Apart(su, blocks[j], b)
  }

  lemma OtherBlocksSelf(su: Setup, s: State, blocks: seq<Addr>)
    ensures OtherBlocksFit(su, s, s, blocks)
  {
  }

  lemma OtherBlocksNext(su: Setup, s: State, t: State, u: State, blocks: seq<Addr>, k: nat)
    requires OtherBlocksFit(su, s, t, blocks) && k < |blocks| && blocks[k] != NULL
    requires forall b :: Fits(su, t, b) && Apart(su, blocks[k], b) ==> Fits(su, u, b)
    ensures OtherBlocksFit(su, s, u, blocks)
  {
    hide Fits;
  }

  lemma OtherBlocksThen(su: Setup, s: State, t: State, u: State, blocks: seq<Addr>)
    requires OtherBlocksFit(su, s, t, blocks) && OtherBlocksFit(su, t, u, blocks)
    ensures OtherBlocksFit(su, s, u, blocks)
  {
    hide Fits;
  }

  lemma OtherBlocksCollected(su: Setup, s: State, t: State, roots: set<Addr>, blocks: seq<Addr>)
    requires Collected(su, s, t, roots)
    ensures OtherBlocksFit(su, s, t, blocks)
  {
    hide Fits, LiveSet;
    forall b | Fits(su, s, b) && ApartFrom(su, blocks, b) ensures Fits(su, t, b) {
      CollectedFits(su, s, t, roots, b);
    }
  }

  // Apart from the sink's list and cells being taken, nothing a block could collide with changes.
  lemma OtherBlocksSame(su: Setup, s: State, t: State, u: State, blocks: seq<Addr>)
    requires OtherBlocksFit(su, s, t, blocks) && u.h.Keys == t.h.Keys && u.segs == t.segs
    ensures OtherBlocksFit(su, s, u, blocks)
  {
    hide Fits;
    forall b | Fits(su, s, b) && ApartFrom(su, blocks, b) ensures Fits(su, u, b) {
      FitsKept(su, t, u, b);
    }
  }

  lemma SecondBlock(su: Setup, s: State, t: State, block: Addr, block': Addr)
    requires OtherBlocksFit(su, s, t, [block])
    requires block' == NULL || (Fits(su, s, block') && (block == NULL || Apart(su, block, block')))
    ensures block' == NULL || Fits(su, t, block')
  {
    assert ApartFrom(su, [block], block') || block' == NULL;
  }
}
