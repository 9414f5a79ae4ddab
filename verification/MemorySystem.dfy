/** The memory system of the Scheme interpreter: collection, growth and allocation. */
module MemorySystem {
  import opened CellHeap
  import opened Marking
  import opened Liveness
  import opened Sweeping
  import opened MemoryState
  import opened Growth
  import opened Consecutive

  class Memory {
    const su: Setup
    const store: Store
    // The registers a collection marks from: symbol table, global environment, args, envir, code,
    // the dump stack, value, the ports and the stack of nested C calls.
    var regs: seq<Addr>
    var cellSeg: seq<Addr>
    var freeCell: Addr
    var fcells: int
    var noMemory: bool
    ghost var free: seq<Addr>
    ghost var holders: seq<Addr>

    ghost function St(): State
      reads this, store
    {
      State(store.cells, cellSeg, free, holders)
    }

    ghost predicate Valid(raw: set<Addr>)
      reads this, store
    {
      match St()
      case State(h, segs, free, _) =>
        && Sound(su, St(), raw)
        && freeCell == Head(free, 0, su.NIL)
        && fcells == |free|
        && |segs| <= su.nSegments
        && (forall r :: r in regs ==> Allocated(h, r))
    }

    // The interpreter's fixed cells, before any segment has been allocated.
    constructor (su: Setup)
      requires su.NIL != su.sink && su.segSize > 0 && !su.Fixed(NULL)
      ensures Valid({}) && fresh(store) && this.su == su
      ensures regs == [] && cellSeg == [] && free == [] && holders == [] && !noMemory
    {
      this.su := su;
      regs, cellSeg, freeCell, fcells, noMemory := [], [], su.NIL, 0, false;
      free, holders := [], [];
      var atoms := map x | x in su.others + {su.NIL} :: Cell(Plain, true, true, x, x);
      store := new Store(atoms[su.sink := Cell(Plain, false, true, su.NIL, NULL)]);
    }

    // Everything a collection starts from when a and b are protected.
    function RootList(a: Addr, b: Addr): seq<Addr>
      reads this, store
    {
      regs + [if su.sink in store.cells then store.cells[su.sink].car else su.NIL, a, b]
    }

    // One cell of the sweep: clear its mark or put it in front of the free list.
    method SweepCell(p: Addr, ghost h0: Heap)
      requires Swept(h0, store.cells, su, cellSeg, p + 1, freeCell, free) && fcells == |free|
      requires p in h0 && su.InSegments(cellSeg, p) && FreeCellsClean(h0, su.NIL)
      modifies store, this`freeCell, this`fcells, this`free
      ensures Swept(h0, store.cells, su, cellSeg, p, freeCell, free) && fcells == |free|
    {
      ghost var h := store.cells;
      CleanCar(h0, p, su.NIL);
      if h0[p].mark {
        SweepMarked(h0, h, su, cellSeg, p, freeCell, free);
      } else {
        SweepUnmarked(h0, h, su, cellSeg, p, freeCell, free);
      }
      hide Swept, FreeCellsClean;
      if store.cells[p].mark {
        store.cells := store.cells[p := store.cells[p].(mark := false)];
      } else {
        if store.cells[p] != Cell(Free, false, false, store.cells[p].car, store.cells[p].cdr) {
          store.cells := store.cells[p := Cell(Free, false, false, su.NIL, store.cells[p].cdr)];
        }
        fcells := fcells + 1;
        store.cells := store.cells[p := store.cells[p].(cdr := freeCell)];
        assert store.cells == h[p := Cell(Free, false, false, su.NIL, freeCell)];
        freeCell := p;
        free := [p] + free;
      }
    }

    // The sweep of one segment, from its last cell down to its first.
    method SweepSegment(i: nat, ghost h0: Heap)
      requires i < |cellSeg| && su.Layout(h0, cellSeg) && FreeCellsClean(h0, su.NIL)
      requires Swept(h0, store.cells, su, cellSeg, cellSeg[i] + su.segSize, freeCell, free) && fcells == |free|
      modifies store, this`freeCell, this`fcells, this`free
      ensures Swept(h0, store.cells, su, cellSeg, cellSeg[i], freeCell, free) && fcells == |free|
    {
      hide *;
      var p := cellSeg[i] + su.segSize;
      while p > cellSeg[i]
        invariant cellSeg[i] <= p <= cellSeg[i] + su.segSize
        invariant Swept(h0, store.cells, su, cellSeg, p, freeCell, free) && fcells == |free|
      {
        p := p - 1;
        SegmentCell(h0, su, cellSeg, i, p);
        SweepCell(p, h0);
      }
    }

    // The sweep of gc, down the segments.
    method Sweep()
      requires su.Layout(store.cells, cellSeg) && FreeCellsClean(store.cells, su.NIL)
      modifies store, this`freeCell, this`fcells, this`free
      ensures Swept(old(store.cells), store.cells, su, cellSeg, if cellSeg == [] then 0 else cellSeg[0], freeCell, free)
      ensures fcells == |free|
    {
      hide *;
      ghost var h0 := store.cells;
      fcells := 0;
      freeCell := su.NIL;
      free := [];
      var i := |cellSeg| - 1;
      ghost var q := if i >= 0 then cellSeg[i] + su.segSize else 0;
      SweepStart(h0, su, cellSeg, q);
      while i >= 0
        invariant -1 <= i < |cellSeg|
        invariant Swept(h0, store.cells, su, cellSeg, q, freeCell, free) && fcells == |free|
        invariant i >= 0 ==> q == cellSeg[i] + su.segSize
        invariant i < 0 ==> q == if cellSeg == [] then 0 else cellSeg[0]
      {
        SweepSegment(i, h0);
        q := cellSeg[i];
        if i > 0 {
          SegmentGap(h0, store.cells, su, cellSeg, i, freeCell, free);
          q := cellSeg[i - 1] + su.segSize;
        }
        i := i - 1;
      }
    }

    // gc(a, b)
    method Gc(a: Addr, b: Addr)
      requires Valid({}) && Allocated(store.cells, a) && Allocated(store.cells, b)
      modifies store, this`freeCell, this`fcells, this`free
      ensures Valid({})
      ensures Collected(su, old(St()), St(), Elems(old(RootList(a, b))))
      ensures forall r :: r in old(RootList(a, b)) ==> Allocated(store.cells, r)
    {
      ghost var s := St();
      var rootList := RootList(a, b);
      ghost var roots := Elems(rootList);
      RootsAllocated(a, b);
      ReadyToCollect(su, s, roots);
      LowestSegment(su, s.h, cellSeg);
      hide Sound, Swept, Collected, LiveSet, WithMarks, Marked, WellFormed, su.Layout, FreeList, ClosedUpTo, Elems;
      MarkAll(store, rootList);
      store.cells := store.cells[su.NIL := store.cells[su.NIL].(mark := false)];
      assert store.cells == BeforeSweep(su, s.h, roots);
      ghost var b := store.cells;
      Sweep();
      ghost var q := if cellSeg == [] then 0 else cellSeg[0];
      SweptList(su, b, store.cells, cellSeg, q, freeCell, free);
      SweepCollects(su, s, roots, q, store.cells, freeCell, free);
      CollectSound(su, s, St(), roots);
      forall r | r in rootList ensures Allocated(store.cells, r) {
        RootsStay(su, s, St(), roots, r);
      }
    }

    lemma RootsAllocated(a: Addr, b: Addr)
      requires Valid({}) && Allocated(store.cells, a) && Allocated(store.cells, b)
      ensures forall r :: r in Elems(RootList(a, b)) ==> Allocated(store.cells, r)
      ensures store.cells[su.sink].car in Elems(RootList(a, b))
      ensures forall r :: r in RootList(a, b) ==> r in Elems(RootList(a, b))
      ensures forall r :: r in regs ==> r in RootList(a, b)
    {
    }

    // ---------- growth ----------

    // The new segment takes its place among the others, in address order.
    method InsertSegment(base: Addr) returns (ghost k: nat)
      requires forall i, j :: 0 <= i < j < |cellSeg| ==> cellSeg[i] < cellSeg[j]
      requires base !in cellSeg
      modifies this`cellSeg
      ensures k <= |old(cellSeg)| && cellSeg == WithSegment(old(cellSeg), k, base) && |cellSeg| == |old(cellSeg)| + 1
      ensures Position(old(cellSeg), k, base)
    {
      var i := |cellSeg|;
      cellSeg := cellSeg + [base];
      while i > 0 && cellSeg[i - 1] > cellSeg[i]
        invariant 0 <= i <= |old(cellSeg)|
        invariant cellSeg == WithSegment(old(cellSeg), i, base)
        invariant forall j :: i <= j < |old(cellSeg)| ==> base < old(cellSeg)[j]
      {
        cellSeg := cellSeg[i := cellSeg[i - 1]][i - 1 := cellSeg[i]];
        i := i - 1;
      }
      k := i;
    }

    // The cells of a new segment, each linked to the one after it.
    method FillSegment(base: Addr, ghost s: State)
      requires store.cells == s.h
      modifies store
      ensures BlockOf(s, store.cells, base, su.segSize, base + su.segSize, su.NIL)
    {
      hide BlockOf;
      var p := base;
      NoBlockYet(s, base, su.NIL);
      while p < base + su.segSize
        invariant base <= p <= base + su.segSize
        invariant BlockOf(s, store.cells, base, p - base, p, su.NIL)
      {
        BlockGrows(s, store.cells, base, p - base, su.NIL);
        store.cells := store.cells[p := Cell(Free, false, false, su.NIL, p + 1)];
        p := p + 1;
      }
    }

    // The new cells go on the free list in address order.
    method LinkSegment(base: Addr, ghost s: State) returns (ghost i: nat, ghost h1: Heap)
      requires Searching(su, s, store.cells, base) && freeCell == Head(s.free, 0, su.NIL)
      modifies store, this`freeCell
      ensures Spliceable(su, s, h1, i, base) && i <= |s.free|
      ensures store.cells == Spliced(s, h1, [], i, base, su.segSize).h
      ensures freeCell == Head(Spliced(s, h1, [], i, base, su.segSize).free, 0, su.NIL)
    {
      ghost var h := store.cells;
      var last := base + su.segSize - 1;
      assert su.segSize > 0;
      if s.free != [] {
        NextFree(su, s, h, base, 1);
      }
      hide Searching, Spliceable;
      if freeCell == su.NIL || last + 1 < freeCell {
        i := 0;
        PlaceFound(su, s, h, base, i);
        FirstFree(s.free, i, base, su.segSize, su.NIL);
        store.cells := store.cells[last := store.cells[last].(cdr := freeCell)];
        h1 := store.cells;
        freeCell := base;
      } else {
        var p := freeCell;
        i := 1;
        NextFree(su, s, h, base, i);
        while store.cells[p].cdr != su.NIL && base > store.cells[p].cdr
          invariant store.cells == h && freeCell == Head(s.free, 0, su.NIL)
          invariant 0 < i <= |s.free| && p == s.free[i - 1] && p < base && p in h
          invariant h[p].cdr == Head(s.free, i, su.NIL) && (h[p].cdr == su.NIL <==> i == |s.free|)
          decreases |s.free| - i
        {
          p := store.cells[p].cdr;
          i := i + 1;
          NextFree(su, s, h, base, i);
        }
        PlaceFound(su, s, h, base, i);
        FirstFree(s.free, i, base, su.segSize, su.NIL);
        store.cells := store.cells[last := store.cells[last].(cdr := store.cells[p].cdr)];
        h1 := store.cells;
        store.cells := store.cells[p := store.cells[p].(cdr := base)];
      }
    }

    // The body of alloc_cellseg's loop, once malloc has found a block.
    method GrowHeap(base: Addr, ghost s: State) returns (ghost i: nat, ghost k: nat, ghost h1: Heap)
      requires s == St() && Sound(su, s, {}) && Fits(su, s, base) && freeCell == Head(free, 0, su.NIL)
      modifies store, this`cellSeg, this`freeCell, this`fcells
      ensures Spliceable(su, s, h1, i, base) && k <= |s.segs| && Position(s.segs, k, base)
      ensures cellSeg == WithSegment(s.segs, k, base) && |cellSeg| == |s.segs| + 1
      ensures i <= |s.free| && store.cells == Spliced(s, h1, [], i, base, su.segSize).h
      ensures freeCell == Head(Spliced(s, h1, [], i, base, su.segSize).free, 0, su.NIL)
      ensures fcells == old(fcells) + su.segSize
    {
      hide Sound, Spliced, Position, Spliceable, Fits, WithSegment, Searching, BlockOf, Block, Elems, Allocated;
      SearchReady(su, s, base);
      k := InsertSegment(base);
      fcells := fcells + su.segSize;
      FillSegment(base, s);
      NowSearching(su, s, store.cells, base);
      i, h1 := LinkSegment(base, s);
    }

    method AddSegment(base: Addr)
      requires Valid({}) && Fits(su, St(), base) && |cellSeg| < su.nSegments
      modifies store, this`cellSeg, this`freeCell, this`fcells, this`free
      ensures Valid({}) && holders == old(holders)
      ensures |cellSeg| == |old(cellSeg)| + 1
      ensures free != [] && |free| == |old(free)| + su.segSize
      ensures AllocatedKept(old(St()), St())
      ensures forall b :: Fits(su, old(St()), b) && Apart(su, base, b) ==> Fits(su, St(), b)
    {
      ghost var s := St();
      hide Sound, Spliced, Position, Spliceable, Fits, AllocatedKept, WithSegment, Block, Elems;
      ghost var i, k, h1 := GrowHeap(base, s);
      SegmentAdded(su, s, h1, i, k, base, regs);
      free := Spliced(s, h1, [], i, base, su.segSize).free;
    }

    // alloc_cellseg: one new segment per block, until malloc fails (a block of NULL) or there are
    // CELL_NSEGMENT of them.
    method AllocCellSeg(blocks: seq<Addr>) returns (k: nat)
      requires Valid({})
      requires forall j :: 0 <= j < |blocks| ==> blocks[j] == NULL || Fits(su, St(), blocks[j])
      requires forall i, j :: 0 <= i < j < |blocks| && blocks[i] != NULL && blocks[j] != NULL ==>
                 Apart(su, blocks[i], blocks[j])
      modifies store, this`cellSeg, this`freeCell, this`fcells, this`free
      ensures Valid({}) && AllocatedKept(old(St()), St())
      ensures k <= |blocks| && |cellSeg| == |old(cellSeg)| + k && (k > 0 ==> free != [])
      ensures k < |blocks| ==> blocks[k] == NULL || |cellSeg| == su.nSegments
      ensures OtherBlocksFit(su, old(St()), St(), blocks)
    {
      hide Sound, Fits, AllocatedKept, OtherBlocksFit;
      k := 0;
      KeptSelf(St());
      OtherBlocksSelf(su, St(), blocks);
      while k < |blocks|
        invariant 0 <= k <= |blocks| && Valid({}) && AllocatedKept(old(St()), St())
        invariant |cellSeg| == |old(cellSeg)| + k && (k > 0 ==> free != [])
        invariant forall j :: k <= j < |blocks| ==> blocks[j] == NULL || Fits(su, St(), blocks[j])
        invariant OtherBlocksFit(su, old(St()), St(), blocks)
      {
        if |cellSeg| >= su.nSegments {
          return;
        }
        if blocks[k] == NULL {
          return;
        }
        ghost var s := St();
        AddSegment(blocks[k]);
        KeptTwice(old(St()), s, St());
        OtherBlocksNext(su, old(St()), s, St(), blocks, k);
        k := k + 1;
      }
    }

    // ---------- single cells ----------

    // get_cell_x: a cell that has no type yet, or the sink when there is no memory.  block is what
    // malloc would answer.
    method GetCellX(a: Addr, b: Addr, block: Addr) returns (x: Addr)
      requires Valid({}) && Allocated(store.cells, a) && Allocated(store.cells, b)
      requires block == NULL || Fits(su, St(), block)
      modifies store, this`cellSeg, this`freeCell, this`fcells, this`free, this`noMemory
      ensures x == su.sink ==> noMemory && Valid({})
      ensures x != su.sink ==> Valid({x}) && x !in LiveSet(old(store.cells), Elems(old(RootList(a, b))))
      ensures Kept(su, old(St()), St(), Elems(old(RootList(a, b)))) && holders == old(holders)
      ensures OtherBlocksFit(su, old(St()), St(), [block])
    {
      if freeCell != su.NIL {
        ghost var roots := Elems(RootList(a, b));
        RootsAllocated(a, b);
        hide Sound, Fits, AllocatedKept, Kept, Elems, LiveSet, Collected, OtherBlocksFit;
        KeptSelf(St());
        AllocatedKeeps(su, St(), St(), roots);
        OtherBlocksSelf(su, St(), [block]);
        ghost var t := St();
        x := PopFree(St(), roots);
        OtherBlocksSame(su, t, t, St(), [block]);
      } else {
        x := GetCellSlow(a, b, block);
      }
    }

    // _get_cell
    method GetCellSlow(a: Addr, b: Addr, block: Addr) returns (x: Addr)
      requires Valid({}) && Allocated(store.cells, a) && Allocated(store.cells, b)
      requires block == NULL || Fits(su, St(), block)
      modifies store, this`cellSeg, this`freeCell, this`fcells, this`free, this`noMemory
      ensures x == su.sink ==> noMemory && Valid({})
      ensures x != su.sink ==> Valid({x}) && x !in LiveSet(old(store.cells), Elems(old(RootList(a, b))))
      ensures Kept(su, old(St()), St(), Elems(old(RootList(a, b)))) && holders == old(holders)
      ensures OtherBlocksFit(su, old(St()), St(), [block])
    {
      ghost var s := St();
      ghost var roots := Elems(RootList(a, b));
      RootsAllocated(a, b);
      hide Sound, Fits, AllocatedKept, Kept, Elems, LiveSet, Collected, OtherBlocksFit;
      KeptSelf(s);
      AllocatedKeeps(su, s, s, roots);
      OtherBlocksSelf(su, s, [block]);
      if noMemory {
        return su.sink;
      }
      if freeCell == su.NIL {
        Refill(a, b, block, s, roots);
        if noMemory {
          return su.sink;
        }
      }
      ghost var t := St();
      x := PopFree(s, roots);
      OtherBlocksSame(su, s, t, St(), [block]);
    }

    // The part of _get_cell that collects and, when that recovers too little, grows the heap.
    method Refill(a: Addr, b: Addr, block: Addr, ghost s: State, ghost roots: set<Addr>)
      requires Valid({}) && Allocated(store.cells, a) && Allocated(store.cells, b) && !noMemory
      requires block == NULL || Fits(su, St(), block)
      requires s == St() && roots == Elems(RootList(a, b))
      modifies store, this`cellSeg, this`freeCell, this`fcells, this`free, this`noMemory
      ensures Valid({}) && (noMemory <==> freeCell == su.NIL) && holders == s.holders
      ensures Kept(su, s, St(), roots) && OtherBlocksFit(su, s, St(), [block])
    {
      hide Sound, Fits, AllocatedKept, Kept, Elems, LiveSet, Collected, OtherBlocksFit;
      RootsAllocated(a, b);
      Gc(a, b);
      CollectKeeps(su, s, St(), roots);
      OtherBlocksCollected(su, s, St(), roots, [block]);
      if fcells < (|cellSeg| - 1) * 8 || freeCell == su.NIL {
        if block != NULL {
          CollectedFits(su, s, St(), roots, block);
        }
        var k := GrowOnce(block, s, roots);
        if k == 0 && freeCell == su.NIL {
          noMemory := true;
        }
      }
    }

    // alloc_cellseg(sc, 1) in the course of an allocation that began in state s.
    method GrowOnce(block: Addr, ghost s: State, ghost roots: set<Addr>) returns (k: nat)
      requires Valid({}) && (block == NULL || Fits(su, St(), block))
      requires Sound(su, s, {}) && (forall r :: r in roots ==> Allocated(s.h, r))
      requires Kept(su, s, St(), roots) && OtherBlocksFit(su, s, St(), [block])
      modifies store, this`cellSeg, this`freeCell, this`fcells, this`free
      ensures Valid({}) && holders == old(holders)
      ensures (freeCell == su.NIL <==> free == []) && (k > 0 ==> free != [])
      ensures Kept(su, s, St(), roots) && OtherBlocksFit(su, s, St(), [block])
    {
      hide Sound, Fits, Kept, LiveSet, OtherBlocksFit;
      ghost var t := St();
      k := AllocCellSeg([block]);
      KeptThen(su, s, t, St(), roots);
      OtherBlocksThen(su, s, t, St(), [block]);
      HeadNotNil(su, St());
    }

    // Take the first cell off the free list.
    method PopFree(ghost s: State, ghost roots: set<Addr>) returns (x: Addr)
      requires Valid({}) && freeCell != su.NIL
      requires Sound(su, s, {}) && Kept(su, s, St(), roots) && forall r :: r in roots ==> Allocated(s.h, r)
      modifies this`freeCell, this`fcells, this`free
      ensures x != su.sink && Valid({x}) && x !in LiveSet(s.h, roots)
      ensures Kept(su, s, St(), roots)
    {
      PopFirst(su, s, St(), roots);
      hide Sound, Kept, LiveSet;
      x := freeCell;
      freeCell := store.cells[x].cdr;
      fcells := fcells - 1;
      free := free[1..];
    }

    // push_recent_alloc, in the course of an allocation: roots is what the collector starts from.
    method PushRecentAlloc(recent: Addr, extra: Addr, block: Addr, ghost s: State, ghost roots: set<Addr>)
      returns (holder: Addr)
      requires Valid({}) && Allocated(store.cells, recent) && Allocated(store.cells, extra)
      requires block == NULL || Fits(su, St(), block)
      requires s == St() && roots == Elems(RootList(recent, extra))
      modifies store, this`cellSeg, this`freeCell, this`fcells, this`free, this`noMemory, this`holders
      ensures holder == su.sink ==> noMemory
      ensures holder != su.sink ==>
                && Valid({}) && holders == [holder] + s.holders && Recent(St(), recent)
                && Kept(su, s, St(), roots) && holder !in LiveSet(s.h, roots)
    {
      RootsAllocated(recent, extra);
      hide Sound, Fits, AllocatedKept, Kept, Elems, LiveSet, OtherBlocksFit, Recent;
      holder := GetCellX(recent, extra, block);
      if holder != su.sink {
        RootKept(su, s, St(), roots, recent);
        Push(holder, recent, s, roots);
      }
    }

    method Push(holder: Addr, recent: Addr, ghost s: State, ghost roots: set<Addr>)
      requires Valid({holder}) && holder != su.sink && Allocated(store.cells, recent)
      requires Kept(su, s, St(), roots) && holder !in LiveSet(s.h, roots)
      modifies store, this`holders
      ensures Valid({}) && holders == [holder] + old(holders) && Recent(St(), recent)
      ensures Kept(su, s, St(), roots)
    {
      ghost var t := St();
      PushHolder(su, s, t, holder, recent, roots);
      hide Sound, Kept, LiveSet, Recent, Setup.Fixed;
      store.cells := store.cells[holder := Cell(Plain, false, false, recent, store.cells[su.sink].car)];
      store.cells := store.cells[su.sink := store.cells[su.sink].(car := holder)];
      holders := [holder] + holders;
      assert St() == Pushed(su, t, holder, recent);
    }

    // get_cell: a pair of a and b, recorded as recent.  When memory runs out it stops short.
    method GetCell(a: Addr, b: Addr, block: Addr, block': Addr) returns (cell: Addr, ghost holder: Addr)
      requires Valid({}) && Allocated(store.cells, a) && Allocated(store.cells, b)
      requires block == NULL || Fits(su, St(), block)
      requires block' == NULL || (Fits(su, St(), block') && (block == NULL || Apart(su, block, block')))
      modifies store, this`cellSeg, this`freeCell, this`fcells, this`free, this`noMemory, this`holders
      ensures cell == su.sink || holder == su.sink ==> noMemory
      ensures cell != su.sink && holder != su.sink ==>
                && Valid({}) && holders == [holder] + old(holders) && Recent(St(), cell)
                && Kept(su, old(St()), St(), Elems(old(RootList(a, b))))
                && cell !in LiveSet(old(store.cells), Elems(old(RootList(a, b))))
                && cell in store.cells && store.cells[cell] == Cell(Plain, false, false, a, b)
    {
      ghost var s := St();
      ghost var roots := Elems(RootList(a, b));
      holder := su.sink;
      cell := MakeCell(a, b, block, s, roots);
      if cell != su.sink {
        ghost var t := St();
        SecondBlock(su, s, t, block, block');
        holder := PushRecentAlloc(cell, su.NIL, block', t, Elems(RootList(cell, su.NIL)));
        if holder != su.sink {
          PairKept(su, s, t, St(), regs, cell, a, b);
        }
      }
    }

    // The first half of get_cell.
    method MakeCell(a: Addr, b: Addr, block: Addr, ghost s: State, ghost roots: set<Addr>) returns (cell: Addr)
      requires Valid({}) && Allocated(store.cells, a) && Allocated(store.cells, b)
      requires block == NULL || Fits(su, St(), block)
      requires s == St() && roots == Elems(RootList(a, b))
      modifies store, this`cellSeg, this`freeCell, this`fcells, this`free, this`noMemory
      ensures cell == su.sink ==> noMemory
      ensures cell != su.sink ==>
                && Valid({}) && holders == s.holders && Allocated(store.cells, cell) && Allocated(store.cells, su.NIL)
                && Kept(su, s, St(), roots) && cell !in LiveSet(s.h, roots) && !su.Fixed(cell)
                && store.cells[cell] == Cell(Plain, false, false, a, b)
                && OtherBlocksFit(su, s, St(), [block])
    {
      RootsAllocated(a, b);
      hide Sound, Fits, AllocatedKept, Kept, Elems, LiveSet, OtherBlocksFit;
      cell := GetCellX(a, b, block);
      if cell != su.sink {
        ghost var t := St();
        RootKept(su, s, t, roots, a);
        RootKept(su, s, t, roots, b);
        MakePair(su, s, t, cell, a, b, roots);
        store.cells := store.cells[cell := Cell(Plain, false, false, a, b)];
        assert St() == Put(t, cell, Cell(Plain, false, false, a, b));
        OtherBlocksSame(su, s, t, St(), [block]);
        FixedPresent(su, St());
      }
    }

    // ok_to_freely_gc
    method OkToFreelyGc()
      requires Valid({})
      modifies store, this`holders
      ensures Valid({}) && holders == [] && St() == Cleared(old(St()), su)
    {
      ClearHolders(su, St());
      FixedPresent(su, St());
      hide Sound;
      store.cells := store.cells[su.sink := store.cells[su.sink].(car := su.NIL)];
      holders := [];
    }

    // set-car! and set-cdr!: the interpreter changes a pair.
    method SetPair(p: Addr, a: Addr, b: Addr)
      requires Valid({}) && Allocated(store.cells, p) && store.cells[p].kind.Plain? && !su.Fixed(p) && p !in holders
      requires Allocated(store.cells, a) && Allocated(store.cells, b)
      modifies store
      ensures Valid({}) && store.cells == old(store.cells)[p := Cell(Plain, false, false, a, b)]
    {
      ghost var s := St();
      Overwrite(su, s, p, Cell(Plain, false, false, a, b));
      hide Sound;
      store.cells := store.cells[p := Cell(Plain, false, false, a, b)];
    }

    // ---------- consecutive cells ----------

    // count_consecutive_cells, for the entry i of the free list
    method CountConsecutiveCells(x: Addr, needed: nat, ghost i: nat) returns (n: nat)
      requires Valid({}) && needed > 0 && i < |free| && x == free[i]
      ensures 0 < n <= needed + 1 && RunAt(St(), i, n)
      ensures n <= needed ==> !RunAt(St(), i, n + 1)
    {
      var p := x;
      n := 1;
      RunOne(St(), i);
      RunStep(su, St(), i, 1);
      hide Sound, RunAt;
      while store.cells[p].cdr == p + 1
        invariant 0 < n <= needed && RunAt(St(), i, n) && i + n <= |free|
        invariant p == free[i + n - 1] && p in store.cells
        invariant store.cells[p].cdr == Head(free, i + n, su.NIL)
        invariant store.cells[p].cdr == p + 1 <==> RunAt(St(), i, n + 1)
        decreases |free| - n
      {
        RunInside(St(), i, n + 1);
        p := store.cells[p].cdr;
        n := n + 1;
        RunStep(su, St(), i, n);
        if n > needed {
          return;
        }
      }
    }

    // The search of find_consecutive_cells: x starts the lowest run of n free cells and pp is the free
    // cell before it (NULL stands for free_cell itself); x is NIL if there is no such run.
    method SearchRun(n: nat) returns (pp: Addr, x: Addr, ghost i: nat)
      requires Valid({}) && n > 0
      ensures x == su.NIL ==> NoRunBefore(St(), |free|, n)
      ensures x != su.NIL ==>
                && RunAt(St(), i, n) && NoRunBefore(St(), i, n) && i < |free| && x == free[i]
                && pp == if i == 0 then NULL else free[i - 1]
    {
      hide Sound, RunAt, NoRunBefore;
      i := 0;
      pp := NULL;
      x := freeCell;
      HeadNotNil(su, St());
      NoRunYet(St(), n);
      while x != su.NIL
        invariant i <= |free| && x == Head(free, i, su.NIL) && (x == su.NIL <==> i == |free|)
        invariant pp == if i == 0 then NULL else free[i - 1]
        invariant NoRunBefore(St(), i, n)
        decreases |free| - i
      {
        var cnt := CountConsecutiveCells(x, n, i);
        if cnt >= n {
          RunLongEnough(St(), i, cnt, n);
          return;
        }
        SearchOn(su, St(), i, cnt, n);
        i := i + cnt;
        pp := x + cnt - 1;
        x := store.cells[pp].cdr;
      }
    }

    // find_consecutive_cells: the lowest run of n free cells, taken off the list, or NIL
    method FindConsecutiveCells(n: nat) returns (x: Addr, ghost i: nat)
      requires Valid({}) && n > 0
      modifies store, this`freeCell, this`fcells, this`free
      ensures x == su.NIL ==> Valid({}) && St() == old(St()) && NoRunBefore(St(), |free|, n)
      ensures x != su.NIL ==>
                && RunAt(old(St()), i, n) && NoRunBefore(old(St()), i, n) && x == old(free)[i]
                && St() == Without(old(St()), i, n, su) && Valid(Taken(old(St()), i, n))
    {
      hide Sound, RunAt, NoRunBefore, Without, Taken;
      var pp;
      pp, x, i := SearchRun(n);
      if x != su.NIL {
        Unlink(pp, i, n);
      }
    }

    // Take the n cells from entry i on off the list; pp is the cell before them, if there is one.
    method Unlink(pp: Addr, ghost i: nat, n: nat)
      requires Valid({}) && n > 0 && RunAt(St(), i, n) && pp == if i == 0 then NULL else free[i - 1]
      modifies store, this`freeCell, this`fcells, this`free
      ensures St() == Without(old(St()), i, n, su) && Valid(Taken(old(St()), i, n))
    {
      ghost var s := St();
      hide Sound, RunAt, AllocatedKept, Without, Taken;
      UnlinkRun(su, s, i, n, regs);
      var x := if pp == NULL then freeCell else store.cells[pp].cdr;
      var next := store.cells[x + n - 1].cdr;
      if pp == NULL {
        freeCell := next;
      } else {
        store.cells := store.cells[pp := store.cells[pp].(cdr := next)];
      }
      fcells := fcells - n;
      free := Without(s, i, n, su).free;
    }

    // One search in the course of an allocation that began in state s.
    method TryConsecutive(n: nat, ghost s: State, ghost roots: set<Addr>, ghost block: Addr)
      returns (x: Addr, ghost raw: set<Addr>)
      requires Valid({}) && n > 0 && OtherBlocksFit(su, s, St(), [block])
      requires Sound(su, s, {}) && Kept(su, s, St(), roots) && forall r :: r in roots ==> Allocated(s.h, r)
      modifies store, this`freeCell, this`fcells, this`free
      ensures x == su.NIL ==> Valid({}) && St() == old(St()) && NoRunBefore(St(), |free|, n)
      ensures x != su.NIL ==>
                && x != su.sink && Valid(raw) && Span(raw, x, n) && holders == old(holders)
                && Kept(su, s, St(), roots) && (forall y :: y in raw ==> y !in LiveSet(s.h, roots))
                && OtherBlocksFit(su, s, St(), [block])
      ensures cellSeg == old(cellSeg) && store.cells.Keys == old(store.cells).Keys
    {
      hide Sound, RunAt, NoRunBefore, Without, Taken, LiveSet, Kept, OtherBlocksFit;
      ghost var t := St();
      ghost var i;
      x, i := FindConsecutiveCells(n);
      raw := {};
      if x != su.NIL {
        RunTaken(t, i, n);
        RunIsDead(su, s, t, i, n, roots);
        raw := Taken(t, i, n);
        WithoutKeys(su, t, i, n);
        OtherBlocksSame(su, s, t, St(), [block]);
      }
    }

    // get_consecutive_cells: n cells one after the other, or the sink when there is no memory
    method GetConsecutiveCells(n: nat, block: Addr, ghost s: State, ghost roots: set<Addr>)
      returns (x: Addr, ghost raw: set<Addr>)
      requires Valid({}) && n > 0 && (block == NULL || Fits(su, St(), block))
      requires s == St() && Allocated(store.cells, su.NIL) && roots == Elems(RootList(su.NIL, su.NIL))
      modifies store, this`cellSeg, this`freeCell, this`fcells, this`free, this`noMemory
      ensures x == su.sink ==> noMemory
      ensures x != su.sink ==>
                && Valid(raw) && Span(raw, x, n) && holders == s.holders
                && Kept(su, s, St(), roots) && (forall y :: y in raw ==> y !in LiveSet(s.h, roots))
                && OtherBlocksFit(su, s, St(), [block])
    {
      RootsAllocated(su.NIL, su.NIL);
      hide Sound, LiveSet, Kept, Elems, Fits, NoRunBefore, Span, AllocatedKept, OtherBlocksFit;
      if noMemory {
        return su.sink, {};
      }
      KeptSelf(s);
      AllocatedKeeps(su, s, s, roots);
      OtherBlocksSelf(su, s, [block]);
      x, raw := TryConsecutive(n, s, roots, block);
      if x == su.NIL {
        x, raw := CollectAndTry(n, block, s, roots);
      }
    }

    method CollectAndTry(n: nat, block: Addr, ghost s: State, ghost roots: set<Addr>)
      returns (x: Addr, ghost raw: set<Addr>)
      requires Valid({}) && n > 0 && (block == NULL || Fits(su, St(), block))
      requires s == St() && Allocated(store.cells, su.NIL) && roots == Elems(RootList(su.NIL, su.NIL))
      requires forall r :: r in roots ==> Allocated(s.h, r)
      modifies store, this`cellSeg, this`freeCell, this`fcells, this`free, this`noMemory
      ensures x == su.sink ==> noMemory
      ensures x != su.sink ==>
                && Valid(raw) && Span(raw, x, n) && holders == s.holders
                && Kept(su, s, St(), roots) && (forall y :: y in raw ==> y !in LiveSet(s.h, roots))
                && OtherBlocksFit(su, s, St(), [block])
    {
      hide Sound, LiveSet, Kept, Elems, Fits, NoRunBefore, Span, Collected, OtherBlocksFit;
      Gc(su.NIL, su.NIL);
      ghost var t := St();
      CollectKeeps(su, s, t, roots);
      OtherBlocksCollected(su, s, t, roots, [block]);
      if block != NULL {
        CollectedFits(su, s, t, roots, block);
      }
      x, raw := TryConsecutive(n, s, roots, block);
      if x == su.NIL {
        x, raw := GrowAndTry(n, block, s, roots);
      }
    }

    method GrowAndTry(n: nat, block: Addr, ghost s: State, ghost roots: set<Addr>)
      returns (x: Addr, ghost raw: set<Addr>)
      requires Valid({}) && n > 0 && (block == NULL || Fits(su, St(), block))
      requires Sound(su, s, {}) && Kept(su, s, St(), roots) && holders == s.holders
               && OtherBlocksFit(su, s, St(), [block])
      requires forall r :: r in roots ==> Allocated(s.h, r)
      modifies store, this`cellSeg, this`freeCell, this`fcells, this`free, this`noMemory
      ensures x == su.sink ==> noMemory
      ensures x != su.sink ==>
                && Valid(raw) && Span(raw, x, n) && holders == s.holders
                && Kept(su, s, St(), roots) && (forall y :: y in raw ==> y !in LiveSet(s.h, roots))
                && OtherBlocksFit(su, s, St(), [block])
    {
      hide Sound, LiveSet, Kept, Elems, Fits, NoRunBefore, Span, OtherBlocksFit;
      ghost var t := St();
      var k := AllocCellSeg([block]);
      if k == 0 {
        noMemory := true;
        return su.sink, {};
      }
      KeptThen(su, s, t, St(), roots);
      SameHolders(t, St());
      OtherBlocksThen(su, s, t, St(), [block]);
      x, raw := TryConsecutive(n, s, roots, block);
      if x == su.NIL {
        noMemory := true;
        return su.sink, {};
      }
    }

    // fill_vector of the new vector at x, after its header has been written
    method FillVector(x: Addr, len: nat, ghost t: State)
      requires x in t.h && (forall q :: x <= q <= x + (len / 2 + len % 2) ==> q in t.h)
      requires store.cells == t.h[x := HeaderCell(t.h, x, len)]
      modifies store
      ensures store.cells == VectorState(t, x, len, su.NIL).h
    {
      var num := len / 2 + len % 2;
      var i := 0;
      SlotsNext(t.h, x, 0, su.NIL);
      while i < num
        invariant 0 <= i <= num
        invariant store.cells == SlotsHeap(t.h, x, i, su.NIL)[x := HeaderCell(t.h, x, len)]
      {
        SlotsNext(t.h, x, i + 1, su.NIL);
        store.cells := store.cells[x + 1 + i := SlotCell(su.NIL)];
        i := i + 1;
      }
    }

    // get_vector_object: a vector of len empty elements, recorded as recent.  When memory runs out it
    // stops short.
    method GetVectorObject(len: nat, block: Addr, block': Addr) returns (x: Addr, ghost holder: Addr)
      requires Valid({}) && Allocated(store.cells, su.NIL)
      requires block == NULL || Fits(su, St(), block)
      requires block' == NULL || (Fits(su, St(), block') && (block == NULL || Apart(su, block, block')))
      modifies store, this`cellSeg, this`freeCell, this`fcells, this`free, this`noMemory, this`holders
      ensures x == su.sink || holder == su.sink ==> noMemory
      ensures x != su.sink && holder != su.sink ==>
                && Valid({}) && holders == [holder] + old(holders) && Recent(St(), x)
                && Kept(su, old(St()), St(), Elems(old(RootList(su.NIL, su.NIL))))
                && x !in LiveSet(old(store.cells), Elems(old(RootList(su.NIL, su.NIL))))
                && EmptyVector(store.cells, x, len, su.NIL)
    {
      ghost var s := St();
      ghost var roots := Elems(RootList(su.NIL, su.NIL));
      holder := su.sink;
      x := MakeVectorCells(len, block, s, roots);
      if x != su.sink {
        ghost var t := St();
        hide Sound, LiveSet, Kept, Fits, OtherBlocksFit, EmptyVector, Recent;
        SecondBlock(su, s, t, block, block');
        FixedPresent(su, t);
        holder := PushRecentAlloc(x, su.NIL, block', t, Elems(RootList(x, su.NIL)));
        if holder != su.sink {
          FixedPresent(su, s);
          VectorKept(su, s, t, St(), regs, x, len);
        }
      }
    }

    // The first half of get_vector_object.
    method MakeVectorCells(len: nat, block: Addr, ghost s: State, ghost roots: set<Addr>) returns (x: Addr)
      requires Valid({}) && Allocated(store.cells, su.NIL) && (block == NULL || Fits(su, St(), block))
      requires s == St() && roots == Elems(RootList(su.NIL, su.NIL))
      modifies store, this`cellSeg, this`freeCell, this`fcells, this`free, this`noMemory
      ensures x == su.sink ==> noMemory
      ensures x != su.sink ==>
                && Valid({}) && holders == s.holders && Allocated(store.cells, x)
                && Kept(su, s, St(), roots) && x !in LiveSet(s.h, roots)
                && EmptyVector(store.cells, x, len, su.NIL) && OtherBlocksFit(su, s, St(), [block])
                && forall q :: x <= q <= x + (len / 2 + len % 2) ==> !su.Fixed(q)
    {
      hide Sound, LiveSet, Kept, Fits, OtherBlocksFit, EmptyVector, Elems;
      ghost var raw;
      x, raw := GetConsecutiveCells(len / 2 + len % 2 + 1, block, s, roots);
      if x != su.sink {
        ghost var t := St();
        VectorMade(su, t, raw, x, len);
        MakeVector(su, s, t, raw, x, len, roots);
        SpanInHeap(su, t, raw, x, len / 2 + len % 2 + 1);
        store.cells := store.cells[x := Cell(Vec(len), true, false, store.cells[x].car, store.cells[x].cdr)];
        FillVector(x, len, t);
        hide VectorState, Span;
        VectorStateParts(t, x, len, su.NIL);
        OtherBlocksSame(su, s, t, St(), [block]);
      }
    }
  }

  lemma SweepStart(h0: Heap, su: Setup, segs: seq<Addr>, q: Addr)
    requires su.Layout(h0, segs) && q == if segs == [] then 0 else segs[|segs| - 1] + su.segSize
    ensures Swept(h0, h0, su, segs, q, su.NIL, [])
  {
  }

  lemma SegmentCell(h0: Heap, su: Setup, segs: seq<Addr>, i: nat, p: Addr)
    requires su.Layout(h0, segs) && i < |segs| && su.InSegment(segs[i], p)
    ensures p in h0 && su.InSegments(segs, p)
  {
  }

  lemma CleanCar(h0: Heap, p: Addr, NIL: Addr)
    requires FreeCellsClean(h0, NIL) && p in h0
    ensures h0[p].kind.Free? && !h0[p].atom && !h0[p].mark ==> h0[p].car == NIL
  {
  }

  lemma SegmentGap(h0: Heap, h: Heap, su: Setup, segs: seq<Addr>, i: nat, first: Addr, fl: seq<Addr>)
    requires 0 < i < |segs| && Swept(h0, h, su, segs, segs[i], first, fl) && su.Layout(h0, segs)
    ensures Swept(h0, h, su, segs, segs[i - 1] + su.segSize, first, fl)
  {
    SweepGap(h0, h, su, segs, segs[i], segs[i - 1] + su.segSize, first, fl);
  }
}
