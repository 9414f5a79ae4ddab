/** Where the cells lie, the address-ordered free list, and the sweep that rebuilds it. */
module Sweeping {
  import opened CellHeap

  // What stays the same for one interpreter: CELL_SEGSIZE, CELL_NSEGMENT, and the cells embedded
  // in the interpreter's own record, which lie outside every segment.
  datatype Setup = Setup(segSize: nat, nSegments: nat, NIL: Addr, sink: Addr, others: set<Addr>) {
    ghost predicate Fixed(p: Addr) {
      p == NIL || p == sink || p in others
    }

    predicate InSegment(base: Addr, p: Addr) {
      base <= p < base + segSize
    }

    ghost predicate InSegments(segs: seq<Addr>, p: Addr) {
      exists i :: 0 <= i < |segs| && InSegment(segs[i], p)
    }

    // Segments are in address order and never adjacent: the slack that aligns a segment leaves at
    // least one address between it and whatever comes next.
    ghost predicate Layout(h: Heap, segs: seq<Addr>) {
      && (forall i, j :: 0 <= i < j < |segs| ==> segs[i] + segSize < segs[j])
      && (forall p :: p in h <==> Fixed(p) || InSegments(segs, p))
      && (forall p, i :: Fixed(p) && 0 <= i < |segs| ==> p < segs[i] || segs[i] + segSize < p)
      && NIL != sink && segSize > 0
    }
  }

  predicate FreeCell(h: Heap, p: Addr, next: Addr, NIL: Addr) {
    p in h && h[p] == Cell(Free, false, false, NIL, next)
  }

  // The free list that starts at first holds the addresses fl, in strictly ascending order.
  ghost predicate FreeList(h: Heap, first: Addr, fl: seq<Addr>, NIL: Addr) {
    && (forall i, j :: 0 <= i < j < |fl| ==> fl[i] < fl[j])
    && first == Head(fl, 0, NIL)
    && forall i :: 0 <= i < |fl| ==> FreeAt(h, fl, i, NIL)
  }

  predicate FreeAt(h: Heap, fl: seq<Addr>, i: nat, NIL: Addr)
    requires i < |fl|
  {
    FreeCell(h, fl[i], Head(fl, i + 1, NIL), NIL)
  }

  function Head(fl: seq<Addr>, i: nat, NIL: Addr): Addr {
    if i < |fl| then fl[i] else NIL
  }

  // The heap after every segment cell from address q up has been swept; h0 is the heap before.
  ghost predicate Swept(h0: Heap, h: Heap, su: Setup, segs: seq<Addr>, q: Addr, first: Addr, fl: seq<Addr>) {
    && h.Keys == h0.Keys
    && FreeList(h, first, fl, su.NIL)
    && (forall x :: x in fl <==> x in h0 && su.InSegments(segs, x) && x >= q && !h0[x].mark)
    && (forall x :: x in h0 && su.InSegments(segs, x) && x >= q && h0[x].mark ==> h[x] == h0[x].(mark := false))
    && (forall x :: x in h0 && (x < q || !su.InSegments(segs, x)) ==> h[x] == h0[x])
  }

  ghost predicate FreeCellsClean(h0: Heap, NIL: Addr) {
    forall x :: x in h0 && h0[x].kind.Free? && !h0[x].atom && !h0[x].mark ==> h0[x].car == NIL
  }

  // The free list depends on its own cells only.
  lemma SameFree(h: Heap, h1: Heap, first: Addr, fl: seq<Addr>, NIL: Addr)
    requires FreeList(h, first, fl, NIL)
    requires forall x :: x in fl ==> x in h1 && x in h && h1[x] == h[x]
    ensures FreeList(h1, first, fl, NIL)
  {
    forall i | 0 <= i < |fl| ensures FreeAt(h1, fl, i, NIL) {
      assert FreeAt(h, fl, i, NIL) && fl[i] in fl;
    }
  }

  lemma SweepMarked(h0: Heap, h: Heap, su: Setup, segs: seq<Addr>, p: Addr, first: Addr, fl: seq<Addr>)
    requires Swept(h0, h, su, segs, p + 1, first, fl) && p in h0 && su.InSegments(segs, p) && h0[p].mark
    ensures p in h && h[p] == h0[p]
    ensures Swept(h0, h[p := h0[p].(mark := false)], su, segs, p, first, fl)
  {
    forall x | x in fl ensures x in h {
      assert x in h0;
    }
    SameFree(h, h[p := h0[p].(mark := false)], first, fl, su.NIL);
  }

  // Putting a cell below all others at the front of the free list.
  lemma PushFree(h: Heap, p: Addr, first: Addr, fl: seq<Addr>, NIL: Addr)
    requires FreeList(h, first, fl, NIL) && forall x :: x in fl ==> p < x
    ensures FreeList(h[p := Cell(Free, false, false, NIL, first)], p, [p] + fl, NIL)
  {
    var h1, fl1 := h[p := Cell(Free, false, false, NIL, first)], [p] + fl;
    forall j | 0 < j < |fl1| ensures p < fl1[j] {
      assert fl[j - 1] in fl;
    }
    forall i | 0 <= i < |fl1| ensures FreeAt(h1, fl1, i, NIL) {
      assert i > 0 ==> FreeAt(h, fl, i - 1, NIL) && fl[i - 1] in fl;
    }
  }

  lemma SweepUnmarked(h0: Heap, h: Heap, su: Setup, segs: seq<Addr>, p: Addr, first: Addr, fl: seq<Addr>)
    requires Swept(h0, h, su, segs, p + 1, first, fl) && p in h0 && su.InSegments(segs, p) && !h0[p].mark
    ensures p in h && h[p] == h0[p]
    ensures Swept(h0, h[p := Cell(Free, false, false, su.NIL, first)], su, segs, p, p, [p] + fl)
  {
    PushFree(h, p, first, fl, su.NIL);
  }

  // Nothing lies between the end of a segment and the next one up.
  lemma SweepGap(h0: Heap, h: Heap, su: Setup, segs: seq<Addr>, q: Addr, q': Addr, first: Addr, fl: seq<Addr>)
    requires Swept(h0, h, su, segs, q, first, fl)
    requires forall x :: su.InSegments(segs, x) && q' <= x ==> q <= x
    requires q' <= q
    ensures Swept(h0, h, su, segs, q', first, fl)
  {
  }
}
