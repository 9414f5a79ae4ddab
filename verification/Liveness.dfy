/** Marking from a list of roots: with the marks as they stand at the start of a collection,
    exactly the live cells end up marked. */
module Liveness {
  import opened CellHeap
  import opened Marking

  // The cells reachable from some root, whatever marks the heap carries.
  ghost predicate Live(h: Heap, roots: set<Addr>, x: Addr) {
    exists r :: r in roots && x in Reach(WithMarks(h, {}), r)
  }

  ghost function LiveSet(h: Heap, roots: set<Addr>): set<Addr> {
    set x | x in h && Live(h, roots, x)
  }

  // Whatever a marked cell points to is marked too or is itself one of the roots.
  ghost predicate ClosedUpTo(h: Heap, m: set<Addr>, roots: set<Addr>) {
    forall u, v :: u in m && Child(h, u, v) ==> v in m || v in roots
  }

  lemma LiveRoot(h: Heap, roots: set<Addr>, r: Addr)
    requires r in roots && r in h
    ensures r in LiveSet(h, roots)
  {
    ReachSelf(WithMarks(h, {}), r);
  }

  lemma LiveChild(h: Heap, roots: set<Addr>, u: Addr, v: Addr)
    requires u in LiveSet(h, roots) && Child(h, u, v)
    ensures v in LiveSet(h, roots)
  {
    var r :| r in roots && u in Reach(WithMarks(h, {}), r);
    assert Child(WithMarks(h, {}), u, v);
    ReachStep(WithMarks(h, {}), r, u, v);
  }

  // A set that holds the roots and is closed under Child holds every live cell.
  lemma LiveWithin(h: Heap, roots: set<Addr>, c: set<Addr>)
    requires roots <= c
    requires forall u, v :: u in c && Child(h, u, v) ==> v in c
    ensures LiveSet(h, roots) <= c
  {
    var g := WithMarks(h, {});
    forall u, v | u in c && Step(g, u, v) ensures v in c {
      assert Child(h, u, v);
    }
    forall x | x in LiveSet(h, roots) ensures x in c {
      var r :| r in roots && x in Reach(g, r);
      ReachWithin(g, r, c);
    }
  }

  // One call of mark keeps the marked set closed up to the roots and within the live cells.
  lemma MarkRoot(h0: Heap, m: set<Addr>, roots: set<Addr>, r: Addr, m1: set<Addr>)
    requires r in roots && r in h0 && ClosedUpTo(h0, m, roots)
    requires m1 == m + Reach(WithMarks(h0, m), r)
    ensures ClosedUpTo(h0, m1, roots) && r in m1
    ensures m1 <= m + LiveSet(h0, roots)
  {
    var h := WithMarks(h0, m);
    ReachSelf(h, r);
    ReachClosed(h, r);
    LiveRoot(h0, roots, r);
    forall u, v | u in m1 && Child(h0, u, v) ensures v in m1 || v in roots {
      assert Child(h, u, v);
    }
    forall u, v | u in LiveSet(h0, roots) && Step(h, u, v) ensures v in LiveSet(h0, roots) {
      assert Child(h0, u, v);
      LiveChild(h0, roots, u, v);
    }
    ReachWithin(h, r, LiveSet(h0, roots));
  }

  lemma MarksKeepForm(h: Heap, m: set<Addr>)
    requires WellFormed(h)
    ensures WellFormed(WithMarks(h, m))
  {
    forall p | p in h ensures WellFormedCell(WithMarks(h, m), p) {
      assert WellFormedCell(h, p);
    }
  }

  lemma OwnMarks(h: Heap)
    ensures WithMarks(h, Marked(h)) == h && Marked(h) <= h.Keys
  {
    forall p | p in h ensures WithMarks(h, Marked(h))[p] == h[p] {
      assert p in Marked(h) <==> h[p].mark;
    }
  }

  ghost function Elems(s: seq<Addr>): set<Addr> {
    set r | r in s
  }

  // The first i roots have been marked, and the marks are m.
  ghost predicate RootsMarked(h0: Heap, roots: seq<Addr>, m: set<Addr>, i: nat) {
    && i <= |roots| && WellFormed(h0) && Elems(roots) <= h0.Keys
    && Marked(h0) <= m <= Marked(h0) + LiveSet(h0, Elems(roots))
    && ClosedUpTo(h0, m, Elems(roots))
    && forall j :: 0 <= j < i ==> roots[j] in m
  }

  lemma NextRoot(h0: Heap, roots: seq<Addr>, m: set<Addr>, i: nat) returns (m1: set<Addr>)
    requires RootsMarked(h0, roots, m, i) && i < |roots|
    ensures WellFormed(WithMarks(h0, m)) && roots[i] in WithMarks(h0, m)
    ensures (var h := WithMarks(h0, m); WithMarks(h, Marked(h) + Reach(h, roots[i])) == WithMarks(h0, m1))
    ensures RootsMarked(h0, roots, m1, i + 1)
  {
    var h := WithMarks(h0, m);
    MarksKeepForm(h0, m);
    assert Marked(h) == m;
    m1 := m + Reach(h, roots[i]);
    assert roots[i] in Elems(roots);
    MarkRoot(h0, m, Elems(roots), roots[i], m1);
  }

  lemma AllMarked(h0: Heap, roots: seq<Addr>, m: set<Addr>)
    requires RootsMarked(h0, roots, m, |roots|)
    ensures m == Marked(h0) + LiveSet(h0, Elems(roots))
  {
    assert Elems(roots) <= m;
    LiveWithin(h0, Elems(roots), m);
  }

  // The marking phase of a collection.
  method MarkAll(store: Store, roots: seq<Addr>)
    requires WellFormed(store.cells) && Elems(roots) <= store.cells.Keys
    requires ClosedUpTo(store.cells, Marked(store.cells), Elems(roots))
    modifies store
    ensures store.cells == WithMarks(old(store.cells),
                                     Marked(old(store.cells)) + LiveSet(old(store.cells), Elems(roots)))
  {
    ghost var h0 := store.cells;
    ghost var m := Marked(h0);
    OwnMarks(h0);
    var i := 0;
    assert RootsMarked(h0, roots, m, 0);
    hide RootsMarked, WithMarks, Reach, WellFormed, Marked, LiveSet;
    while i < |roots|
      invariant 0 <= i <= |roots|
      invariant store.cells == WithMarks(h0, m) && RootsMarked(h0, roots, m, i)
    {
      m := NextRoot(h0, roots, m, i);
      store.Mark(roots[i]);
      i := i + 1;
    }
    AllMarked(h0, roots, m);
  }
}
