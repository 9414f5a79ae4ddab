/** Link-inversion marking.  The path from the root to the current cell is kept in the cells
    themselves: a cell on the path has its car (atom flag set) or its cdr (atom flag clear)
    replaced by a pointer to its predecessor. */
module Marking {
  import opened CellHeap

  // Where the marking routine stands: E2 comes to p, E4 has marked it, E5 is done with its car,
  // E6 is done with p and goes back up.
  datatype Label = E2 | E4 | E5 | E6

  // Cell s lies on the inverted path between prev and next.
  ghost predicate Inverted(h0: Heap, h: Heap, s: Addr, prev: Addr, next: Addr) {
    && s in h0 && s in h && !h0[s].atom
    && if h[s].atom
       then h[s] == h0[s].(mark := true, atom := true, car := prev) && h0[s].car == next
       else && h[s] == h0[s].(mark := true, cdr := prev) && h0[s].cdr == next
            && (h0[s].car == NULL || (h0[s].car in h && h[h0[s].car].mark))
  }

  function Top(path: seq<Addr>): Addr {
    if path == [] then NULL else path[|path| - 1]
  }

  ghost predicate InvertedAt(h0: Heap, h: Heap, path: seq<Addr>, p: Addr, i: nat)
    requires i < |path|
  {
    Inverted(h0, h, path[i], if i == 0 then NULL else path[i - 1], if i + 1 < |path| then path[i + 1] else p)
  }

  // The path holds the inverted cells, the root's end first; p is the cell it leads to.
  ghost predicate PathInverted(h0: Heap, h: Heap, path: seq<Addr>, p: Addr) {
    && (forall i :: 0 <= i < |path| ==> InvertedAt(h0, h, path, p, i))
    && (forall i, j :: 0 <= i < j < |path| ==> path[i] != path[j])
    && p !in path
  }

  // Off the path only marks have been added.
  ghost predicate OnlyMarked(h0: Heap, h: Heap, path: seq<Addr>) {
    && h.Keys == h0.Keys
    && (forall x :: x in h0 && x !in path ==> h[x] == h0[x].(mark := h[x].mark))
    && (forall x :: x in h0 && h0[x].mark ==> h[x].mark)
  }

  // Every child of u is marked, and u's slots, if it is a vector, have themselves been visited.
  ghost predicate Done(h0: Heap, h: Heap, seen: set<Addr>, u: Addr) {
    forall v :: Child(h0, u, v) ==> v in h && h[v].mark && (h0[u].kind.Vec? ==> v in seen)
  }

  ghost predicate Visited(h0: Heap, h: Heap, a: Addr, path: seq<Addr>, p: Addr, seen: set<Addr>) {
    && seen <= Reach(h0, a)
    && (forall x :: x in h && x in h0 && h[x].mark && !h0[x].mark ==> x in seen)
    && (forall u :: u in seen ==> u in h && h[u].mark)
    && (forall u :: u in seen && u !in path && u != p ==> Done(h0, h, seen, u))
    && (forall u :: u in path ==> u in seen)
  }

  ghost predicate At(h0: Heap, h: Heap, a: Addr, path: seq<Addr>, p: Addr, seen: set<Addr>, pc: Label)
    requires p in h0 && p in h
  {
    match pc
    case E2 => p in Reach(h0, a) && if p == a then path == [] && seen == {} else a in seen && !h[p].mark
    case E4 => a in seen && p in seen
    case E5 => a in seen && p in seen && !h0[p].atom && (h0[p].car == NULL || (h0[p].car in h && h[h0[p].car].mark))
    case E6 => a in seen && p in seen && Done(h0, h, seen, p)
  }

  ghost predicate Marks(h0: Heap, h: Heap, a: Addr, path: seq<Addr>, p: Addr, seen: set<Addr>, pc: Label) {
    && WellFormed(h0) && a in h0 && p in h0
    && OnlyMarked(h0, h, path)
    && PathInverted(h0, h, path, p)
    && Visited(h0, h, a, path, p, seen)
    && At(h0, h, a, path, p, seen, pc)
  }

  lemma PathInHeap(h0: Heap, h: Heap, a: Addr, path: seq<Addr>, p: Addr, seen: set<Addr>, pc: Label)
    requires Marks(h0, h, a, path, p, seen, pc)
    ensures WellFormed(h) && p in h && WellFormedCell(h, p) && h.Keys == h0.Keys && h[p].kind == h0[p].kind
            && h[p].atom == h0[p].atom
    ensures path == [] <==> Top(path) == NULL
    ensures path != [] ==> Top(path) in h && Top(path) != p
    ensures (pc == E5 ==> !h[p].atom) && (pc != E2 ==> h[p].mark)
  {
    assert WellFormedCell(h0, p);
    assert path != [] ==> InvertedAt(h0, h, path, p, |path| - 1);
    forall q | q in h ensures WellFormedCell(h, q) {
      assert WellFormedCell(h0, q);
      if q in path {
        var i :| 0 <= i < |path| && path[i] == q;
        assert InvertedAt(h0, h, path, p, i);
        assert i > 0 ==> InvertedAt(h0, h, path, p, i - 1);
      }
    }
  }

  // While links are inverted, the edges to unmarked cells are edges of the original heap.
  lemma StepsAreOld(h0: Heap, h: Heap, a: Addr, path: seq<Addr>, p: Addr, seen: set<Addr>, pc: Label,
                    u: Addr, v: Addr)
    requires Marks(h0, h, a, path, p, seen, pc) && Step(h, u, v)
    ensures Step(h0, u, v)
  {
    assert WellFormedCell(h0, u);
    if u in path {
      var i :| 0 <= i < |path| && path[i] == u;
      assert InvertedAt(h0, h, path, p, i);
      assert i > 0 ==> InvertedAt(h0, h, path, p, i - 1);
    }
  }

  // A nested call from the slot s of the vector p marks part of what is reachable from a, and
  // what it visited is finished except for the cells of the outer path.
  lemma NestedVisit(h0: Heap, h: Heap, a: Addr, path: seq<Addr>, p: Addr, seen: set<Addr>, s: Addr, h1: Heap)
    requires Marks(h0, h, a, path, p, seen, E4)
    requires Child(h0, p, s) && h0[p].kind.Vec?
    requires h1 == WithMarks(h, Marked(h) + Reach(h, s))
    ensures Marks(h0, h1, a, path, p, seen + Reach(h, s), E4)
    ensures s in Reach(h, s) && p in h1 && p in h && h1[p].kind == h[p].kind
  {
    ReachSelf(h, s);
    ReachStep(h0, a, p, s);
    forall u, v | Step(h, u, v) ensures Step(h0, u, v) {
      StepsAreOld(h0, h, a, path, p, seen, E4, u, v);
    }
    ReachSub(h0, a, h, s);
    ReachClosed(h, s);
    var seen1 := seen + Reach(h, s);
    forall u | u in seen1 && u !in path && u != p ensures Done(h0, h1, seen1, u) {
      forall v | Child(h0, u, v) ensures v in h1 && h1[v].mark && (h0[u].kind.Vec? ==> v in seen1) {
        if u in seen {
          assert Done(h0, h, seen, u);
        } else {
          assert Child(h, u, v);
          assert !h[v].mark || h[u].kind.Vec? ==> Step(h, u, v);
        }
      }
    }
    PathKept(h0, h, h1, path, p);
  }

  // Adding marks leaves the inverted path as it is.
  lemma PathKept(h0: Heap, h: Heap, h1: Heap, path: seq<Addr>, p: Addr)
    requires PathInverted(h0, h, path, p)
    requires h1.Keys == h.Keys && forall x :: x in h ==>
               h1[x] == h[x].(mark := h1[x].mark) && (h[x].mark ==> h1[x].mark)
    ensures PathInverted(h0, h1, path, p)
  {
    forall i | 0 <= i < |path| ensures InvertedAt(h0, h1, path, p, i) {
      assert InvertedAt(h0, h, path, p, i);
    }
  }

  // Going down: p joins the path and its child q becomes current.
  lemma Descend(h0: Heap, h: Heap, a: Addr, path: seq<Addr>, p: Addr, seen: set<Addr>, q: Addr, viaCar: bool, h1: Heap)
    requires Marks(h0, h, a, path, p, seen, if viaCar then E4 else E5) && !h0[p].atom
    requires q == (if viaCar then h[p].car else h[p].cdr) && q in h && !h[q].mark
    requires h1 == h[p := if viaCar then h[p].(atom := true, car := Top(path)) else h[p].(cdr := Top(path))]
    ensures Marks(h0, h1, a, path + [p], q, seen, E2)
  {
    assert Child(h0, p, q);
    ReachStep(h0, a, p, q);
    var path1 := path + [p];
    forall i | 0 <= i < |path1| ensures InvertedAt(h0, h1, path1, q, i) {
      assert i < |path| ==> InvertedAt(h0, h, path, p, i);
    }
    forall u | u in seen && u !in path1 && u != q ensures Done(h0, h1, seen, u) {
      assert Done(h0, h, seen, u);
    }
  }

  // Going up: the last cell of the path gets its pointer to p back.
  lemma Ascend(h0: Heap, h: Heap, a: Addr, path: seq<Addr>, p: Addr, seen: set<Addr>, q: Addr, h1: Heap)
    requires Marks(h0, h, a, path, p, seen, E6) && |path| > 0
    requires q == Top(path) && q in h
    requires h1 == h[q := if h[q].atom then h[q].(atom := false, car := p) else h[q].(cdr := p)]
    ensures (if h[q].atom then h[q].car else h[q].cdr) == Top(path[..|path| - 1])
    ensures Marks(h0, h1, a, path[..|path| - 1], q, seen, if h[q].atom then E5 else E6)
  {
    var n := |path| - 1;
    var below := path[..n];
    assert InvertedAt(h0, h, path, p, n);
    assert WellFormedCell(h0, q);
    forall i | 0 <= i < n ensures InvertedAt(h0, h1, below, q, i) {
      assert InvertedAt(h0, h, path, p, i);
    }
    forall u | u in seen && u !in below && u != q ensures Done(h0, h1, seen, u) {
      assert Done(h0, h, seen, u);
    }
    assert !h[q].atom ==> Done(h0, h1, seen, q);
  }

  // The routine returns with every link restored and exactly the reachable cells marked.
  lemma Finished(h0: Heap, h: Heap, a: Addr, p: Addr, seen: set<Addr>)
    requires Marks(h0, h, a, [], p, seen, E6)
    ensures h == WithMarks(h0, Marked(h0) + Reach(h0, a))
  {
    forall u, v | u in seen && Step(h0, u, v) ensures v in seen {
      assert Done(h0, h, seen, u);
    }
    ReachWithin(h0, a, seen);
    assert seen == Reach(h0, a);
    forall x | x in h0 ensures h[x] == h0[x].(mark := x in Marked(h0) + seen) {
      assert h[x] == h0[x].(mark := h[x].mark);
    }
  }

  lemma Start(h0: Heap, a: Addr)
    requires WellFormed(h0) && a in h0
    ensures Marks(h0, h0, a, [], a, {}, E2)
  {
    ReachSelf(h0, a);
  }

  lemma Visit(h0: Heap, h: Heap, a: Addr, path: seq<Addr>, p: Addr, seen: set<Addr>, h1: Heap)
    requires Marks(h0, h, a, path, p, seen, E2)
    requires p in h && h1 == h[p := h[p].(mark := true)]
    ensures Marks(h0, h1, a, path, p, seen + {p}, E4)
    ensures p != a ==> !h[p].mark
  {
    PathKept(h0, h, h1, path, p);
    forall u | u in seen && u !in path && u != p ensures Done(h0, h1, seen + {p}, u) {
      assert Done(h0, h, seen, u);
    }
  }

  // An atom is finished once its slots, if it has any, have been visited.
  lemma AtomDone(h0: Heap, h: Heap, a: Addr, path: seq<Addr>, p: Addr, seen: set<Addr>)
    requires Marks(h0, h, a, path, p, seen, E4) && p in h && h[p].atom
    requires forall s :: p < s <= p + h[p].Slots() ==> s in seen
    ensures Marks(h0, h, a, path, p, seen, E6)
  {
  }

  lemma CarDone(h0: Heap, h: Heap, a: Addr, path: seq<Addr>, p: Addr, seen: set<Addr>)
    requires Marks(h0, h, a, path, p, seen, E4) && p in h && !h[p].atom
    requires h[p].car == NULL || (h[p].car in h && h[h[p].car].mark)
    ensures Marks(h0, h, a, path, p, seen, E5)
  {
  }

  lemma CdrDone(h0: Heap, h: Heap, a: Addr, path: seq<Addr>, p: Addr, seen: set<Addr>)
    requires Marks(h0, h, a, path, p, seen, E5) && p in h
    requires h[p].cdr == NULL || (h[p].cdr in h && h[h[p].cdr].mark)
    ensures Marks(h0, h, a, path, p, seen, E6)
  {
    assert WellFormedCell(h0, p);
  }

  // The cells still to be marked, not counting the one the routine has just come to.
  ghost function Left(h: Heap, p: Addr, pc: Label): set<Addr> {
    if pc == E2 then Unmarked(h) - {p} else Unmarked(h)
  }

  ghost function Above(h: Heap, a: Addr): set<Addr> {
    set x | x in h && x > a
  }

  // A nested call has fewer unmarked cells, or as many and a higher address.
  lemma NestedSmaller(h0: Heap, before: Heap, h: Heap, a: Addr, p: Addr, s: Addr)
    requires Unmarked(before) <= Unmarked(h0) && Unmarked(h) <= Unmarked(before) - {p}
    requires h.Keys == h0.Keys && p in before && s in h && p < s
    requires p == a || !before[p].mark
    ensures Unmarked(h) < Unmarked(h0) || (Unmarked(h) == Unmarked(h0) && Above(h, s) < Above(h0, a))
  {
    if p != a {
      assert p in Unmarked(before);
    } else {
      assert s in Above(h0, a) && s !in Above(h, s);
    }
  }

  lemma LeftShrinks(h: Heap, p: Addr, h1: Heap, q: Addr)
    requires p in h && h1.Keys == h.Keys && forall x :: x in h && x != p ==> h1[x].mark == h[x].mark
    requires h1[p].mark && h[p].mark && q in h && !h[q].mark
    ensures Left(h1, q, E2) < Unmarked(h) && Unmarked(h1) == Unmarked(h)
  {
    assert q in Unmarked(h);
  }

  lemma VisitShrinks(h: Heap, p: Addr)
    requires p in h
    ensures Unmarked(h[p := h[p].(mark := true)]) == Unmarked(h) - {p} == Left(h, p, E2)
  {
  }

  lemma SameUnmarked(h: Heap, p: Addr, h1: Heap)
    requires p in h && h1.Keys == h.Keys && forall x :: x in h ==> h1[x].mark == h[x].mark
    ensures Unmarked(h1) == Unmarked(h)
  {
    assert forall x :: x in Unmarked(h1) <==> x in Unmarked(h);
  }

  lemma MarksOnlyShrink(h: Heap, m: set<Addr>)
    ensures Unmarked(WithMarks(h, Marked(h) + m)) <= Unmarked(h)
  {
  }

  class Store {
    var cells: Heap

    constructor (cells: Heap)
      ensures this.cells == cells
    {
      this.cells := cells;
    }

    // mark(a)
    method Mark(a: Addr)
      requires WellFormed(cells) && a in cells
      modifies this
      ensures cells == WithMarks(old(cells), Marked(old(cells)) + Reach(old(cells), a))
      decreases Unmarked(cells), Above(cells, a), 1
    {
      ghost var h0 := cells;
      var t, p, pc := NULL, a, E2;
      ghost var path: seq<Addr>, seen: set<Addr> := [], {};
      Start(h0, a);
      hide Marks, WellFormed, Unmarked, Reach, WithMarks, Marked;
      while true
        invariant pc != E4
        invariant Marks(h0, cells, a, path, p, seen, pc)
        invariant t == Top(path)
        invariant Unmarked(cells) <= Unmarked(h0)
        decreases Left(cells, p, pc), |path|, if pc == E2 then 2 else if pc == E5 then 1 else 0
      {
        PathInHeap(h0, cells, a, path, p, seen, pc);
        ghost var h := cells;
        match pc {
          case E2 =>
            cells := cells[p := cells[p].(mark := true)];
            Visit(h0, h, a, path, p, seen, cells);
            VisitShrinks(h, p);
            seen := seen + {p};
            if cells[p].kind.Vec? {
              seen := MarkSlots(p, h0, h, a, path, seen);
            }
            PathInHeap(h0, cells, a, path, p, seen, E4);
            if cells[p].atom {
              AtomDone(h0, cells, a, path, p, seen);
              pc := E6;
            } else {
              var q := cells[p].car;
              if q != NULL && !cells[q].mark {
                GoDown(p, t, q, true, h0, a, path, seen);
                path, t, p, pc := path + [p], p, q, E2;
              } else {
                CarDone(h0, cells, a, path, p, seen);
                pc := E5;
              }
            }
          case E5 =>
            var q := cells[p].cdr;
            if q != NULL && !cells[q].mark {
              GoDown(p, t, q, false, h0, a, path, seen);
              path, t, p, pc := path + [p], p, q, E2;
            } else {
              CdrDone(h0, cells, a, path, p, seen);
              pc := E6;
            }
          case E6 =>
            if t == NULL {
              Finished(h0, cells, a, p, seen);
              return;
            }
            p, t, pc := GoUp(p, t, h0, a, path, seen);
            path := path[..|path| - 1];
        }
      }
    }

    // E4 and E5: switch the link from p to q round and note which one it was.
    method GoDown(p: Addr, t: Addr, q: Addr, viaCar: bool, ghost h0: Heap, ghost a: Addr, ghost path: seq<Addr>,
                  ghost seen: set<Addr>)
      requires Marks(h0, cells, a, path, p, seen, if viaCar then E4 else E5) && p in cells && t == Top(path)
      requires !cells[p].atom && q == (if viaCar then cells[p].car else cells[p].cdr)
      requires q in cells && !cells[q].mark
      modifies this
      ensures Marks(h0, cells, a, path + [p], q, seen, E2)
      ensures Left(cells, q, E2) < old(Unmarked(cells)) && Unmarked(cells) == old(Unmarked(cells))
    {
      PathInHeap(h0, cells, a, path, p, seen, if viaCar then E4 else E5);
      if viaCar {
        cells := cells[p := cells[p].(atom := true)];
        cells := cells[p := cells[p].(car := t)];
      } else {
        cells := cells[p := cells[p].(cdr := t)];
      }
      hide Marks, WellFormed, Unmarked;
      Descend(h0, old(cells), a, path, p, seen, q, viaCar, cells);
      LeftShrinks(old(cells), p, cells, q);
    }

    // E6: undo the link switching of the last cell of the path.
    method GoUp(p: Addr, t: Addr, ghost h0: Heap, ghost a: Addr, ghost path: seq<Addr>, ghost seen: set<Addr>)
      returns (q: Addr, t': Addr, pc: Label)
      requires Marks(h0, cells, a, path, p, seen, E6) && t == Top(path) && path != []
      modifies this
      ensures Marks(h0, cells, a, path[..|path| - 1], q, seen, pc) && t' == Top(path[..|path| - 1])
      ensures pc != E2 && pc != E4
      ensures Unmarked(cells) == old(Unmarked(cells))
    {
      PathInHeap(h0, cells, a, path, p, seen, E6);
      q := t;
      if cells[q].atom {
        cells := cells[q := cells[q].(atom := false)];
        t' := cells[q].car;
        cells := cells[q := cells[q].(car := p)];
        pc := E5;
      } else {
        t' := cells[q].cdr;
        cells := cells[q := cells[q].(cdr := p)];
        pc := E6;
      }
      hide Marks, WellFormed, Unmarked;
      Ascend(h0, old(cells), a, path, p, seen, q, cells);
      SameUnmarked(old(cells), q, cells);
    }

    // The loop of mark over the cells of a vector p.
    method MarkSlots(p: Addr, ghost h0: Heap, ghost before: Heap, ghost a: Addr, ghost path: seq<Addr>,
                     ghost seen0: set<Addr>)
      returns (ghost seen: set<Addr>)
      requires Marks(h0, cells, a, path, p, seen0, E4) && p in cells && cells[p].kind.Vec?
      requires p in before && (p == a || !before[p].mark)
      requires Unmarked(before) <= Unmarked(h0) && Unmarked(cells) <= Unmarked(before) - {p}
      modifies this
      ensures Marks(h0, cells, a, path, p, seen, E4)
      ensures p in cells && cells[p].kind == old(cells[p].kind)
      ensures forall s :: p < s <= p + cells[p].Slots() ==> s in seen
      ensures Unmarked(cells) <= old(Unmarked(cells))
      decreases Unmarked(h0), Above(h0, a), 0
    {
      hide Marks, WellFormed, Unmarked, Reach, WithMarks, Marked;
      seen := seen0;
      var num := cells[p].kind.len / 2 + cells[p].kind.len % 2;
      var i := 0;
      while i < num
        invariant 0 <= i <= num && p in cells && cells[p].kind == old(cells[p].kind)
        invariant Marks(h0, cells, a, path, p, seen, E4)
        invariant forall s :: p < s <= p + i ==> s in seen
        invariant Unmarked(cells) <= old(Unmarked(cells))
      {
        ghost var h := cells;
        PathInHeap(h0, h, a, path, p, seen, E4);
        NestedSmaller(h0, before, h, a, p, p + 1 + i);
        Mark(p + 1 + i);
        NestedVisit(h0, h, a, path, p, seen, p + 1 + i, cells);
        MarksOnlyShrink(h, Reach(h, p + 1 + i));
        seen := seen + Reach(h, p + 1 + i);
        i := i + 1;
      }
    }
  }
}
