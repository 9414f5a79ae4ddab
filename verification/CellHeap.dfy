/** The cells of the Scheme heap, the graph they span, and what it means for one cell to be
    reachable from another past cells that already carry a mark. */
module CellHeap {

  // Addresses are integers, so that "address order" and "the next cell" keep their meaning.
  // NULL is the C null pointer; no cell lives there.
  type Addr = int
  const NULL: Addr := 0

  // The type bits of a cell.  Free stands for a type flag of 0; Vec(len) is a vector header,
  // whose elements lie two by two in the cells that follow it; Plain is every other type.
  datatype Kind = Free | Plain | Vec(len: nat)

  datatype Cell = Cell(kind: Kind, atom: bool, mark: bool, car: Addr, cdr: Addr) {
    function Slots(): nat {
      if kind.Vec? then kind.len / 2 + kind.len % 2 else 0
    }
  }

  type Heap = map<Addr, Cell>

  predicate Points(h: Heap, q: Addr) {
    q == NULL || q in h
  }

  ghost predicate WellFormedCell(h: Heap, p: Addr)
    requires p in h
  {
    && (h[p].kind.Vec? ==> h[p].atom)
    && (forall s :: p < s <= p + h[p].Slots() ==> s in h)
    && (!h[p].atom ==> Points(h, h[p].car) && Points(h, h[p].cdr))
  }

  ghost predicate WellFormed(h: Heap) {
    NULL !in h && forall p :: p in h ==> WellFormedCell(h, p)
  }

  // v is one of the cells the collector goes to from u: a vector's slots, or the car and the
  // cdr of a cell that is not an atom.
  ghost predicate Child(h: Heap, u: Addr, v: Addr) {
    && u in h && v in h
    && (|| u < v <= u + h[u].Slots()
        || (!h[u].atom && v != NULL && (v == h[u].car || v == h[u].cdr)))
  }

  // Marking follows an edge to a cell that has no mark yet; a vector's slots are always visited.
  ghost predicate Step(h: Heap, u: Addr, v: Addr) {
    Child(h, u, v) && (!h[v].mark || h[u].kind.Vec?)
  }

  ghost predicate Trail(h: Heap, a: Addr, path: seq<Addr>, x: Addr) {
    && |path| > 0 && path[0] == a && path[|path| - 1] == x
    && (forall i :: 0 <= i < |path| ==> path[i] in h)
    && (forall i :: 0 <= i < |path| - 1 ==> Step(h, path[i], path[i + 1]))
  }

  ghost predicate Reaches(h: Heap, a: Addr, x: Addr) {
    exists path :: Trail(h, a, path, x)
  }

  ghost function Reach(h: Heap, a: Addr): set<Addr> {
    set x | x in h && Reaches(h, a, x)
  }

  // The heap h with the marks of m and nothing else changed.
  ghost function WithMarks(h: Heap, m: set<Addr>): Heap {
    map p | p in h :: h[p].(mark := p in m)
  }

  ghost function Marked(h: Heap): set<Addr> {
    set p | p in h && h[p].mark
  }

  ghost function Unmarked(h: Heap): set<Addr> {
    set p | p in h && !h[p].mark
  }

  lemma ReachSelf(h: Heap, a: Addr)
    requires a in h
    ensures a in Reach(h, a)
  {
    assert Trail(h, a, [a], a);
  }

  lemma ReachStep(h: Heap, a: Addr, u: Addr, v: Addr)
    requires u in Reach(h, a) && Step(h, u, v)
    ensures v in Reach(h, a)
  {
    var path :| Trail(h, a, path, u);
    assert Trail(h, a, path + [v], v);
  }

  // A set that holds a and is closed under Step holds everything reachable from a.
  lemma {:induction false} ReachWithin(h: Heap, a: Addr, c: set<Addr>)
    requires a in c
    requires forall u, v :: u in c && Step(h, u, v) ==> v in c
    ensures Reach(h, a) <= c
  {
    forall x | x in Reach(h, a) ensures x in c {
      var path :| Trail(h, a, path, x);
      TrailWithin(h, a, path, x, c);
    }
  }

  lemma {:induction false} TrailWithin(h: Heap, a: Addr, path: seq<Addr>, x: Addr, c: set<Addr>)
    requires Trail(h, a, path, x) && a in c
    requires forall u, v :: u in c && Step(h, u, v) ==> v in c
    ensures x in c
    decreases |path|
  {
    if |path| > 1 {
      var n := |path| - 1;
      assert Trail(h, a, path[..n], path[n - 1]);
      TrailWithin(h, a, path[..n], path[n - 1], c);
      assert Step(h, path[n - 1], path[n]);
    }
  }

  // Reach(h, s) is contained in Reach(h0, a) when s is and every step of h is a step of h0.
  lemma ReachSub(h0: Heap, a: Addr, h: Heap, s: Addr)
    requires s in Reach(h0, a)
    requires forall u, v :: Step(h, u, v) ==> Step(h0, u, v)
    ensures Reach(h, s) <= Reach(h0, a)
  {
    forall u, v | u in Reach(h0, a) && Step(h, u, v) ensures v in Reach(h0, a) {
      ReachStep(h0, a, u, v);
    }
    ReachWithin(h, s, Reach(h0, a));
  }

  lemma ReachClosed(h: Heap, a: Addr)
    ensures forall u, v :: u in Reach(h, a) && Step(h, u, v) ==> v in Reach(h, a)
  {
    forall u, v | u in Reach(h, a) && Step(h, u, v) ensures v in Reach(h, a) {
      ReachStep(h, a, u, v);
    }
  }
}
