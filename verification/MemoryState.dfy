/** The state of the memory system between two calls, what holds of it, and how each elementary
    change keeps it. */
module MemoryState {
  import opened CellHeap
  import opened Liveness
  import opened Sweeping

  // The heap, the segments in address order, the free list, and the cells through which the sink
  // keeps recent allocations alive.
  datatype State = State(h: Heap, segs: seq<Addr>, free: seq<Addr>, holders: seq<Addr>)

  ghost predicate Allocated(h: Heap, p: Addr) {
    p in h && !h[p].kind.Free?
  }

  // No allocated cell points to a free one.
  ghost predicate NoDangling(h: Heap) {
    forall u, v :: Allocated(h, u) && Child(h, u, v) ==> Allocated(h, v)
  }

  // Outside a collection only the fixed cells carry marks, and nothing but the sink's car leads
  // from them to the segments.
  ghost predicate FixedCells(su: Setup, h: Heap) {
    && su.NIL in h && su.sink in h
    && (forall x :: x in h && h[x].mark ==> su.Fixed(x))
    && (forall x :: x in h && su.Fixed(x) && x != su.sink ==> h[x].kind.Plain? && h[x].atom)
    && h[su.sink].kind.Plain? && !h[su.sink].atom && h[su.sink].mark && h[su.sink].cdr == NULL
  }

  predicate HolderAt(h: Heap, holders: seq<Addr>, i: nat, NIL: Addr)
    requires i < |holders|
  {
    var p := holders[i];
    p in h && h[p].kind.Plain? && !h[p].atom && h[p].cdr == Head(holders, i + 1, NIL)
  }

  // The sink's list of recent allocations.
  ghost predicate SinkList(su: Setup, h: Heap, holders: seq<Addr>) {
    && su.sink in h && h[su.sink].car == Head(holders, 0, su.NIL)
    && (forall i :: 0 <= i < |holders| ==> HolderAt(h, holders, i, su.NIL) && !su.Fixed(holders[i]))
  }

  // The free cells are those of the free list and those just taken from it, raw, that have not
  // been given a type yet.
  ghost predicate FreeCells(su: Setup, s: State, raw: set<Addr>) {
    && FreeList(s.h, Head(s.free, 0, su.NIL), s.free, su.NIL)
    && (forall x :: x in s.free ==> su.InSegments(s.segs, x))
    && (forall x :: x in s.h && s.h[x].kind.Free? <==> x in s.free || x in raw)
    && (forall x :: x in raw ==> x !in s.free && s.h[x].atom == false && s.h[x].mark == false)
  }

  ghost predicate Sound(su: Setup, s: State, raw: set<Addr>) {
    match s
    case State(h, segs, free, holders) =>
      && WellFormed(h)
      && su.Layout(h, segs)
      && FreeCells(su, s, raw)
      && NoDangling(h)
      && FixedCells(su, h)
      && SinkList(su, h, holders)
  }

  // The cells handed out since the sink's list was last cleared.
  ghost predicate Recent(s: State, x: Addr) {
    x in s.holders || exists i :: 0 <= i < |s.holders| && s.holders[i] in s.h && s.h[s.holders[i]].car == x
  }

  // Cells allocated since the interpreter last said that collecting is fine are never free.
  lemma RecentNeverFree(su: Setup, s: State, raw: set<Addr>, x: Addr)
    requires Sound(su, s, raw) && Recent(s, x) && x != NULL
    ensures x !in s.free && x !in raw
  {
    if x in s.holders {
      var i :| 0 <= i < |s.holders| && s.holders[i] == x;
      assert HolderAt(s.h, s.holders, i, su.NIL);
    } else {
      var i :| 0 <= i < |s.holders| && s.holders[i] in s.h && s.h[s.holders[i]].car == x;
      assert HolderAt(s.h, s.holders, i, su.NIL);
      assert WellFormedCell(s.h, s.holders[i]);
      assert Child(s.h, s.holders[i], x);
    }
  }

  // Live cells are allocated.
  lemma LiveAllocated(h: Heap, roots: set<Addr>)
    requires NoDangling(h) && forall r :: r in roots ==> Allocated(h, r)
    ensures forall x :: x in LiveSet(h, roots) ==> Allocated(h, x)
  {
    var c := set x | x in h && Allocated(h, x);
    forall r | r in roots ensures r in c {
      assert Allocated(h, r);
    }
    LiveWithin(h, roots, c);
  }

  // Free cells are disjoint from live ones.
  lemma FreeNotLive(su: Setup, s: State, raw: set<Addr>, roots: set<Addr>)
    requires Sound(su, s, raw) && forall r :: r in roots ==> Allocated(s.h, r)
    ensures forall x :: x in s.free || x in raw ==> x !in LiveSet(s.h, roots)
  {
    LiveAllocated(s.h, roots);
  }

  // ---------- taking cells ----------

  ghost function Without(s: State, i: nat, n: nat, su: Setup): State
    requires 0 < n && i + n <= |s.free|
  {
    var next := Head(s.free, i + n, su.NIL);
    State(if i == 0 || s.free[i - 1] !in s.h then s.h else s.h[s.free[i - 1] := s.h[s.free[i - 1]].(cdr := next)],
          s.segs, s.free[..i] + s.free[i + n..], s.holders)
  }

  ghost function Taken(s: State, i: nat, n: nat): set<Addr>
    requires i + n <= |s.free|
  {
    Elems(s.free[i..i + n])
  }

  lemma TakeFreeList(su: Setup, s: State, i: nat, n: nat)
    requires FreeList(s.h, Head(s.free, 0, su.NIL), s.free, su.NIL)
    requires 0 < n && i + n <= |s.free|
    ensures (var t := Without(s, i, n, su); FreeList(t.h, Head(t.free, 0, su.NIL), t.free, su.NIL))
  {
    var t := Without(s, i, n, su);
    forall j | 0 <= j < |t.free| ensures FreeAt(t.h, t.free, j, su.NIL) {
      if j < i {
        assert FreeAt(s.h, s.free, j, su.NIL);
        assert s.free[j] < s.free[i];
        assert j < i - 1 ==> s.free[j] < s.free[i - 1];
      } else {
        assert FreeAt(s.h, s.free, j + n, su.NIL);
        assert i > 0 ==> s.free[i - 1] < s.free[j + n];
      }
    }
  }

  lemma TakeRest(su: Setup, s: State, i: nat, n: nat)
    requires Sound(su, s, {}) && 0 < n && i + n <= |s.free|
    ensures (var t := Without(s, i, n, su);
             WellFormed(t.h) && t.h.Keys == s.h.Keys && NoDangling(t.h) && FixedCells(su, t.h)
               && SinkList(su, t.h, t.holders))
    ensures (var t := Without(s, i, n, su); forall x :: x in s.h && !s.h[x].kind.Free? ==> t.h[x] == s.h[x])
  {
    var t := Without(s, i, n, su);
    var next := Head(s.free, i + n, su.NIL);
    assert i + n < |s.free| ==> FreeAt(s.h, s.free, i + n, su.NIL);
    if i > 0 {
      assert FreeAt(s.h, s.free, i - 1, su.NIL);
    }
    forall p | p in t.h ensures WellFormedCell(t.h, p) {
      assert WellFormedCell(s.h, p);
    }
    forall u, v | Allocated(t.h, u) && Child(t.h, u, v) ensures Allocated(t.h, v) {
      assert Allocated(s.h, u) && Child(s.h, u, v);
    }
    forall j | 0 <= j < |s.holders| ensures HolderAt(t.h, s.holders, j, su.NIL) {
      assert HolderAt(s.h, s.holders, j, su.NIL);
    }
  }

  // Taking n consecutive entries out of the free list leaves exactly them without a type.
  lemma Take(su: Setup, s: State, i: nat, n: nat)
    requires Sound(su, s, {}) && 0 < n && i + n <= |s.free|
    ensures Sound(su, Without(s, i, n, su), Taken(s, i, n))
  {
    TakeFreeCells(su, s, i, n);
    TakeRest(su, s, i, n);
    hide WellFormed, NoDangling, FixedCells, SinkList, FreeCells;
  }

  lemma TakeFreeCells(su: Setup, s: State, i: nat, n: nat)
    requires FreeCells(su, s, {}) && 0 < n && i + n <= |s.free|
    ensures FreeCells(su, Without(s, i, n, su), Elems(s.free[i..i + n]))
  {
    var t := Without(s, i, n, su);
    var raw := Elems(s.free[i..i + n]);
    TakeFreeList(su, s, i, n);
    forall x ensures x in t.free || x in raw <==> x in s.free {
      TakeSplit(s.free, i, n, x);
    }
    forall x | x in raw ensures x !in t.free && x in t.h && t.h[x].atom == false && t.h[x].mark == false {
      var k :| i <= k < i + n && s.free[k] == x;
      TakenApart(su, s, i, n, k);
    }
    hide FreeList;
    assert i > 0 ==> s.free[i - 1] in s.free;
  }

  lemma TakenApart(su: Setup, s: State, i: nat, n: nat, k: nat)
    requires FreeList(s.h, Head(s.free, 0, su.NIL), s.free, su.NIL) && 0 < n && i <= k < i + n <= |s.free|
    ensures (var t := Without(s, i, n, su);
             s.free[k] !in t.free && s.free[k] in t.h && t.h[s.free[k]].atom == false && t.h[s.free[k]].mark == false)
  {
    assert FreeAt(s.h, s.free, k, su.NIL);
  }

  lemma TakeSplit(fl: seq<Addr>, i: nat, n: nat, x: Addr)
    requires i + n <= |fl|
    ensures x in fl <==> x in fl[..i] + fl[i + n..] || x in fl[i..i + n]
  {
    assert fl == fl[..i] + fl[i..i + n] + fl[i + n..];
  }

  // ---------- giving a cell a type ----------

  // A cell for the address p whose pointers lead to allocated cells.
  ghost predicate Filled(h: Heap, p: Addr, c: Cell) {
    && !c.kind.Free? && !c.mark
    && (c.kind.Vec? ==> c.atom && forall q :: p < q <= p + c.Slots() ==> Allocated(h, q))
    && (!c.atom ==> (c.car == NULL || Allocated(h, c.car)) && (c.cdr == NULL || Allocated(h, c.cdr)))
  }

  ghost function Put(s: State, p: Addr, c: Cell): State {
    s.(h := s.h[p := c])
  }

  lemma FillGraph(h: Heap, p: Addr, c: Cell)
    requires WellFormed(h) && NoDangling(h) && p in h && Filled(h, p, c)
    ensures WellFormed(h[p := c]) && NoDangling(h[p := c])
  {
    var h1 := h[p := c];
    forall q | q in h1 ensures WellFormedCell(h1, q) {
      assert WellFormedCell(h, q);
      forall x | p < x <= p + c.Slots() ensures x in h {
        assert Allocated(h, x);
      }
    }
    forall u, v | Allocated(h1, u) && Child(h1, u, v) ensures Allocated(h1, v) {
      if u == p {
        assert Allocated(h, v);
      } else {
        assert Allocated(h, u) && Child(h, u, v);
      }
    }
  }

  // Changing a cell that is in neither list leaves both as they are.
  lemma FillLists(su: Setup, s: State, raw: set<Addr>, p: Addr, c: Cell)
    requires FreeCells(su, s, raw) && SinkList(su, s.h, s.holders) && p in raw && p in s.h && !c.kind.Free?
    requires p != su.sink
    ensures FreeCells(su, Put(s, p, c), raw - {p}) && SinkList(su, Put(s, p, c).h, s.holders)
  {
    SameFree(s.h, s.h[p := c], Head(s.free, 0, su.NIL), s.free, su.NIL);
    var h := s.h[p := c];
    forall j | 0 <= j < |s.holders| ensures HolderAt(h, s.holders, j, su.NIL) {
      assert HolderAt(s.h, s.holders, j, su.NIL);
    }
  }

  lemma Fill(su: Setup, s: State, raw: set<Addr>, p: Addr, c: Cell)
    requires Sound(su, s, raw) && p in raw && Filled(s.h, p, c)
    ensures Sound(su, Put(s, p, c), raw - {p})
  {
    assert s.h[p].kind.Free? && !su.Fixed(p);
    FillGraph(s.h, p, c);
    FillLists(su, s, raw, p, c);
    hide WellFormed, NoDangling, FreeCells, SinkList;
  }

  // Changing allocated cells into allocated cells leaves the free ones as they are.
  lemma KeepFreeCells(su: Setup, s: State, t: State, raw: set<Addr>)
    requires FreeCells(su, s, raw) && t.h.Keys == s.h.Keys && t.segs == s.segs && t.free == s.free
    requires forall x :: x in s.h ==> if s.h[x].kind.Free? then t.h[x] == s.h[x] else !t.h[x].kind.Free?
    ensures FreeCells(su, t, raw)
  {
    SameFree(s.h, t.h, Head(s.free, 0, su.NIL), s.free, su.NIL);
    hide FreeList;
  }

  // The interpreter may overwrite an allocated cell with another cell that leads to allocated ones.
  lemma Overwrite(su: Setup, s: State, p: Addr, c: Cell)
    requires Sound(su, s, {}) && Allocated(s.h, p) && Filled(s.h, p, c)
    requires !su.Fixed(p) && p !in s.holders
    ensures Sound(su, Put(s, p, c), {})
  {
    FillGraph(s.h, p, c);
    KeepFreeCells(su, s, Put(s, p, c), {});
    KeepSinkList(su, s.h, p, c, s.holders);
    hide WellFormed, NoDangling, FreeCells, SinkList;
  }

  lemma KeepSinkList(su: Setup, h: Heap, p: Addr, c: Cell, holders: seq<Addr>)
    requires SinkList(su, h, holders) && p in h && p != su.sink && p !in holders
    ensures SinkList(su, h[p := c], holders)
  {
    var h1 := h[p := c];
    forall j | 0 <= j < |holders| ensures HolderAt(h1, holders, j, su.NIL) {
      assert HolderAt(h, holders, j, su.NIL) && holders[j] in holders;
    }
  }

  // ---------- the sink's list ----------

  ghost function Linked(s: State, su: Setup, p: Addr): State
    requires su.sink in s.h
  {
    s.(h := s.h[su.sink := s.h[su.sink].(car := p)], holders := [p] + s.holders)
  }

  lemma LinkHolder(su: Setup, s: State, p: Addr)
    requires Sound(su, s, {}) && Allocated(s.h, p) && !su.Fixed(p) && s.h[p].kind.Plain? && !s.h[p].atom
    requires s.h[p].cdr == s.h[su.sink].car
    ensures Sound(su, Linked(s, su, p), {})
  {
    SinkGraph(su, s.h, p);
    KeepFreeCells(su, s, Linked(s, su, p), {});
    LinkSinkList(su, s, p);
    hide WellFormed, NoDangling, FreeCells, SinkList;
  }

  lemma LinkSinkList(su: Setup, s: State, p: Addr)
    requires SinkList(su, s.h, s.holders) && Allocated(s.h, p) && !su.Fixed(p) && s.h[p].kind.Plain? && !s.h[p].atom
    requires s.h[p].cdr == s.h[su.sink].car
    ensures (var t := Linked(s, su, p); SinkList(su, t.h, t.holders))
  {
    var t := Linked(s, su, p);
    forall j | 0 <= j < |t.holders| ensures HolderAt(t.h, t.holders, j, su.NIL) && !su.Fixed(t.holders[j]) {
      if j > 0 {
        assert HolderAt(s.h, s.holders, j - 1, su.NIL);
      }
    }
  }

  lemma SinkGraph(su: Setup, h: Heap, p: Addr)
    requires WellFormed(h) && NoDangling(h) && FixedCells(su, h) && Allocated(h, p)
    ensures WellFormed(h[su.sink := h[su.sink].(car := p)]) && NoDangling(h[su.sink := h[su.sink].(car := p)])
  {
    var h1 := h[su.sink := h[su.sink].(car := p)];
    forall q | q in h1 ensures WellFormedCell(h1, q) {
      assert WellFormedCell(h, q);
    }
    forall u, v | Allocated(h1, u) && Child(h1, u, v) ensures Allocated(h1, v) {
      if v != p {
        assert Allocated(h, u) && Child(h, u, v);
      }
    }
  }

  ghost function Cleared(s: State, su: Setup): State
    requires su.sink in s.h
  {
    s.(h := s.h[su.sink := s.h[su.sink].(car := su.NIL)], holders := [])
  }

  lemma ClearHolders(su: Setup, s: State)
    requires Sound(su, s, {})
    ensures Sound(su, Cleared(s, su), {})
  {
    SinkGraph(su, s.h, su.NIL);
    KeepFreeCells(su, s, Cleared(s, su), {});
    hide WellFormed, NoDangling, FreeCells;
  }

  // ---------- collection ----------

  // What a collection from the given roots makes of the state s.
  ghost predicate Collected(su: Setup, s: State, t: State, roots: set<Addr>) {
    && t.segs == s.segs && t.holders == s.holders && t.h.Keys == s.h.Keys
    && (forall x :: x in s.h && !su.Fixed(x) && x in LiveSet(s.h, roots) ==> t.h[x] == s.h[x])
    && (forall x :: x in s.h && !su.Fixed(x) ==> (x in t.free <==> x !in LiveSet(s.h, roots)))
    && (forall x :: x in s.h && su.Fixed(x) ==>
          t.h[x] == s.h[x].(mark := x != su.NIL && (s.h[x].mark || x in LiveSet(s.h, roots))))
  }

  ghost function BeforeSweep(su: Setup, h: Heap, roots: set<Addr>): Heap {
    var m := WithMarks(h, Marked(h) + LiveSet(h, roots));
    if su.NIL in m then m[su.NIL := m[su.NIL].(mark := false)] else m
  }

  lemma FixedOutside(su: Setup, h: Heap, segs: seq<Addr>, x: Addr)
    requires su.Layout(h, segs) && su.Fixed(x)
    ensures !su.InSegments(segs, x)
  {
  }

  lemma BeforeSweepMarks(su: Setup, h: Heap, roots: set<Addr>)
    requires FixedCells(su, h)
    ensures (var b := BeforeSweep(su, h, roots);
             && b.Keys == h.Keys
             && (forall x :: x in h && !su.Fixed(x) ==> b[x] == h[x].(mark := x in LiveSet(h, roots)) && !h[x].mark)
             && (forall x :: x in h && su.Fixed(x) ==>
                   b[x] == h[x].(mark := x != su.NIL && (h[x].mark || x in LiveSet(h, roots)))))
  {
  }

  lemma SweepCollects(su: Setup, s: State, roots: set<Addr>, q: Addr, h: Heap, first: Addr, fl: seq<Addr>)
    requires su.Layout(s.h, s.segs) && FixedCells(su, s.h)
    requires Swept(BeforeSweep(su, s.h, roots), h, su, s.segs, q, first, fl)
    requires forall x :: su.InSegments(s.segs, x) ==> q <= x
    ensures Collected(su, s, State(h, s.segs, fl, s.holders), roots)
  {
    BeforeSweepMarks(su, s.h, roots);
    forall x | x in s.h ensures su.Fixed(x) <==> !su.InSegments(s.segs, x) {
      if su.Fixed(x) {
        FixedOutside(su, s.h, s.segs, x);
      }
    }
    hide LiveSet, FreeList, BeforeSweep, FixedCells, su.Fixed, su.InSegments;
  }

  // A collection keeps the whole invariant: what is left allocated is what is live.
  lemma CollectSound(su: Setup, s: State, t: State, roots: set<Addr>)
    requires Sound(su, s, {}) && Collected(su, s, t, roots)
    requires FreeList(t.h, Head(t.free, 0, su.NIL), t.free, su.NIL) && forall x :: x in t.free ==>
               su.InSegments(t.segs, x)
    requires s.h[su.sink].car in roots && forall r :: r in roots ==> Allocated(s.h, r)
    ensures Sound(su, t, {})
  {
    LiveAllocated(s.h, roots);
    CollectKinds(su, s, t, roots);
    CollectGraph(su, s, t, roots);
    CollectSink(su, s, t, roots);
    CollectFixed(su, s, t, roots);
    CollectLayout(su, s, t, roots);
    hide WellFormed, NoDangling, SinkList, FixedCells, FreeList, LiveSet, Collected;
  }

  lemma CollectLayout(su: Setup, s: State, t: State, roots: set<Addr>)
    requires su.Layout(s.h, s.segs) && Collected(su, s, t, roots)
    ensures su.Layout(t.h, t.segs)
  {
    hide LiveSet;
  }

  lemma CollectFixed(su: Setup, s: State, t: State, roots: set<Addr>)
    requires FixedCells(su, s.h) && Collected(su, s, t, roots) && su.NIL != su.sink
    requires FreeList(t.h, Head(t.free, 0, su.NIL), t.free, su.NIL)
    ensures FixedCells(su, t.h)
  {
    forall x | x in t.free ensures x in t.h && !t.h[x].mark {
      var i :| 0 <= i < |t.free| && t.free[i] == x;
      assert FreeAt(t.h, t.free, i, su.NIL);
    }
    hide LiveSet;
  }

  // After a collection a cell is free exactly when it is not live.
  lemma CollectKinds(su: Setup, s: State, t: State, roots: set<Addr>)
    requires Sound(su, s, {}) && Collected(su, s, t, roots)
    requires FreeList(t.h, Head(t.free, 0, su.NIL), t.free, su.NIL) && forall x :: x in t.free ==>
               su.InSegments(t.segs, x)
    requires forall x :: x in LiveSet(s.h, roots) ==> Allocated(s.h, x)
    ensures forall x :: x in t.h && t.h[x].kind.Free? <==> x in t.free
    ensures forall x :: x in t.free ==> !su.Fixed(x)
  {
    forall x | x in t.free ensures x in t.h && t.h[x].kind.Free? && !su.Fixed(x) {
      var i :| 0 <= i < |t.free| && t.free[i] == x;
      assert FreeAt(t.h, t.free, i, su.NIL);
      if su.Fixed(x) {
        FixedOutside(su, s.h, s.segs, x);
      }
    }
    hide WellFormed, NoDangling, SinkList, FreeList, LiveSet;
  }

  lemma CollectGraph(su: Setup, s: State, t: State, roots: set<Addr>)
    requires Sound(su, s, {}) && Collected(su, s, t, roots)
    requires FreeList(t.h, Head(t.free, 0, su.NIL), t.free, su.NIL)
    requires forall x :: x in LiveSet(s.h, roots) ==> Allocated(s.h, x)
    requires forall x :: x in t.h && t.h[x].kind.Free? <==> x in t.free
    requires s.h[su.sink].car in roots && s.h[su.sink].car in s.h
    ensures WellFormed(t.h) && NoDangling(t.h)
  {
    forall p | p in t.h ensures WellFormedCell(t.h, p) {
      assert WellFormedCell(s.h, p);
      if p in t.free {
        var i :| 0 <= i < |t.free| && t.free[i] == p;
        assert FreeAt(t.h, t.free, i, su.NIL);
        assert i + 1 < |t.free| ==> FreeAt(t.h, t.free, i + 1, su.NIL);
      }
    }
    LiveRoot(s.h, roots, s.h[su.sink].car);
    forall u, v | Allocated(t.h, u) && Child(t.h, u, v) ensures Allocated(t.h, v) {
      if su.Fixed(u) {
        assert u == su.sink && v == s.h[u].car;
      } else {
        LiveChild(s.h, roots, u, v);
      }
    }
  }

  lemma CollectSink(su: Setup, s: State, t: State, roots: set<Addr>)
    requires Sound(su, s, {}) && Collected(su, s, t, roots)
    requires s.h[su.sink].car in roots
    ensures SinkList(su, t.h, t.holders)
  {
    forall j | 0 <= j < |s.holders|
      ensures s.holders[j] in LiveSet(s.h, roots) && HolderAt(t.h, s.holders, j, su.NIL)
    {
      HolderLive(su, s, roots, j);
      assert HolderAt(s.h, s.holders, j, su.NIL);
    }
  }

  lemma {:induction false} HolderLive(su: Setup, s: State, roots: set<Addr>, j: nat)
    requires WellFormed(s.h) && SinkList(su, s.h, s.holders) && s.h[su.sink].car in roots && j < |s.holders|
    ensures s.holders[j] in LiveSet(s.h, roots)
  {
    assert HolderAt(s.h, s.holders, j, su.NIL);
    if j == 0 {
      LiveRoot(s.h, roots, s.holders[0]);
    } else {
      HolderLive(su, s, roots, j - 1);
      assert HolderAt(s.h, s.holders, j - 1, su.NIL);
      LiveChild(s.h, roots, s.holders[j - 1], s.holders[j]);
    }
  }

  // What a collection needs to know before it starts.
  lemma ReadyToCollect(su: Setup, s: State, roots: set<Addr>)
    requires Sound(su, s, {}) && s.h[su.sink].car in roots && forall r :: r in roots ==> Allocated(s.h, r)
    ensures WellFormed(s.h) && roots <= s.h.Keys && ClosedUpTo(s.h, Marked(s.h), roots)
    ensures (var b := BeforeSweep(su, s.h, roots); su.Layout(b, s.segs) && FreeCellsClean(b, su.NIL))
    ensures su.NIL in WithMarks(s.h, Marked(s.h) + LiveSet(s.h, roots))
  {
    BeforeSweepMarks(su, s.h, roots);
    ReadyToSweep(su, s, roots);
    ReadyToMark(su, s.h, roots);
    forall r | r in roots ensures r in s.h {
      assert Allocated(s.h, r);
    }
    hide FreeCells, LiveSet, NoDangling, SinkList, FreeCellsClean, ClosedUpTo;
  }

  lemma ReadyToMark(su: Setup, h: Heap, roots: set<Addr>)
    requires FixedCells(su, h) && h[su.sink].car in roots
    ensures ClosedUpTo(h, Marked(h), roots)
  {
  }

  lemma ReadyToSweep(su: Setup, s: State, roots: set<Addr>)
    requires Sound(su, s, {})
    ensures FreeCellsClean(BeforeSweep(su, s.h, roots), su.NIL)
  {
    BeforeSweepMarks(su, s.h, roots);
    forall x | x in s.h && s.h[x].kind.Free? ensures s.h[x].car == su.NIL {
      FreeCellCar(su, s, x);
    }
    hide FreeCells, LiveSet, NoDangling, SinkList, WellFormed, su.Layout;
    forall x | x in s.h && su.Fixed(x) ensures !s.h[x].kind.Free? {
    }
    hide BeforeSweep, FixedCells;
  }

  lemma FreeCellCar(su: Setup, s: State, x: Addr)
    requires FreeCells(su, s, {}) && x in s.h && s.h[x].kind.Free?
    ensures s.h[x].car == su.NIL
  {
    var i :| 0 <= i < |s.free| && s.free[i] == x;
    assert FreeAt(s.h, s.free, i, su.NIL);
  }

  lemma SweptList(su: Setup, b: Heap, h: Heap, segs: seq<Addr>, q: Addr, first: Addr, fl: seq<Addr>)
    requires Swept(b, h, su, segs, q, first, fl)
    ensures FreeList(h, Head(fl, 0, su.NIL), fl, su.NIL) && first == Head(fl, 0, su.NIL)
    ensures forall x :: x in fl ==> su.InSegments(segs, x)
  {
  }

  lemma LowestSegment(su: Setup, h: Heap, segs: seq<Addr>)
    requires su.Layout(h, segs)
    ensures forall x :: su.InSegments(segs, x) ==> segs != [] && segs[0] <= x
  {
  }

  lemma RootsStay(su: Setup, s: State, t: State, roots: set<Addr>, r: Addr)
    requires Sound(su, s, {}) && Collected(su, s, t, roots) && r in roots && forall q :: q in roots ==>
               Allocated(s.h, q)
    ensures Allocated(t.h, r)
  {
    LiveAllocated(s.h, roots);
    LiveRoot(s.h, roots, r);
    hide LiveSet, WellFormed, NoDangling, SinkList;
  }

  // ---------- what an allocation leaves alone ----------

  // The cells live in s from the given roots are still there in t, unchanged; the fixed cells can
  // differ in their marks, and the sink in its list.
  ghost predicate Kept(su: Setup, s: State, t: State, roots: set<Addr>) {
    match s
    case State(h, segs, free, holders) =>
      forall x :: x in LiveSet(h, roots) ==>
        && x in t.h && t.h[x].kind == h[x].kind
        && (x != su.sink ==> t.h[x] == h[x].(mark := t.h[x].mark))
        && (!su.Fixed(x) ==> t.h[x] == h[x])
  }

  ghost predicate AllocatedKept(s: State, t: State) {
    match s
    case State(h, segs, free, holders) =>
      t.holders == holders && forall x :: Allocated(h, x) ==> x in t.h && t.h[x] == h[x]
  }

  lemma CollectKeeps(su: Setup, s: State, t: State, roots: set<Addr>)
    requires Collected(su, s, t, roots)
    ensures Kept(su, s, t, roots)
  {
    hide Live;
    assert LiveSet(s.h, roots) <= s.h.Keys;
  }

  lemma AllocatedKeeps(su: Setup, s: State, t: State, roots: set<Addr>)
    requires Sound(su, s, {}) && AllocatedKept(s, t) && forall r :: r in roots ==> Allocated(s.h, r)
    ensures Kept(su, s, t, roots)
  {
    LiveAllocated(s.h, roots);
    hide LiveSet, Sound;
  }

  lemma KeptThen(su: Setup, s: State, t: State, u: State, roots: set<Addr>)
    requires Sound(su, s, {}) && Kept(su, s, t, roots) && AllocatedKept(t, u)
    requires forall r :: r in roots ==> Allocated(s.h, r)
    ensures Kept(su, s, u, roots)
  {
    LiveAllocated(s.h, roots);
    hide LiveSet, Sound;
    forall x | x in LiveSet(s.h, roots) ensures Allocated(t.h, x) {
      assert Allocated(s.h, x);
    }
  }

  lemma TakeKeeps(su: Setup, s: State, i: nat, n: nat)
    requires Sound(su, s, {}) && 0 < n && i + n <= |s.free|
    ensures AllocatedKept(s, Without(s, i, n, su))
  {
    TakeRest(su, s, i, n);
    hide Sound;
  }

  lemma KeptSelf(s: State)
    ensures AllocatedKept(s, s)
  {
  }

  lemma KeptTwice(s: State, t: State, u: State)
    requires AllocatedKept(s, t) && AllocatedKept(t, u)
    ensures AllocatedKept(s, u)
  {
    forall x | Allocated(s.h, x) ensures x in u.h && u.h[x] == s.h[x] {
      assert Allocated(t.h, x);
    }
  }

  // Taking the first free cell in t, where t still has everything that was live in s.
  lemma PopFirst(su: Setup, s: State, t: State, roots: set<Addr>)
    requires Sound(su, t, {}) && Head(t.free, 0, su.NIL) != su.NIL
    requires Sound(su, s, {}) && Kept(su, s, t, roots) && forall r :: r in roots ==> Allocated(s.h, r)
    ensures t.free != [] && t.free[0] in t.h && t.free[0] != su.sink
    ensures t.h[t.free[0]].cdr == Head(t.free[1..], 0, su.NIL)
    ensures (var u := State(t.h, t.segs, t.free[1..], t.holders); Sound(su, u, {t.free[0]}) && Kept(su, s, u, roots))
    ensures t.free[0] !in LiveSet(s.h, roots)
  {
    var x := t.free[0];
    Take(su, t, 0, 1);
    assert t.free[0..1] == [x] && Elems([x]) == {x};
    assert Without(t, 0, 1, su) == State(t.h, t.segs, t.free[1..], t.holders);
    FirstIsFree(su, t);
    LiveAllocated(s.h, roots);
    hide Sound, LiveSet;
  }

  lemma FirstIsFree(su: Setup, t: State)
    requires Sound(su, t, {}) && t.free != []
    ensures !Allocated(t.h, t.free[0]) && t.free[0] in t.h && t.free[0] != su.sink
    ensures t.h[t.free[0]].cdr == Head(t.free[1..], 0, su.NIL)
  {
    assert FreeAt(t.h, t.free, 0, su.NIL);
  }

  lemma HeadNotNil(su: Setup, t: State)
    requires Sound(su, t, {})
    ensures Head(t.free, 0, su.NIL) == su.NIL <==> t.free == []
  {
    if t.free != [] {
      assert FreeAt(t.h, t.free, 0, su.NIL);
      assert t.free[0] in t.free;
    }
  }

  // Changing one dead cell, and perhaps the sink's list, leaves the live ones alone.
  lemma KeptBeside(su: Setup, s: State, t: State, u: State, roots: set<Addr>, p: Addr)
    requires Kept(su, s, t, roots) && p !in LiveSet(s.h, roots) && su.Fixed(su.sink)
    requires t.h.Keys == u.h.Keys
    requires forall x :: x in t.h && x != p && x != su.sink ==> u.h[x] == t.h[x]
    requires su.sink in t.h ==> u.h[su.sink].kind == t.h[su.sink].kind
    ensures Kept(su, s, u, roots)
  {
    hide LiveSet;
  }

  // push_recent_alloc's changes to the state t in which p has just been taken: p becomes a pair that
  // holds recent and goes on the front of the sink's list.
  ghost function Pushed(su: Setup, t: State, p: Addr, recent: Addr): State
    requires su.sink in t.h
  {
    Linked(Put(t, p, Cell(Plain, false, false, recent, t.h[su.sink].car)), su, p)
  }

  lemma PushHolder(su: Setup, s: State, t: State, p: Addr, recent: Addr, roots: set<Addr>)
    requires Sound(su, t, {p}) && p != su.sink && Kept(su, s, t, roots) && p !in LiveSet(s.h, roots)
    requires Allocated(t.h, recent)
    ensures su.sink in t.h && su.NIL in t.h && su.sink != su.NIL
    ensures Sound(su, Pushed(su, t, p, recent), {}) && Kept(su, s, Pushed(su, t, p, recent), roots)
    ensures Recent(Pushed(su, t, p, recent), recent)
    ensures forall x :: Allocated(t.h, x) ==> Allocated(Pushed(su, t, p, recent).h, x)
    ensures p in t.h && !su.Fixed(p) && !Allocated(t.h, p)
  {
    RawCell(su, t, p);
    var c := Cell(Plain, false, false, recent, t.h[su.sink].car);
    SinkCar(su, t, {p});
    Fill(su, t, {p}, p, c);
    assert {p} - {p} == {};
    LinkHolder(su, Put(t, p, c), p);
    KeptBeside(su, s, t, Pushed(su, t, p, recent), roots, p);
    assert Pushed(su, t, p, recent).holders[0] == p;
    hide Sound, Kept, LiveSet;
  }

  lemma RawCell(su: Setup, t: State, p: Addr)
    requires Sound(su, t, {p})
    ensures p in t.h && !Allocated(t.h, p) && !su.Fixed(p) && t.h[p].kind == Free
    ensures su.sink in t.h && su.NIL in t.h && su.sink != su.NIL && Allocated(t.h, su.sink) && Allocated(t.h, su.NIL)
  {
  }

  lemma SinkCar(su: Setup, t: State, raw: set<Addr>)
    requires Sound(su, t, raw)
    ensures su.sink in t.h && (t.h[su.sink].car == NULL || Allocated(t.h, t.h[su.sink].car))
  {
    assert WellFormedCell(t.h, su.sink);
    assert t.h[su.sink].car != NULL ==> Child(t.h, su.sink, t.h[su.sink].car);
  }

  // The cell get_cell has just made a pair of a and b is allocated and still not live in s.
  lemma MakePair(su: Setup, s: State, t: State, p: Addr, a: Addr, b: Addr, roots: set<Addr>)
    requires Sound(su, t, {p}) && p != su.sink && Kept(su, s, t, roots) && p !in LiveSet(s.h, roots)
    requires Allocated(t.h, a) && Allocated(t.h, b)
    ensures (var u := Put(t, p, Cell(Plain, false, false, a, b));
             && Sound(su, u, {}) && Kept(su, s, u, roots) && Allocated(u.h, p)
             && (forall x :: Allocated(t.h, x) ==> Allocated(u.h, x)))
    ensures p in t.h && !su.Fixed(p)
  {
    RawCell(su, t, p);
    Fill(su, t, {p}, p, Cell(Plain, false, false, a, b));
    assert {p} - {p} == {};
    KeptBeside(su, s, t, Put(t, p, Cell(Plain, false, false, a, b)), roots, p);
    hide Sound, Kept, LiveSet;
  }

  lemma RootKept(su: Setup, s: State, t: State, roots: set<Addr>, r: Addr)
    requires Kept(su, s, t, roots) && r in roots && Allocated(s.h, r)
    ensures Allocated(t.h, r)
  {
    LiveRoot(s.h, roots, r);
    hide LiveSet;
  }

  lemma FixedPresent(su: Setup, t: State)
    requires Sound(su, t, {})
    ensures su.sink in t.h && su.NIL in t.h && su.sink != su.NIL && Allocated(t.h, su.NIL)
  {
  }

  // The holders determine the sink's cell.
  lemma SinkDetermined(su: Setup, s: State, t: State, raw: set<Addr>, raw': set<Addr>)
    requires Sound(su, s, raw) && Sound(su, t, raw') && s.holders == t.holders
    ensures su.sink in s.h && su.sink in t.h && s.h[su.sink] == t.h[su.sink]
  {
  }

  // What is live in s stays live in t, if the roots do.
  lemma LiveStill(su: Setup, s: State, t: State, roots: set<Addr>, roots': set<Addr>)
    requires Kept(su, s, t, roots) && su.sink in s.h && su.sink in t.h && s.h[su.sink] == t.h[su.sink]
    requires forall r :: r in roots ==> r in LiveSet(t.h, roots') && r in s.h
    ensures LiveSet(s.h, roots) <= LiveSet(t.h, roots')
  {
    var c := LiveSet(s.h, roots) * LiveSet(t.h, roots');
    forall r | r in roots ensures r in c {
      LiveRoot(s.h, roots, r);
    }
    forall u, v | u in c && Child(s.h, u, v) ensures v in c {
      LiveChild(s.h, roots, u, v);
      assert Child(t.h, u, v);
      LiveChild(t.h, roots', u, v);
    }
    LiveWithin(s.h, roots, c);
  }

  lemma KeptOn(su: Setup, s: State, t: State, u: State, roots: set<Addr>, roots': set<Addr>)
    requires Kept(su, s, t, roots) && Kept(su, t, u, roots') && LiveSet(s.h, roots) <= LiveSet(t.h, roots')
    ensures Kept(su, s, u, roots)
  {
    hide LiveSet;
  }

  // Once the new pair of a and b is itself a root, everything that was live stays live.
  lemma PairProtects(su: Setup, s: State, t: State, regs: seq<Addr>, p: Addr, a: Addr, b: Addr)
    requires Sound(su, s, {}) && Sound(su, t, {}) && s.holders == t.holders && su.sink in s.h && su.sink in t.h
    requires Kept(su, s, t, Elems(regs + [s.h[su.sink].car, a, b]))
    requires p in t.h && t.h[p] == Cell(Plain, false, false, a, b)
    requires Allocated(s.h, a) && Allocated(s.h, b) && Allocated(s.h, s.h[su.sink].car)
    requires forall r :: r in regs ==> Allocated(s.h, r)
    ensures LiveSet(s.h, Elems(regs + [s.h[su.sink].car, a, b])) <= LiveSet(t.h,
                                                                            Elems(regs + [t.h[su.sink].car, p, su.NIL]))
    ensures p in LiveSet(t.h, Elems(regs + [t.h[su.sink].car, p, su.NIL]))
  {
    SinkDetermined(su, s, t, {}, {});
    var roots := Elems(regs + [s.h[su.sink].car, a, b]);
    var roots' := Elems(regs + [t.h[su.sink].car, p, su.NIL]);
    NoNull(su, s);
    LiveRoot(t.h, roots', p);
    forall r | r in roots ensures r in LiveSet(t.h, roots') && r in s.h {
      assert Allocated(s.h, r);
      RootKept(su, s, t, roots, r);
      if r == a || r == b {
        assert Child(t.h, p, r);
        LiveChild(t.h, roots', p, r);
      } else {
        assert r in roots';
        LiveRoot(t.h, roots', r);
      }
    }
    LiveStill(su, s, t, roots, roots');
  }

  lemma NoNull(su: Setup, s: State)
    requires Sound(su, s, {})
    ensures NULL !in s.h
  {
  }

  // get_cell's new pair survives the allocation of its holder, and so does what was live before.
  lemma PairKept(su: Setup, s: State, t: State, u: State, regs: seq<Addr>, p: Addr, a: Addr, b: Addr)
    requires Sound(su, s, {}) && Sound(su, t, {}) && s.holders == t.holders && su.sink in s.h && su.sink in t.h
    requires Kept(su, s, t, Elems(regs + [s.h[su.sink].car, a, b]))
    requires Kept(su, t, u, Elems(regs + [t.h[su.sink].car, p, su.NIL]))
    requires p in t.h && t.h[p] == Cell(Plain, false, false, a, b) && !su.Fixed(p)
    requires Allocated(s.h, a) && Allocated(s.h, b)
    requires forall r :: r in regs ==> Allocated(s.h, r)
    ensures Kept(su, s, u, Elems(regs + [s.h[su.sink].car, a, b]))
    ensures p in u.h && u.h[p] == t.h[p]
  {
    assert Allocated(s.h, s.h[su.sink].car) by {
      SinkCarAllocated(su, s);
    }
    PairProtects(su, s, t, regs, p, a, b);
    KeptOn(su, s, t, u, Elems(regs + [s.h[su.sink].car, a, b]), Elems(regs + [t.h[su.sink].car, p, su.NIL]));
    hide Sound, Elems, LiveSet;
  }

  lemma SinkCarAllocated(su: Setup, s: State)
    requires Sound(su, s, {})
    ensures su.sink in s.h && Allocated(s.h, s.h[su.sink].car)
  {
    if s.holders != [] {
      assert HolderAt(s.h, s.holders, 0, su.NIL);
    }
  }

  lemma RegsStay(regs: seq<Addr>, s: State, t: State)
    requires AllocatedKept(s, t) && forall r :: r in regs ==> Allocated(s.h, r)
    ensures forall r :: r in regs ==> Allocated(t.h, r)
  {
  }

  lemma WithoutKeys(su: Setup, s: State, i: nat, n: nat)
    requires 0 < n && i + n <= |s.free|
    ensures (var t := Without(s, i, n, su); t.h.Keys == s.h.Keys && t.segs == s.segs && t.holders == s.holders)
  {
  }

  lemma SameHolders(s: State, t: State)
    requires AllocatedKept(s, t)
    ensures t.holders == s.holders
  {
  }
}
