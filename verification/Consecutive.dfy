/** Runs of consecutive cells on the free list, for vectors. */
module Consecutive {
  import opened CellHeap
  import opened Liveness
  import opened Sweeping
  import opened MemoryState

  // The entries i, i + 1, .., i + n - 1 of the free list are n cells one after the other.
  ghost predicate RunAt(s: State, i: nat, n: nat) {
    match s
    case State(_, _, fl, _) => i + n <= |fl| && forall k :: i <= k < i + n ==> fl[k] == fl[i] + (k - i)
  }

  // No entry before i starts a run of n.
  ghost predicate NoRunBefore(s: State, i: nat, n: nat) {
    match s
    case State(_, _, fl, _) => forall j: nat :: j < i && j < |fl| ==> !RunAt(s, j, n)
  }

  // The cell after free cell k is the next entry of the list exactly when the run goes on.
  lemma NextInRun(su: Setup, s: State, k: nat)
    requires Sound(su, s, {}) && k < |s.free|
    ensures s.free[k] in s.h && s.h[s.free[k]].cdr == Head(s.free, k + 1, su.NIL)
    ensures s.h[s.free[k]].cdr == s.free[k] + 1 <==> k + 1 < |s.free| && s.free[k + 1] == s.free[k] + 1
    ensures s.free[k] != su.NIL && s.free[k] != su.sink
  {
    assert FreeAt(s.h, s.free, k, su.NIL);
    assert s.free[k] in s.free;
    NilNotNext(su, s.h, s.segs, s.free[k]);
    hide WellFormed, NoDangling, SinkList, FreeList;
  }

  lemma NilNotNext(su: Setup, h: Heap, segs: seq<Addr>, x: Addr)
    requires su.Layout(h, segs) && su.InSegments(segs, x)
    ensures su.NIL != x + 1 && !su.Fixed(x)
  {
    var i :| 0 <= i < |segs| && su.InSegment(segs[i], x);
    assert su.Fixed(su.NIL);
  }

  // After a maximal run of fewer than n cells the search can go on behind it.
  lemma SkipRun(s: State, i: nat, cnt: nat, n: nat)
    requires NoRunBefore(s, i, n) && RunAt(s, i, cnt) && !RunAt(s, i, cnt + 1) && 0 < cnt < n
    ensures NoRunBefore(s, i + cnt, n)
  {
  }

  lemma RunGrows(s: State, i: nat, n: nat)
    requires RunAt(s, i, n) && 0 < n
    ensures RunAt(s, i, n + 1) <==> i + n < |s.free| && s.free[i + n] == s.free[i + n - 1] + 1
  {
  }

  // The run of n cells from entry i on goes on exactly when its last cell leads to the next address.
  lemma RunStep(su: Setup, s: State, i: nat, n: nat)
    requires Sound(su, s, {}) && RunAt(s, i, n) && 0 < n
    ensures i + n <= |s.free| && s.free[i + n - 1] == s.free[i] + (n - 1)
    ensures (var p := s.free[i + n - 1];
             && p in s.h && p != su.NIL && s.h[p].cdr == Head(s.free, i + n, su.NIL)
             && (s.h[p].cdr == p + 1 <==> RunAt(s, i, n + 1)))
  {
    RunGrows(s, i, n);
    RunEnd(s, i, n);
    NextInRun(su, s, i + n - 1);
    hide Sound, RunAt;
  }

  // Behind a maximal run that is too short the search finds the next entry.
  lemma SearchOn(su: Setup, s: State, i: nat, cnt: nat, n: nat)
    requires Sound(su, s, {}) && NoRunBefore(s, i, n) && RunAt(s, i, cnt) && !RunAt(s, i, cnt + 1) && 0 < cnt < n
    ensures i + cnt <= |s.free| && NoRunBefore(s, i + cnt, n)
    ensures (var pp := s.free[i] + cnt - 1;
             && pp == s.free[i + cnt - 1] && pp in s.h
             && s.h[pp].cdr == Head(s.free, i + cnt, su.NIL)
             && (s.h[pp].cdr == su.NIL <==> i + cnt == |s.free|))
  {
    hide Sound, RunAt, NoRunBefore;
    RunStep(su, s, i, cnt);
    SkipRun(s, i, cnt, n);
    if i + cnt < |s.free| {
      NextInRun(su, s, i + cnt);
    }
  }

  lemma RunEnd(s: State, i: nat, n: nat)
    requires RunAt(s, i, n) && 0 < n
    ensures i + n <= |s.free| && s.free[i + n - 1] == s.free[i] + (n - 1)
  {
  }

  lemma RunOne(s: State, i: nat)
    requires i < |s.free|
    ensures RunAt(s, i, 1)
  {
  }

  lemma RunLongEnough(s: State, i: nat, cnt: nat, n: nat)
    requires RunAt(s, i, cnt) && n <= cnt
    ensures RunAt(s, i, n)
  {
  }

  lemma RunInside(s: State, i: nat, cnt: nat)
    requires RunAt(s, i, cnt)
    ensures i + cnt <= |s.free|
  {
  }

  lemma NoRunYet(s: State, n: nat)
    ensures NoRunBefore(s, 0, n)
  {
  }

  // What taking n entries from i on does to the list's first cell and to the cell before them.
  lemma TakenParts(su: Setup, s: State, i: nat, n: nat)
    requires Sound(su, s, {}) && 0 < n && i + n <= |s.free|
    ensures (var t := Without(s, i, n, su);
             && Head(t.free, 0, su.NIL) == (if i == 0 then Head(s.free, n, su.NIL) else Head(s.free, 0, su.NIL))
             && |t.free| == |s.free| - n
             && t == State(if i == 0 then s.h
                           else s.h[s.free[i - 1] := s.h[s.free[i - 1]].(cdr := Head(s.free, i + n, su.NIL))],
                           s.segs, t.free, s.holders))
    ensures i > 0 ==> s.free[i - 1] in s.h && s.h[s.free[i - 1]].cdr == s.free[i] && s.free[i - 1] != NULL
  {
    if i > 0 {
      NextInRun(su, s, i - 1);
      NoNull(su, s);
    }
    hide Sound;
  }

  // Everything about taking the run from entry i on.
  lemma UnlinkRun(su: Setup, s: State, i: nat, n: nat, regs: seq<Addr>)
    requires Sound(su, s, {}) && RunAt(s, i, n) && 0 < n && forall r :: r in regs ==> Allocated(s.h, r)
    ensures i + n <= |s.free|
    ensures s.free[i] + n - 1 in s.h && s.h[s.free[i] + n - 1].cdr == Head(s.free, i + n, su.NIL)
    ensures i > 0 ==> s.free[i - 1] in s.h && s.h[s.free[i - 1]].cdr == s.free[i] && s.free[i - 1] != NULL
    ensures (var t := Without(s, i, n, su);
             && Sound(su, t, Taken(s, i, n)) && AllocatedKept(s, t)
             && (forall r :: r in regs ==> Allocated(t.h, r))
             && Head(t.free, 0, su.NIL) == (if i == 0 then Head(s.free, n, su.NIL) else Head(s.free, 0, su.NIL))
             && |t.free| == |s.free| - n
             && t == State(if i == 0 then s.h
                           else s.h[s.free[i - 1] := s.h[s.free[i - 1]].(cdr := Head(s.free, i + n, su.NIL))],
                           s.segs, t.free, s.holders))
  {
    hide Sound, RunAt, AllocatedKept, Without, Taken;
    RunStep(su, s, i, n);
    Take(su, s, i, n);
    TakeKeeps(su, s, i, n);
    RegsStay(regs, s, Without(s, i, n, su));
    TakenParts(su, s, i, n);
  }

  // raw is the set of the n addresses from x on.
  ghost predicate Span(raw: set<Addr>, x: Addr, n: nat) {
    forall y :: y in raw <==> x <= y < x + n
  }

  lemma RunTaken(s: State, i: nat, n: nat)
    requires RunAt(s, i, n) && 0 < n
    ensures i + n <= |s.free| && Span(Taken(s, i, n), s.free[i], n)
  {
    var f := s.free[i..i + n];
    forall y | s.free[i] <= y < s.free[i] + n ensures y in f {
      assert f[y - s.free[i]] == y;
    }
  }

  // The cells just taken from t were free there, so they were not live in s.
  lemma RunIsDead(su: Setup, s: State, t: State, i: nat, n: nat, roots: set<Addr>)
    requires Sound(su, s, {}) && Sound(su, t, {}) && Kept(su, s, t, roots) && RunAt(t, i, n) && 0 < n
    requires forall r :: r in roots ==> Allocated(s.h, r)
    ensures i + n <= |t.free| && t.free[i] != su.sink
    ensures forall y :: y in Taken(t, i, n) ==> y !in LiveSet(s.h, roots)
    ensures Kept(su, s, Without(t, i, n, su), roots)
  {
    hide LiveSet, RunAt;
    RunTaken(t, i, n);
    TakeKeeps(su, t, i, n);
    KeptThen(su, s, t, Without(t, i, n, su), roots);
    LiveAllocated(s.h, roots);
    NextInRun(su, t, i);
    forall y | y in Taken(t, i, n) ensures !Allocated(t.h, y) {
      var k :| i <= k < i + n && t.free[k] == y;
      FreeEntry(su, t, k);
    }
    hide Sound;
  }

  lemma FreeEntry(su: Setup, t: State, k: nat)
    requires Sound(su, t, {}) && k < |t.free|
    ensures !Allocated(t.h, t.free[k])
  {
    assert FreeAt(t.h, t.free, k, su.NIL);
  }

  // ---------- vectors ----------

  function SlotCell(NIL: Addr): Cell {
    Cell(Plain, false, false, NIL, NIL)
  }

  // The heap h with the j cells after x made into empty vector slots.
  ghost function SlotsHeap(h: Heap, x: Addr, j: nat, NIL: Addr): Heap {
    map p | p in h :: if x < p <= x + j then SlotCell(NIL) else h[p]
  }

  ghost function HeaderCell(h: Heap, x: Addr, len: nat): Cell
    requires x in h
  {
    Cell(Vec(len), true, false, h[x].car, h[x].cdr)
  }

  // The state t with a vector of len elements at x.
  ghost function VectorState(t: State, x: Addr, len: nat, NIL: Addr): State
    requires x in t.h
  {
    t.(h := SlotsHeap(t.h, x, len / 2 + len % 2, NIL)[x := HeaderCell(t.h, x, len)])
  }

  ghost function RawAfter(raw: set<Addr>, x: Addr, j: nat): set<Addr> {
    set y | y in raw && !(x < y <= x + j)
  }

  lemma {:induction false} FillSlots(su: Setup, t: State, raw: set<Addr>, x: Addr, n: nat, j: nat)
    requires Sound(su, t, raw) && Span(raw, x, n) && j < n
    ensures Sound(su, t.(h := SlotsHeap(t.h, x, j, su.NIL)), RawAfter(raw, x, j))
  {
    hide Sound;
    SlotsNext(t.h, x, j, su.NIL);
    RawNext(raw, x, n, j);
    if j > 0 {
      FillSlots(su, t, raw, x, n, j - 1);
      RawInHeap(su, t, raw, x + j);
      var v := t.(h := SlotsHeap(t.h, x, j - 1, su.NIL));
      var left := RawAfter(raw, x, j - 1);
      NilAllocated(su, v, left);
      hide SlotsHeap, RawAfter;
      Fill(su, v, left, x + j, SlotCell(su.NIL));
    }
  }

  lemma SlotsNext(h: Heap, x: Addr, j: nat, NIL: Addr)
    ensures j == 0 ==> SlotsHeap(h, x, 0, NIL) == h
    ensures j > 0 && x + j in h ==> SlotsHeap(h, x, j, NIL) == SlotsHeap(h, x, j - 1, NIL)[x + j := SlotCell(NIL)]
  {
  }

  lemma RawNext(raw: set<Addr>, x: Addr, n: nat, j: nat)
    requires Span(raw, x, n) && j < n
    ensures j == 0 ==> RawAfter(raw, x, 0) == raw
    ensures j > 0 ==> RawAfter(raw, x, j) == RawAfter(raw, x, j - 1) - {x + j} && x + j in RawAfter(raw, x, j - 1)
    ensures x in RawAfter(raw, x, j) && x + j in raw
    ensures j == n - 1 ==> RawAfter(raw, x, j) == {x}
  {
  }

  lemma NilAllocated(su: Setup, t: State, raw: set<Addr>)
    requires Sound(su, t, raw)
    ensures Allocated(t.h, su.NIL)
  {
  }

  lemma RawInHeap(su: Setup, t: State, raw: set<Addr>, x: Addr)
    requires Sound(su, t, raw) && x in raw
    ensures x in t.h && !su.Fixed(x)
  {
  }

  // Header and slots written over n fresh consecutive cells make a vector, and the invariant holds.
  lemma MakeVector(su: Setup, s: State, t: State, raw: set<Addr>, x: Addr, len: nat, roots: set<Addr>)
    requires Sound(su, t, raw) && Span(raw, x, len / 2 + len % 2 + 1) && x in t.h
    requires Kept(su, s, t, roots) && forall y :: y in raw ==> y !in LiveSet(s.h, roots)
    ensures Sound(su, VectorState(t, x, len, su.NIL), {}) && Kept(su, s, VectorState(t, x, len, su.NIL), roots)
    ensures Allocated(VectorState(t, x, len, su.NIL).h, x) && !su.Fixed(x)
    ensures forall y :: Allocated(t.h, y) ==> Allocated(VectorState(t, x, len, su.NIL).h, y)
  {
    hide Sound, LiveSet, Kept;
    var num := len / 2 + len % 2;
    FillSlots(su, t, raw, x, num + 1, num);
    RawNext(raw, x, num + 1, num);
    RawInHeap(su, t, raw, x);
    SlotsAllocated(su, t, raw, x, num);
    var v := t.(h := SlotsHeap(t.h, x, num, su.NIL));
    var u := VectorState(t, x, len, su.NIL);
    assert u == Put(v, x, HeaderCell(t.h, x, len)) && {x} - {x} == {};
    SlotsElsewhere(t.h, raw, x, len, su.NIL);
    hide SlotsHeap, RawAfter, Span;
    Fill(su, v, {x}, x, HeaderCell(t.h, x, len));
    KeptBesideAll(su, s, t, u, roots, raw);
  }

  lemma SlotsAllocated(su: Setup, t: State, raw: set<Addr>, x: Addr, num: nat)
    requires Sound(su, t, raw) && Span(raw, x, num + 1)
    ensures forall q :: x < q <= x + num ==> Allocated(SlotsHeap(t.h, x, num, su.NIL), q)
  {
    hide Sound;
    forall q | x < q <= x + num ensures Allocated(SlotsHeap(t.h, x, num, su.NIL), q) {
      RawInHeap(su, t, raw, q);
    }
  }

  lemma SlotsElsewhere(h: Heap, raw: set<Addr>, x: Addr, len: nat, NIL: Addr)
    requires x in h && Span(raw, x, len / 2 + len % 2 + 1)
    ensures (var u := SlotsHeap(h, x, len / 2 + len % 2, NIL)[x := HeaderCell(h, x, len)];
             && u.Keys == h.Keys && (forall y :: y in h && y !in raw ==> u[y] == h[y])
             && (forall y :: Allocated(h, y) ==> Allocated(u, y)))
  {
  }

  lemma KeptBesideAll(su: Setup, s: State, t: State, u: State, roots: set<Addr>, raw: set<Addr>)
    requires Kept(su, s, t, roots) && (forall y :: y in raw ==> y !in LiveSet(s.h, roots))
    requires t.h.Keys == u.h.Keys && forall y :: y in t.h && y !in raw ==> u.h[y] == t.h[y]
    ensures Kept(su, s, u, roots)
  {
    hide LiveSet;
  }

  // A vector of len elements, all NIL, lies at x.
  ghost predicate EmptyVector(h: Heap, x: Addr, len: nat, NIL: Addr) {
    && x in h && h[x].kind == Vec(len) && h[x].atom
    && forall q :: x < q <= x + (len / 2 + len % 2) ==> q in h && h[q] == Cell(Plain, false, false, NIL, NIL)
  }

  // The new vector survives the allocation of its holder, and so does what was live before.
  lemma VectorKept(su: Setup, s: State, t: State, u: State, regs: seq<Addr>, x: Addr, len: nat)
    requires Sound(su, s, {}) && Sound(su, t, {}) && s.holders == t.holders && su.sink in s.h && su.sink in t.h
    requires Kept(su, s, t, Elems(regs + [s.h[su.sink].car, su.NIL, su.NIL]))
    requires Kept(su, t, u, Elems(regs + [t.h[su.sink].car, x, su.NIL]))
    requires EmptyVector(t.h, x, len, su.NIL) && forall q :: x <= q <= x + (len / 2 + len % 2) ==> !su.Fixed(q)
    requires forall r :: r in regs ==> Allocated(s.h, r)
    ensures Kept(su, s, u, Elems(regs + [s.h[su.sink].car, su.NIL, su.NIL]))
    ensures EmptyVector(u.h, x, len, su.NIL)
  {
    hide Sound, LiveSet;
    var roots := Elems(regs + [s.h[su.sink].car, su.NIL, su.NIL]);
    var roots' := Elems(regs + [t.h[su.sink].car, x, su.NIL]);
    SinkDetermined(su, s, t, {}, {});
    SinkCarAllocated(su, s);
    NilAllocated(su, s, {});
    forall r | r in roots ensures r in LiveSet(t.h, roots') && r in s.h {
      assert Allocated(s.h, r);
      RootKept(su, s, t, roots, r);
      LiveRoot(t.h, roots', r);
    }
    LiveStill(su, s, t, roots, roots');
    KeptOn(su, s, t, u, roots, roots');
    LiveRoot(t.h, roots', x);
    forall q | x < q <= x + (len / 2 + len % 2) ensures q in u.h && u.h[q] == SlotCell(su.NIL) {
      assert Child(t.h, x, q);
      LiveChild(t.h, roots', x, q);
    }
  }

  lemma VectorMade(su: Setup, t: State, raw: set<Addr>, x: Addr, len: nat)
    requires Sound(su, t, raw) && Span(raw, x, len / 2 + len % 2 + 1)
    ensures x in t.h
    ensures (var u := VectorState(t, x, len, su.NIL);
             EmptyVector(u.h, x, len, su.NIL) && forall q :: x <= q <= x + (len / 2 + len % 2) ==> !su.Fixed(q))
  {
    hide Sound;
    forall q | x <= q <= x + (len / 2 + len % 2) ensures q in t.h && !su.Fixed(q) {
      RawInHeap(su, t, raw, q);
    }
  }

  lemma SpanInHeap(su: Setup, t: State, raw: set<Addr>, x: Addr, n: nat)
    requires Sound(su, t, raw) && Span(raw, x, n) && n > 0
    ensures x in raw && forall q :: x <= q < x + n ==> q in t.h
  {
    hide Sound;
    forall q | x <= q < x + n ensures q in t.h {
      RawInHeap(su, t, raw, q);
    }
  }

  lemma VectorStateParts(t: State, x: Addr, len: nat, NIL: Addr)
    requires x in t.h
    ensures (var u := VectorState(t, x, len, NIL);
             u == State(u.h, t.segs, t.free, t.holders) && u.h.Keys == t.h.Keys)
  {
  }
}
