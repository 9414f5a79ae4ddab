/** sort: a merge sort that relinks the cells of a list in place. */
module ListSort {
  import opened Ordering
  import opened Runs

  // What a cdr holds: the address of a cell, or something that is not a cell.
  datatype Link = To(p: Addr) | End(v: Val)
  type Cdrs = map<Addr, Link>

  function First(s: seq<Addr>, i: nat, end: Link): Link {
    if i < |s| then To(s[i]) else end
  }

  predicate CdrAt(cdrs: Cdrs, s: seq<Addr>, i: nat, end: Link)
    requires i < |s|
  {
    s[i] in cdrs && cdrs[s[i]] == First(s, i + 1, end)
  }

  // From link l on the cdrs run through the cells s and stop at end.
  ghost predicate Chain(cdrs: Cdrs, l: Link, s: seq<Addr>, end: Link) {
    end.End? && l == First(s, 0, end) && forall i :: 0 <= i < |s| ==> CdrAt(cdrs, s, i, end)
  }

  lemma ChainTail(cdrs: Cdrs, l: Link, s: seq<Addr>, end: Link)
    requires Chain(cdrs, l, s, end) && s != []
    ensures l == To(s[0]) && s[0] in cdrs && Chain(cdrs, cdrs[s[0]], s[1..], end)
  {
    assert CdrAt(cdrs, s, 0, end);
    forall i | 0 <= i < |s[1..]| ensures CdrAt(cdrs, s[1..], i, end) {
      assert CdrAt(cdrs, s, i + 1, end);
    }
  }

  lemma ChainSame(cdrs: Cdrs, cdrs': Cdrs, l: Link, s: seq<Addr>, end: Link)
    requires Chain(cdrs, l, s, end) && forall x :: x in s ==> x in cdrs && x in cdrs' && cdrs'[x] == cdrs[x]
    ensures Chain(cdrs', l, s, end)
  {
    forall i | 0 <= i < |s| ensures CdrAt(cdrs', s, i, end) {
      var x := s[i];
      assert x in s;
      assert CdrAt(cdrs, s, i, end);
    }
  }

  // Linking p behind the last cell of a list that ends in NIL.
  lemma ChainAppend(cdrs: Cdrs, l: Link, s: seq<Addr>, p: Addr)
    requires Chain(cdrs, l, s, End(Nil)) && s != [] && p !in s && p in cdrs && NoDup(s)
    ensures Chain(cdrs[s[|s| - 1] := To(p)][p := End(Nil)], l, s + [p], End(Nil))
  {
    var t := s + [p];
    var cdrs' := cdrs[s[|s| - 1] := To(p)][p := End(Nil)];
    forall i | 0 <= i < |t| ensures CdrAt(cdrs', t, i, End(Nil)) {
      if i < |s| {
        assert CdrAt(cdrs, s, i, End(Nil));
      }
    }
  }

  ghost predicate NoDup(s: seq<Addr>) {
    forall i, j :: 0 <= i < j < |s| ==> s[i] != s[j]
  }

  // The value of the list from link l on, as far as n cells.
  function ValueAt(keys: Keys, cdrs: Cdrs, l: Link, n: nat): Val
    decreases n
  {
    match l
    case End(v) => v
    case To(p) =>
      if n == 0 || p !in keys || p !in cdrs then Nil
      else Cell(keys[p], ValueAt(keys, cdrs, cdrs[p], n - 1))
  }

  ghost predicate EndsGood(cdrs: Cdrs) {
    forall p :: p in cdrs && cdrs[p].End? ==> WellNamed(cdrs[p].v) && !cdrs[p].v.Cell?
  }

  lemma {:induction false} ValueWellNamed(keys: Keys, cdrs: Cdrs, l: Link, n: nat)
    requires KeysGood(keys) && EndsGood(cdrs) && (l.End? ==> WellNamed(l.v))
    ensures WellNamed(ValueAt(keys, cdrs, l, n))
    decreases n
  {
    if l.To? && n > 0 && l.p in keys && l.p in cdrs {
      ValueWellNamed(keys, cdrs, cdrs[l.p], n - 1);
    }
  }

  // The values of any two of the cells can be compared.
  ghost predicate Comparable(half: int, keys: Keys, all: multiset<Addr>) {
    forall a, b :: a in all && b in all && a in keys && b in keys ==> Fits(half, keys[a], keys[b])
  }

  // Comparing two lists compares their first elements; equal ones leave the decision to the rest,
  // and nothing comes before the list that has no rest.
  lemma CompareLists(half: int, keys: Keys, cdrs: Cdrs, a: Addr, b: Addr, n: nat)
    requires KeysGood(keys) && a in keys && b in keys && a in cdrs && b in cdrs && n > 0
    requires Fits(half, keys[a], keys[b])
    ensures (var c := Compare(half, ValueAt(keys, cdrs, To(a), n), ValueAt(keys, cdrs, To(b), n));
             && (c < 0 ==> !Lt(keys, b, a)) && (c >= 0 ==> !Lt(keys, a, b))
             && (cdrs[b] == End(Nil) ==> (c < 0 <==> Lt(keys, a, b))))
  {
    CompareIsOrder(half, keys[a], keys[b]);
    OrderLaws(keys[a], keys[b], keys[a]);
    var x, y := ValueAt(keys, cdrs, To(a), n), ValueAt(keys, cdrs, To(b), n);
    assert x == Cell(keys[a], ValueAt(keys, cdrs, cdrs[a], n - 1));
    assert y == Cell(keys[b], ValueAt(keys, cdrs, cdrs[b], n - 1));
    if x == y {
      OrderLaws(keys[a], keys[a], keys[a]);
    }
  }

  // ---------- the cells of a pass ----------

  ghost predicate Once(all: multiset<Addr>) {
    forall x :: all[x] <= 1
  }

  // Where the next cell of an output list is linked: the list variable itself or the cdr of a cell.
  datatype Slot = ListVar | CdrOf(p: Addr)

  // The four lists of a pass in memory: together they are exactly the cells all.
  ghost predicate Linked(cdrs0: Cdrs, cdrs: Cdrs, p: Pass, l0: Link, l1: Link, o0: Link, o1: Link,
                         end0: Link, end1: Link, all: multiset<Addr>) {
    match p
    case Pass(in0, in1, out0, out1, second, last, begun) =>
      && Chain(cdrs, l0, in0, end0) && Chain(cdrs, l1, in1, end1)
      && Chain(cdrs, o0, out0, End(Nil)) && Chain(cdrs, o1, out1, End(Nil))
      && multiset(in0) + multiset(in1) + multiset(out0) + multiset(out1) == all && Once(all)
      && cdrs.Keys == cdrs0.Keys && forall x :: x in cdrs && all[x] == 0 ==> cdrs[x] == cdrs0[x]
  }

  lemma Apart(s: seq<Addr>, t: seq<Addr>, all: multiset<Addr>, x: Addr)
    requires multiset(s) + multiset(t) <= all && Once(all) && x in s
    ensures x !in t
  {
    assert multiset(s)[x] + multiset(t)[x] <= all[x];
  }

  lemma {:induction false} OnceNoDup(s: seq<Addr>, all: multiset<Addr>)
    requires multiset(s) <= all && Once(all)
    ensures NoDup(s)
  {
    if s != [] {
      assert s == [s[0]] + s[1..];
      OnceNoDup(s[1..], all);
      forall j | 0 < j < |s| ensures s[0] != s[j] {
        Apart([s[0]], s[1..], all, s[0]);
        assert s[j] == s[1..][j - 1];
      }
    }
  }

  // The cdrs after x has been unlinked and hung behind the list s, at address l.
  function HungCdrs(cdrs: Cdrs, s: seq<Addr>, x: Addr): Cdrs {
    (if s != [] then cdrs[s[|s| - 1] := To(x)] else cdrs)[x := End(Nil)]
  }

  lemma Hang(cdrs: Cdrs, l: Link, s: seq<Addr>, x: Addr)
    requires Chain(cdrs, l, s, End(Nil)) && NoDup(s) && x !in s && x in cdrs
    ensures Chain(HungCdrs(cdrs, s, x), if s == [] then To(x) else l, s + [x], End(Nil))
    ensures HungCdrs(cdrs, s, x).Keys == cdrs.Keys
    ensures forall y :: y in cdrs && y != x && y !in s ==> HungCdrs(cdrs, s, x)[y] == cdrs[y]
  {
    if s == [] {
      assert CdrAt(HungCdrs(cdrs, s, x), [x], 0, End(Nil));
    } else {
      ChainAppend(cdrs, l, s, x);
      assert CdrAt(cdrs, s, |s| - 1, End(Nil));
      assert s[|s| - 1] in s;
    }
  }

  // A list none of whose cells is touched stays a list.
  lemma Untouched(cdrs: Cdrs, l: Link, s: seq<Addr>, end: Link, t: seq<Addr>, x: Addr)
    requires Chain(cdrs, l, s, end) && x !in s && forall y :: y in t ==> y !in s
    requires x in cdrs && (t != [] ==> t[|t| - 1] in cdrs)
    ensures Chain(HungCdrs(cdrs, t, x), l, s, end)
  {
    forall y | y in s ensures y in cdrs && HungCdrs(cdrs, t, x)[y] == cdrs[y] {
      var i :| 0 <= i < |s| && s[i] == y;
      assert CdrAt(cdrs, s, i, end);
      if t != [] {
        var z := t[|t| - 1];
        assert z in t;
      }
    }
    ChainSame(cdrs, HungCdrs(cdrs, t, x), l, s, end);
  }

  // Which output list x goes to.
  ghost function Target(p: Pass, flip: bool): seq<Addr> {
    if (if flip then !p.second else p.second) then p.out1 else p.out0
  }

  // Taking the first cell of an input list and hanging it behind an output list.
  lemma TakeLinked(cdrs0: Cdrs, cdrs: Cdrs, p: Pass, l0: Link, l1: Link, o0: Link, o1: Link, end0: Link, end1: Link,
                   all: multiset<Addr>, first: bool, flip: bool)
    requires Linked(cdrs0, cdrs, p, l0, l1, o0, o1, end0, end1, all)
    requires if first then p.in0 != [] else p.in1 != []
    ensures (var x := if first then p.in0[0] else p.in1[0];
             var second := if flip then !p.second else p.second;
             && x in cdrs && (if first then l0 else l1) == To(x)
             && Linked(cdrs0, HungCdrs(cdrs, Target(p, flip), x), Taken(p, first, flip),
                       if first then cdrs[x] else l0, if first then l1 else cdrs[x],
                       if !second && p.out0 == [] then To(x) else o0, if second && p.out1 == [] then To(x) else o1,
                       end0, end1, all))
  {
    hide Chain, HungCdrs, Once;
    var mine, lm, endm := if first then p.in0 else p.in1, if first then l0 else l1, if first then end0 else end1;
    var other, lo, endo := if first then p.in1 else p.in0, if first then l1 else l0, if first then end1 else end0;
    var second := if flip then !p.second else p.second;
    var target, lt := if second then p.out1 else p.out0, if second then o1 else o0;
    var rest, lr := if second then p.out0 else p.out1, if second then o0 else o1;
    TakeCells(cdrs, mine, other, target, rest, lm, lo, lt, lr, endm, endo, all);
    var x := mine[0];
    TakeMultiset(p, first, flip);
    assert all[x] >= 1 by {
      assert multiset(mine)[x] >= 1;
    }
    TargetWithin(target, all);
  }

  lemma TargetWithin(target: seq<Addr>, all: multiset<Addr>)
    requires multiset(target) <= all
    ensures forall y :: all[y] == 0 ==> y !in target
  {
    forall y | y in target ensures all[y] > 0 {
      assert multiset(target)[y] >= 1;
    }
  }

  lemma TakeMultiset(p: Pass, first: bool, flip: bool)
    requires if first then p.in0 != [] else p.in1 != []
    ensures (var t := Taken(p, first, flip);
             multiset(t.in0) + multiset(t.in1) + multiset(t.out0) + multiset(t.out1)
             == multiset(p.in0) + multiset(p.in1) + multiset(p.out0) + multiset(p.out1))
  {
    var mine := if first then p.in0 else p.in1;
    assert mine == [mine[0]] + mine[1..];
  }

  // The four lists after the move.
  lemma TakeCells(cdrs: Cdrs, mine: seq<Addr>, other: seq<Addr>, target: seq<Addr>, rest: seq<Addr>,
                  lm: Link, lo: Link, lt: Link, lr: Link, endm: Link, endo: Link, all: multiset<Addr>)
    requires Chain(cdrs, lm, mine, endm) && Chain(cdrs, lo, other, endo)
    requires Chain(cdrs, lt, target, End(Nil)) && Chain(cdrs, lr, rest, End(Nil))
    requires multiset(mine) + multiset(other) + multiset(target) + multiset(rest) == all && Once(all)
    requires mine != []
    ensures (var x := mine[0]; var cdrs' := HungCdrs(cdrs, target, x);
             && x in cdrs && lm == To(x) && cdrs'.Keys == cdrs.Keys
             && (forall y :: y in cdrs && y != x && y !in target ==> cdrs'[y] == cdrs[y])
             && Chain(cdrs', cdrs[x], mine[1..], endm) && Chain(cdrs', lo, other, endo)
             && Chain(cdrs', if target == [] then To(x) else lt, target + [x], End(Nil))
                && Chain(cdrs', lr, rest, End(Nil)))
  {
    var x := mine[0];
    ChainTail(cdrs, lm, mine, endm);
    assert mine == [x] + mine[1..];
    OnceNoDup(target, all);
    Apart(mine, target, all, x);
    Apart(mine, other, all, x);
    Apart(mine, rest, all, x);
    Apart([x], mine[1..], all, x);
    forall y | y in target ensures y !in mine[1..] && y !in other && y !in rest {
      Apart(target, mine, all, y);
      Apart(target, other, all, y);
      Apart(target, rest, all, y);
    }
    if target != [] {
      assert CdrAt(cdrs, target, |target| - 1, End(Nil));
    }
    Hang(cdrs, lt, target, x);
    Untouched(cdrs, cdrs[x], mine[1..], endm, target, x);
    Untouched(cdrs, lo, other, endo, target, x);
    Untouched(cdrs, lr, rest, End(Nil), target, x);
  }

  // ---------- the local variables of sort ----------

  datatype Locals = Locals(in0: Link, in1: Link, out0: Link, out1: Link, tail0: Slot, tail1: Slot, second: bool,
                           last: Addr)

  // Where the next cell of the output list s goes.
  function TailSlot(s: seq<Addr>): Slot {
    if s == [] then ListVar else CdrOf(s[|s| - 1])
  }

  // What does not change in a sort: the range of the machine word, the cells and their values.
  datatype Job = Job(half: int, keys: Keys, cdrs0: Cdrs, all: multiset<Addr>)

  ghost predicate Merging(j: Job, cdrs: Cdrs, v: Locals, p: Pass, end0: Link, end1: Link, bound: nat) {
    match p
    case Pass(in0, in1, out0, out1, second, last, begun) =>
      && Linked(j.cdrs0, cdrs, p, v.in0, v.in1, v.out0, v.out1, end0, end1, j.all)
      && Sound(j.keys, bound, p) && KeysGood(j.keys) && EndsGood(cdrs) && Comparable(j.half, j.keys, j.all)
      && v.tail0 == TailSlot(out0) && v.tail1 == TailSlot(out1) && v.second == second && v.last == last && out0 != []
  }

  // The local variables after the cell x has been taken from an input.
  function Moved(cdrs: Cdrs, v: Locals, x: Addr, first: bool, flip: bool): Locals
    requires x in cdrs
  {
    var second := if flip then !v.second else v.second;
    Locals(if first then cdrs[x] else v.in0, if first then v.in1 else cdrs[x],
           v.out0, if second && v.tail1 == ListVar then To(x) else v.out1,
           if second then v.tail0 else CdrOf(x), if second then CdrOf(x) else v.tail1, second, x)
  }

  lemma MoveMerges(j: Job, cdrs: Cdrs, v: Locals, p: Pass, end0: Link, end1: Link, bound: nat, first: bool, flip: bool)
    requires Merging(j, cdrs, v, p, end0, end1, bound)
    requires if first then p.in0 != [] && MayTake(j.keys, p.in0[0], p.in1, p.last)
             else p.in1 != [] && MayTake(j.keys, p.in1[0], p.in0, p.last)
    requires flip == Lt(j.keys, if first then p.in0[0] else p.in1[0], p.last)
    ensures (var x := if first then p.in0[0] else p.in1[0];
             && x in cdrs && (if first then v.in0 else v.in1) == To(x)
             && Merging(j, HungCdrs(cdrs, Target(p, flip), x), Moved(cdrs, v, x, first, flip), Taken(p, first, flip),
                        end0, end1, bound))
  {
    hide MayTake, Linked, Sound, Chain, Lt, Count, Left, Comparable, KeysGood;
    TakeSound(j.keys, bound, p, first);
    TakeLinked(j.cdrs0, cdrs, p, v.in0, v.in1, v.out0, v.out1, end0, end1, j.all, first, flip);
  }

  // The heads of the two inputs, and the last element handed out, as memory shows them.
  lemma Heads(j: Job, cdrs: Cdrs, v: Locals, p: Pass, end0: Link, end1: Link, bound: nat)
    requires Merging(j, cdrs, v, p, end0, end1, bound)
    ensures v.in0 == First(p.in0, 0, end0) && v.in1 == First(p.in1, 0, end1) && end0.End? && end1.End?
    ensures p.last in cdrs && cdrs[p.last] == End(Nil) && p.last in j.keys && p.last in j.all
    ensures p.in0 != [] ==> p.in0[0] in j.keys && p.in0[0] in cdrs && p.in0[0] in j.all
    ensures p.in1 != [] ==> p.in1[0] in j.keys && p.in1[0] in cdrs && p.in1[0] in j.all
    ensures KeysGood(j.keys) && EndsGood(cdrs) && Comparable(j.half, j.keys, j.all)
  {
    var out := if p.second then p.out1 else p.out0;
    assert p.last in out;
    assert CdrAt(cdrs, out, |out| - 1, End(Nil));
    assert multiset(out)[p.last] > 0;
    if p.in0 != [] {
      assert p.in0[0] in p.in0 && multiset(p.in0)[p.in0[0]] > 0;
      assert CdrAt(cdrs, p.in0, 0, end0);
    }
    if p.in1 != [] {
      assert p.in1[0] in p.in1 && multiset(p.in1)[p.in1[0]] > 0;
      assert CdrAt(cdrs, p.in1, 0, end1);
    }
  }

  // The two lists between passes.
  ghost predicate Between(j: Job, cdrs: Cdrs, o0: Link, o1: Link, s0: seq<Addr>, s1: seq<Addr>, end0: Link) {
    match j
    case Job(half, keys, cdrs0, all) =>
      && Chain(cdrs, o0, s0, end0) && Chain(cdrs, o1, s1, End(Nil)) && multiset(s0) + multiset(s1) == all && Once(all)
         && s0 != []
      && cdrs.Keys == cdrs0.Keys && (forall x :: x in cdrs && all[x] == 0 ==> cdrs[x] == cdrs0[x])
      && (forall x :: x in s0 || x in s1 ==> x in keys) && KeysGood(keys) && EndsGood(cdrs)
         && Comparable(half, keys, all)
  }

  lemma BetweenHeads(j: Job, cdrs: Cdrs, o0: Link, o1: Link, s0: seq<Addr>, s1: seq<Addr>, end0: Link)
    requires Between(j, cdrs, o0, o1, s0, s1, end0)
    ensures o0 == To(s0[0]) && s0[0] in j.keys && s0[0] in cdrs && o1 == First(s1, 0, End(Nil))
    ensures s1 != [] ==> s1[0] in j.keys && s1[0] in cdrs && Fits(j.half, j.keys[s0[0]], j.keys[s1[0]])
    ensures KeysGood(j.keys) && EndsGood(cdrs)
  {
    assert CdrAt(cdrs, s0, 0, end0);
    assert s0[0] in s0 && multiset(s0)[s0[0]] > 0;
    if s1 != [] {
      assert CdrAt(cdrs, s1, 0, End(Nil));
      assert s1[0] in s1 && multiset(s1)[s1[0]] > 0;
    }
  }

  // The local variables after the first cell of a pass.
  function Begun(cdrs: Cdrs, o0: Link, o1: Link, x: Addr, first: bool): Locals
    requires x in cdrs
  {
    Locals(if first then cdrs[x] else o0, if first then o1 else cdrs[x], To(x), End(Nil), CdrOf(x), ListVar, false, x)
  }

  ghost function FirstPass(s0: seq<Addr>, s1: seq<Addr>, first: bool): Pass
    requires if first then s0 != [] else s1 != []
  {
    Pass(if first then s0[1..] else s0, if first then s1 else s1[1..], [if first then s0[0] else s1[0]], [], false,
         if first then s0[0] else s1[0], 1)
  }

  lemma BeginMerges(j: Job, cdrs: Cdrs, o0: Link, o1: Link, s0: seq<Addr>, s1: seq<Addr>, end0: Link, first: bool)
    requires Between(j, cdrs, o0, o1, s0, s1, end0)
    requires if first then s1 == [] || !Lt(j.keys, s1[0], s0[0]) else s1 != [] && !Lt(j.keys, s0[0], s1[0])
    ensures (var x := if first then s0[0] else s1[0];
             && x in cdrs
             && Merging(j, cdrs[x := End(Nil)], Begun(cdrs, o0, o1, x, first), FirstPass(s0, s1, first), end0, End(Nil),
                        Max(Count(j.keys, s0), Count(j.keys, s1))))
  {
    hide Lt, Count, Left, Sound, Comparable, Chain, Once, EndsGood, KeysGood, Linked, HungCdrs;
    FirstSound(j.keys, s0, s1, first);
    BeginChains(j, cdrs, o0, o1, s0, s1, end0, first);
    BeginLinked(j, cdrs, o0, o1, s0, s1, end0, first, if first then s0[0] else s1[0]);
  }

  lemma BeginChains(j: Job, cdrs: Cdrs, o0: Link, o1: Link, s0: seq<Addr>, s1: seq<Addr>, end0: Link, first: bool)
    requires Between(j, cdrs, o0, o1, s0, s1, end0)
    requires if first then s0 != [] else s1 != []
    ensures (var x := if first then s0[0] else s1[0];
             && x in cdrs
             && (var cdrs' := cdrs[x := End(Nil)]; var q := FirstPass(s0, s1, first);
                 var v := Begun(cdrs, o0, o1, x, first);
                 Chain(cdrs', v.in0, q.in0, end0) && Chain(cdrs', v.in1, q.in1, End(Nil))
                   && Chain(cdrs', To(x), [x], End(Nil))))
  {
    var mine, lm, endm := if first then s0 else s1, if first then o0 else o1, if first then end0 else End(Nil);
    var other, lo, endo := if first then s1 else s0, if first then o1 else o0, if first then End(Nil) else end0;
    hide Comparable, Once, EndsGood, KeysGood;
    assert Chain(cdrs, End(Nil), [], End(Nil));
    hide Chain;
    TakeCells(cdrs, mine, other, [], [], lm, lo, End(Nil), End(Nil), endm, endo, j.all);
    assert [] + [mine[0]] == [mine[0]];
    assert HungCdrs(cdrs, [], mine[0]) == cdrs[mine[0] := End(Nil)];
  }

  lemma BeginLinked(j: Job, cdrs: Cdrs, o0: Link, o1: Link, s0: seq<Addr>, s1: seq<Addr>, end0: Link, first: bool,
                    x: Addr)
    requires Between(j, cdrs, o0, o1, s0, s1, end0)
    requires (if first then s0 != [] else s1 != []) && x == (if first then s0[0] else s1[0]) && x in cdrs
    requires (var cdrs' := cdrs[x := End(Nil)]; var q := FirstPass(s0, s1, first);
              var v := Begun(cdrs, o0, o1, x, first);
              && Chain(cdrs', v.in0, q.in0, end0) && Chain(cdrs', v.in1, q.in1, End(Nil))
              && Chain(cdrs', To(x), [x], End(Nil)))
    ensures (var cdrs' := cdrs[x := End(Nil)]; var q := FirstPass(s0, s1, first);
             var v := Begun(cdrs, o0, o1, x, first);
             Linked(j.cdrs0, cdrs', q, v.in0, v.in1, v.out0, v.out1, end0, End(Nil), j.all) && EndsGood(cdrs'))
  {
    var mine := if first then s0 else s1;
    assert mine == [mine[0]] + mine[1..];
    assert multiset(mine)[x] > 0;
    assert Chain(cdrs[x := End(Nil)], End(Nil), [], End(Nil));
    hide Chain, Comparable;
  }

  lemma EndOfPass(j: Job, cdrs: Cdrs, v: Locals, q: Pass, end0: Link, bound: nat)
    requires Merging(j, cdrs, v, q, end0, End(Nil), bound) && q.in0 == [] && q.in1 == []
    ensures Between(j, cdrs, v.out0, v.out1, q.out0, q.out1, End(Nil))
    ensures Count(j.keys, q.out0) + Count(j.keys, q.out1) <= bound
    ensures q.out1 == [] ==> Ascending(j.keys, q.out0)
    ensures q.out0 != []
  {
    PassDone(j.keys, bound, q);
    hide Comparable, Chain, Ascending, Count, Left, EndsGood, KeysGood, Once, Lt;
  }

  class Lists {
    const half: int
    const keys: Keys
    var cdrs: Cdrs

    constructor (half: int, keys: Keys, cdrs: Cdrs)
      ensures this.half == half && this.keys == keys && this.cdrs == cdrs
    {
      this.half, this.keys, this.cdrs := half, keys, cdrs;
    }

    // compare on two cells.
    method CompareCells(a: Addr, b: Addr) returns (c: int)
      requires KeysGood(keys) && EndsGood(cdrs) && a in keys && b in keys && a in cdrs && b in cdrs
               && Fits(half, keys[a], keys[b])
      ensures c < 0 ==> !Lt(keys, b, a)
      ensures c >= 0 ==> !Lt(keys, a, b)
      ensures cdrs[b] == End(Nil) ==> (c < 0 <==> Lt(keys, a, b))
    {
      var n := |cdrs| + 1;
      ValueWellNamed(keys, cdrs, To(a), n);
      ValueWellNamed(keys, cdrs, To(b), n);
      c := CompareValues(half, ValueAt(keys, cdrs, To(a), n), ValueAt(keys, cdrs, To(b), n));
      CompareLists(half, keys, cdrs, a, b, n);
    }

    // Which input the next cell comes from, and whether it starts a run on the other output.
    method Pick(v: Locals, ghost j: Job, ghost p: Pass, ghost end0: Link, ghost end1: Link, ghost bound: nat)
      returns (first: bool, flip: bool)
      requires j.half == half && j.keys == keys && Merging(j, cdrs, v, p, end0, end1, bound) && (v.in0.To? || v.in1.To?)
      ensures if first then p.in0 != [] && MayTake(keys, p.in0[0], p.in1, p.last)
              else p.in1 != [] && MayTake(keys, p.in1[0], p.in0, p.last)
      ensures flip == Lt(keys, if first then p.in0[0] else p.in1[0], p.last)
    {
      Heads(j, cdrs, v, p, end0, end1, bound);
      hide Merging, KeysGood, EndsGood, Lt;
      if !v.in1.To? {
        var c := CompareCells(v.in0.p, v.last);
        return true, c < 0;
      }
      if !v.in0.To? {
        var c := CompareCells(v.in1.p, v.last);
        return false, c < 0;
      }
      first, flip := PickOfTwo(v.in0.p, v.in1.p, v.last);
    }

    method PickOfTwo(x: Addr, y: Addr, last: Addr) returns (first: bool, flip: bool)
      requires KeysGood(keys) && EndsGood(cdrs) && x in keys && y in keys && last in keys && x in cdrs && y in cdrs
               && last in cdrs
      requires cdrs[last] == End(Nil) && Fits(half, keys[x], keys[y]) && Fits(half, keys[x], keys[last])
               && Fits(half, keys[y], keys[last])
      ensures MayTake(keys, if first then x else y, if first then [y] else [x], last)
      ensures flip == Lt(keys, if first then x else y, last)
    {
      hide KeysGood, EndsGood, Lt;
      var c0 := CompareCells(x, last);
      var c1 := CompareCells(y, last);
      if c0 < 0 {
        if c1 >= 0 {
          return false, false;
        }
        var c := CompareCells(x, y);
        return c < 0, true;
      }
      if c1 < 0 {
        return true, false;
      }
      var c := CompareCells(x, y);
      return c < 0, false;
    }

    // Hanging the cell x behind the output list that is being extended.
    method Append(v: Locals, x: Addr, first: bool, flip: bool, ghost target: seq<Addr>) returns (w: Locals)
      requires x in cdrs && (target != [] ==> target[|target| - 1] in cdrs)
      requires TailSlot(target) == if (if flip then !v.second else v.second) then v.tail1 else v.tail0
      requires v.tail0.CdrOf?
      modifies this
      ensures cdrs == HungCdrs(old(cdrs), target, x)
      ensures w == Moved(old(cdrs), v, x, first, flip)
    {
      var in0 := if first then cdrs[x] else v.in0;
      var in1 := if first then v.in1 else cdrs[x];
      var second := if flip then !v.second else v.second;
      var out1 := v.out1;
      match if second then v.tail1 else v.tail0 {
        case ListVar => out1 := To(x);
        case CdrOf(q) => cdrs := cdrs[q := To(x)];
      }
      cdrs := cdrs[x := End(Nil)];
      w := Locals(in0, in1, v.out0, out1, if second then v.tail0 else CdrOf(x), if second then CdrOf(x)
                  else v.tail1, second, x);
    }

    // One turn of the merging loop.
    method Turn(v: Locals, ghost j: Job, ghost p: Pass, ghost end0: Link, ghost end1: Link, ghost bound: nat)
      returns (w: Locals, ghost q: Pass)
      requires j.half == half && j.keys == keys && Merging(j, cdrs, v, p, end0, end1, bound) && (v.in0.To? || v.in1.To?)
      modifies this
      ensures Merging(j, cdrs, w, q, end0, end1, bound)
      ensures |q.in0| + |q.in1| < |p.in0| + |p.in1|
    {
      hide Merging, MayTake, Lt, HungCdrs, Moved, TailSlot, Target;
      var first, flip := Pick(v, j, p, end0, end1, bound);
      MoveMerges(j, cdrs, v, p, end0, end1, bound, first, flip);
      TargetSlot(j, cdrs, v, p, end0, end1, bound, flip);
      q := Taken(p, first, flip);
      w := Append(v, if first then v.in0.p else v.in1.p, first, flip, Target(p, flip));
    }

    // The merging loop of a pass.
    method MergeAll(v: Locals, ghost j: Job, ghost p: Pass, ghost end0: Link, ghost end1: Link, ghost bound: nat)
      returns (w: Locals, ghost q: Pass)
      requires j.half == half && j.keys == keys && Merging(j, cdrs, v, p, end0, end1, bound)
      modifies this
      ensures Merging(j, cdrs, w, q, end0, end1, bound) && q.in0 == [] && q.in1 == []
    {
      hide Merging;
      w, q := v, p;
      while w.in0.To? || w.in1.To?
        invariant Merging(j, cdrs, w, q, end0, end1, bound)
        decreases |q.in0| + |q.in1|
      {
        w, q := Turn(w, j, q, end0, end1, bound);
      }
      Heads(j, cdrs, w, q, end0, end1, bound);
    }

    // The start of a pass: the smaller of the two first cells begins the first output list.
    method Begin(o0: Link, o1: Link, ghost j: Job, ghost s0: seq<Addr>, ghost s1: seq<Addr>, ghost end0: Link)
      returns (v: Locals, ghost p: Pass)
      requires j.half == half && j.keys == keys && Between(j, cdrs, o0, o1, s0, s1, end0)
      modifies this
      ensures Merging(j, cdrs, v, p, end0, End(Nil), Max(Count(keys, s0), Count(keys, s1)))
    {
      BetweenHeads(j, cdrs, o0, o1, s0, s1, end0);
      hide Between, Merging, Lt, Count, EndsGood, KeysGood;
      var i := false;
      if o1.To? {
        var c := CompareCells(o0.p, o1.p);
        i := c >= 0;
      }
      var x := if i then o1.p else o0.p;
      BeginMerges(j, cdrs, o0, o1, s0, s1, end0, !i);
      v := Begun(cdrs, o0, o1, x, !i);
      p := FirstPass(s0, s1, !i);
      cdrs := cdrs[x := End(Nil)];
    }

    // One pass: it leaves as many runs as the longer of the two lists had, or fewer.
    method OnePass(o0: Link, o1: Link, ghost j: Job, ghost s0: seq<Addr>, ghost s1: seq<Addr>, ghost end0: Link)
      returns (r0: Link, r1: Link, ghost t0: seq<Addr>, ghost t1: seq<Addr>)
      requires j.half == half && j.keys == keys && Between(j, cdrs, o0, o1, s0, s1, end0)
      modifies this
      ensures Between(j, cdrs, r0, r1, t0, t1, End(Nil))
      ensures Count(keys, t0) + Count(keys, t1) <= Max(Count(keys, s0), Count(keys, s1))
      ensures t1 == [] ==> Ascending(keys, t0)
    {
      hide Between, Merging, Count, Ascending, Max;
      ghost var bound := Max(Count(keys, s0), Count(keys, s1));
      ghost var p, q: Pass;
      var v, w: Locals;
      v, p := Begin(o0, o1, j, s0, s1, end0);
      w, q := MergeAll(v, j, p, end0, End(Nil), bound);
      EndOfPass(j, cdrs, w, q, end0, bound);
      r0, r1, t0, t1 := w.out0, w.out1, q.out0, q.out1;
    }

    // sort: the cells of the list, all of them and no others, relinked in ascending order.
    method Sort(l: Link, ghost s: seq<Addr>, ghost end: Link) returns (r: Link, ghost t: seq<Addr>)
      requires Chain(cdrs, l, s, end) && NoDup(s) && (forall x :: x in s ==> x in keys)
      requires KeysGood(keys) && EndsGood(cdrs) && Comparable(half, keys, multiset(s))
      modifies this
      ensures s == [] ==> r == l && cdrs == old(cdrs)
      ensures s != [] ==> Chain(cdrs, r, t, End(Nil)) && Ascending(keys, t) && multiset(t) == multiset(s)
      ensures cdrs.Keys == old(cdrs).Keys && forall x :: x in cdrs && x !in s ==> cdrs[x] == old(cdrs)[x]
    {
      if !l.To? {
        return l, [];
      }
      ghost var j := Job(half, keys, cdrs, multiset(s));
      StartBetween(j, cdrs, l, s, end);
      hide Between, Chain, Count, Ascending, KeysGood, EndsGood, Comparable, NoDup;
      var o1: Link := End(Nil);
      ghost var t1: seq<Addr>;
      r, o1, t, t1 := OnePass(l, o1, j, s, [], end);
      BetweenHeads(j, cdrs, r, o1, t, t1, End(Nil));
      while o1.To?
        invariant Between(j, cdrs, r, o1, t, t1, End(Nil)) && (o1.To? <==> t1 != [])
                  && (t1 == [] ==> Ascending(keys, t))
        decreases Count(keys, t) + Count(keys, t1)
      {
        FewerRuns(keys, t, t1);
        r, o1, t, t1 := OnePass(r, o1, j, t, t1, End(Nil));
        BetweenHeads(j, cdrs, r, o1, t, t1, End(Nil));
      }
      SortedCells(j, cdrs, r, o1, t);
    }
  }

  // The longer of two lists has fewer runs than both together: every pass but the first lowers the
  // number of runs.
  lemma FewerRuns(keys: Keys, s0: seq<Addr>, s1: seq<Addr>)
    requires s0 != [] && s1 != []
    ensures Max(Count(keys, s0), Count(keys, s1)) < Count(keys, s0) + Count(keys, s1)
  {
    CountPositive(keys, s0);
    CountPositive(keys, s1);
  }

  lemma {:induction false} NoDupOnce(s: seq<Addr>)
    requires NoDup(s)
    ensures Once(multiset(s))
  {
    if s != [] {
      assert s == [s[0]] + s[1..];
      NoDupOnce(s[1..]);
      assert s[0] !in s[1..];
    }
  }

  lemma StartBetween(j: Job, cdrs: Cdrs, l: Link, s: seq<Addr>, end: Link)
    requires l.To? && Chain(cdrs, l, s, end) && NoDup(s) && forall x :: x in s ==> x in j.keys
    requires KeysGood(j.keys) && EndsGood(cdrs) && Comparable(j.half, j.keys, multiset(s)) && j.cdrs0 == cdrs
             && j.all == multiset(s)
    ensures Between(j, cdrs, l, End(Nil), s, [], end)
  {
    NoDupOnce(s);
    hide NoDup, Once, KeysGood, EndsGood, Comparable;
  }

  lemma SortedCells(j: Job, cdrs: Cdrs, r: Link, o1: Link, t: seq<Addr>)
    requires Between(j, cdrs, r, o1, t, [], End(Nil))
    ensures Chain(cdrs, r, t, End(Nil)) && multiset(t) == j.all && cdrs.Keys == j.cdrs0.Keys
    ensures forall x :: x in cdrs && x !in j.all ==> cdrs[x] == j.cdrs0[x]
  {
  }

  lemma TargetSlot(j: Job, cdrs: Cdrs, v: Locals, p: Pass, end0: Link, end1: Link, bound: nat, flip: bool)
    requires Merging(j, cdrs, v, p, end0, end1, bound)
    ensures (var t := Target(p, flip);
             && TailSlot(t) == (if (if flip then !v.second else v.second) then v.tail1 else v.tail0)
             && (t != [] ==> t[|t| - 1] in cdrs) && v.tail0.CdrOf?)
  {
    var t := Target(p, flip);
    if t != [] {
      assert CdrAt(cdrs, t, |t| - 1, End(Nil));
    }
  }
}
