/** Ascending runs of a list, and what one pass of the merge sort does to their number. */
module Runs {
  import opened Ordering

  type Addr = int
  type Keys = map<Addr, Val>

  // Cell a's value comes before cell b's.
  predicate Lt(keys: Keys, a: Addr, b: Addr) {
    a in keys && b in keys && Order(keys[a], keys[b]) < 0
  }

  // The number of maximal ascending runs.
  ghost function Count(keys: Keys, s: seq<Addr>): nat {
    if |s| <= 1 then |s| else Count(keys, s[1..]) + (if Lt(keys, s[1], s[0]) then 1 else 0)
  }

  ghost predicate Ascending(keys: Keys, s: seq<Addr>) {
    forall i, j :: 0 <= i < j < |s| ==> !Lt(keys, s[j], s[i])
  }

  ghost predicate KeysGood(keys: Keys) {
    forall p :: p in keys ==> WellNamed(keys[p])
  }

  lemma NotLtTrans(keys: Keys, a: Addr, b: Addr, c: Addr)
    requires KeysGood(keys) && a in keys && b in keys && c in keys
    requires !Lt(keys, b, a) && !Lt(keys, c, b)
    ensures !Lt(keys, c, a)
  {
    OrderLaws(keys[a], keys[b], keys[c]);
    OrderLaws(keys[b], keys[a], keys[a]);
    OrderLaws(keys[c], keys[b], keys[a]);
    OrderLaws(keys[c], keys[a], keys[a]);
  }

  // One more element at the end.
  lemma {:induction false} CountAppend(keys: Keys, s: seq<Addr>, p: Addr)
    ensures Count(keys, s + [p]) == Count(keys, s) + (if s != [] && !Lt(keys, p, s[|s| - 1]) then 0 else 1)
  {
    if |s| > 1 {
      CountAppend(keys, s[1..], p);
      assert (s + [p])[1..] == s[1..] + [p];
    } else if |s| == 1 {
      assert (s + [p])[1..] == [p];
    } else {
      assert s + [p] == [p];
    }
  }

  // A list of at most one run is in order.
  lemma {:induction false} OneRunAscends(keys: Keys, s: seq<Addr>)
    requires KeysGood(keys) && (forall i :: 0 <= i < |s| ==> s[i] in keys) && Count(keys, s) <= 1
    ensures Ascending(keys, s)
  {
    if |s| > 1 {
      CountPositive(keys, s[1..]);
      OneRunAscends(keys, s[1..]);
      forall i, j | 0 <= i < j < |s| ensures !Lt(keys, s[j], s[i]) {
        if i > 0 {
          assert !Lt(keys, s[1..][j - 1], s[1..][i - 1]);
        } else if j > 1 {
          assert !Lt(keys, s[1..][j - 1], s[1..][0]);
          NotLtTrans(keys, s[0], s[1], s[j]);
        }
      }
    }
  }

  lemma {:induction false} CountPositive(keys: Keys, s: seq<Addr>)
    ensures s != [] ==> Count(keys, s) > 0
    ensures s == [] ==> Count(keys, s) == 0
  {
    if |s| > 1 {
      CountPositive(keys, s[1..]);
    }
  }

  // The runs of s that have not been started yet when the last element handed out is last.
  ghost function Left(keys: Keys, s: seq<Addr>, last: Addr): nat {
    if s == [] then 0
    else if Lt(keys, s[0], last) then Count(keys, s)
    else if Count(keys, s) > 0 then Count(keys, s) - 1 else 0
  }

  function Max(a: nat, b: nat): nat {
    if a < b then b else a
  }

  // The state of a pass: the rest of the two input lists, the two output lists, which of them is
  // being extended, the last element handed out, the number of runs begun.
  datatype Pass = Pass(in0: seq<Addr>, in1: seq<Addr>, out0: seq<Addr>, out1: seq<Addr>, second: bool, last: Addr,
                       begun: nat)

  ghost predicate Sound(keys: Keys, bound: nat, p: Pass) {
    match p
    case Pass(in0, in1, out0, out1, second, last, begun) =>
      && (forall x :: x in in0 || x in in1 || x in out0 || x in out1 ==> x in keys)
      && Count(keys, out0) + Count(keys, out1) <= begun
      && begun + Max(Left(keys, in0, last), Left(keys, in1, last)) <= bound
      && (var out := if second then out1 else out0; out != [] && out[|out| - 1] == last)
      && (out1 == [] ==> begun == 1 && !second)
  }

  // Taking x from one input, the other being the list other, is what the merge may do next: it goes
  // on with the current run if it can, and takes the smaller of two candidates.
  ghost predicate MayTake(keys: Keys, x: Addr, other: seq<Addr>, last: Addr) {
    other == []
    || (if Lt(keys, x, last) then Lt(keys, other[0], last) && !Lt(keys, other[0], x)
        else Lt(keys, other[0], last) || !Lt(keys, other[0], x))
  }

  ghost function Taken(p: Pass, first: bool, flip: bool): Pass
    requires if first then p.in0 != [] else p.in1 != []
  {
    var x := if first then p.in0[0] else p.in1[0];
    var second := if flip then !p.second else p.second;
    Pass(if first then p.in0[1..] else p.in0, if first then p.in1 else p.in1[1..],
         if second then p.out0 else p.out0 + [x], if second then p.out1 + [x] else p.out1,
         second, x, if flip then p.begun + 1 else p.begun)
  }

  // How the runs still to be started change when x is taken from s.
  lemma LeftOfTaken(keys: Keys, s: seq<Addr>, last: Addr)
    requires s != []
    ensures Left(keys, s[1..], s[0]) == (if Lt(keys, s[0], last) then Left(keys, s, last) - 1 else Left(keys, s, last))
    ensures Lt(keys, s[0], last) ==> Left(keys, s, last) > 0
  {
    CountPositive(keys, s);
    CountPositive(keys, s[1..]);
  }

  lemma LeftOfOther(keys: Keys, x: Addr, other: seq<Addr>, last: Addr)
    requires KeysGood(keys) && x in keys && last in keys && (forall y :: y in other ==> y in keys)
    requires MayTake(keys, x, other, last)
    ensures (var l := Left(keys, other, last);
             Left(keys, other, x) == if Lt(keys, x, last) && other != [] then l - 1 else l)
    ensures Lt(keys, x, last) && other != [] ==> Left(keys, other, last) > 0
  {
    CountPositive(keys, other);
    if other != [] {
      var o := other[0];
      OrderLaws(keys[o], keys[last], keys[x]);
      OrderLaws(keys[o], keys[x], keys[last]);
      OrderLaws(keys[x], keys[last], keys[o]);
      OrderLaws(keys[last], keys[x], keys[o]);
    }
  }

  // Every step of the merge keeps the number of runs within the bound.
  lemma TakeSound(keys: Keys, bound: nat, p: Pass, first: bool)
    requires KeysGood(keys) && Sound(keys, bound, p)
    requires if first then p.in0 != [] && MayTake(keys, p.in0[0], p.in1, p.last)
             else p.in1 != [] && MayTake(keys, p.in1[0], p.in0, p.last)
    ensures Sound(keys, bound, Taken(p, first, Lt(keys, if first then p.in0[0] else p.in1[0], p.last)))
  {
    var mine, other := if first then p.in0 else p.in1, if first then p.in1 else p.in0;
    var x := mine[0];
    var flip := Lt(keys, x, p.last);
    var t := Taken(p, first, flip);
    var out := if p.second then p.out1 else p.out0;
    assert p.last in out;
    LeftOfTaken(keys, mine, p.last);
    LeftOfOther(keys, x, other, p.last);
    CountAppend(keys, p.out0, x);
    CountAppend(keys, p.out1, x);
    CountPositive(keys, p.out1);
    assert mine == [x] + mine[1..];
    TakeBound(keys, bound, p, first, flip, t);
    TakeOutputs(keys, p, first, flip, t);
    TakeKnown(keys, p, first, flip, t);
  }

  lemma TakeKnown(keys: Keys, p: Pass, first: bool, flip: bool, t: Pass)
    requires if first then p.in0 != [] else p.in1 != []
    requires t == Taken(p, first, flip)
    requires forall x :: x in p.in0 || x in p.in1 || x in p.out0 || x in p.out1 ==> x in keys
    ensures forall x :: x in t.in0 || x in t.in1 || x in t.out0 || x in t.out1 ==> x in keys
  {
  }

  lemma TakeBound(keys: Keys, bound: nat, p: Pass, first: bool, flip: bool, t: Pass)
    requires if first then p.in0 != [] else p.in1 != []
    requires t == Taken(p, first, flip)
    requires p.begun + Max(Left(keys, p.in0, p.last), Left(keys, p.in1, p.last)) <= bound
    requires (var mine := if first then p.in0 else p.in1;
              && flip == Lt(keys, mine[0], p.last)
              && (flip ==> Left(keys, mine, p.last) > 0)
              && Left(keys, mine[1..], mine[0]) == (if flip then Left(keys, mine, p.last) - 1
                                                    else Left(keys, mine, p.last)))
    requires (var x := if first then p.in0[0] else p.in1[0];
              var other := if first then p.in1 else p.in0;
              && (flip && other != [] ==> Left(keys, other, p.last) > 0)
              && Left(keys, other, x) == (if flip && other != [] then Left(keys, other, p.last) - 1
                                          else Left(keys, other, p.last)))
    ensures t.begun + Max(Left(keys, t.in0, t.last), Left(keys, t.in1, t.last)) <= bound
  {
    hide Lt, Count;
  }

  lemma TakeOutputs(keys: Keys, p: Pass, first: bool, flip: bool, t: Pass)
    requires if first then p.in0 != [] else p.in1 != []
    requires t == Taken(p, first, flip)
    requires flip == Lt(keys, if first then p.in0[0] else p.in1[0], p.last)
    requires Count(keys, p.out0) + Count(keys, p.out1) <= p.begun
    requires (var out := if p.second then p.out1 else p.out0; out != [] && out[|out| - 1] == p.last)
    requires p.out1 == [] ==> p.begun == 1 && !p.second
    ensures Count(keys, t.out0) + Count(keys, t.out1) <= t.begun
    ensures (var out := if t.second then t.out1 else t.out0; out != [] && out[|out| - 1] == t.last)
    ensures t.out1 == [] ==> t.begun == 1 && !t.second
  {
    var x := if first then p.in0[0] else p.in1[0];
    CountAppend(keys, p.out0, x);
    CountAppend(keys, p.out1, x);
    hide Lt, Count;
  }

  // The first element of a pass: the smaller of the two heads.
  lemma FirstSound(keys: Keys, in0: seq<Addr>, in1: seq<Addr>, first: bool)
    requires KeysGood(keys) && (forall x :: x in in0 || x in in1 ==> x in keys)
    requires if first then in0 != [] && (in1 == [] || !Lt(keys, in1[0], in0[0]))
             else in1 != [] && (in0 == [] || !Lt(keys, in0[0], in1[0]))
    ensures (var x := if first then in0[0] else in1[0];
             Sound(keys, Max(Count(keys, in0), Count(keys, in1)),
                   Pass(if first then in0[1..] else in0, if first then in1 else in1[1..], [x], [], false, x, 1)))
  {
    var mine, other := if first then in0 else in1, if first then in1 else in0;
    var x := mine[0];
    CountPositive(keys, in0);
    CountPositive(keys, in1);
    CountPositive(keys, mine[1..]);
    assert mine == [x] + mine[1..];
    assert Left(keys, mine[1..], x) == Count(keys, mine) - 1;
    assert other != [] ==> Left(keys, other, x) == Count(keys, other) - 1;
  }

  // At the end of a pass the runs are at most those of the longer input, counted in runs; and if
  // nothing went to the second list, the first is in order.
  lemma PassDone(keys: Keys, bound: nat, p: Pass)
    requires KeysGood(keys) && Sound(keys, bound, p) && p.in0 == [] && p.in1 == []
    ensures Count(keys, p.out0) + Count(keys, p.out1) <= bound
    ensures p.out1 == [] ==> Ascending(keys, p.out0)
  {
    if p.out1 == [] {
      CountPositive(keys, p.out1);
      forall i | 0 <= i < |p.out0| ensures p.out0[i] in keys {
        var x := p.out0[i];
        assert x in p.out0;
      }
      OneRunAscends(keys, p.out0);
    }
  }
}
