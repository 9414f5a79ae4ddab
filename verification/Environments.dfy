/** What define, set!, a new frame and a call do to the meaning of variables. */
module Environments {
  import opened SchemeData
  import opened BigStep

  datatype Meaning = Free | Is(v: Datum)

  // What a variable means in an environment.
  function MeaningOf(frames: Frames, env: nat, key: Datum): Meaning {
    var p := Find(frames, env, key, true);
    if p.At? then Is(ValueIn(frames, p)) else Free
  }

  lemma SameKeys(a: seq<Slot>, b: seq<Slot>, key: Datum, i: nat)
    requires |a| == |b| && forall j :: 0 <= j < |a| ==> a[j].key == b[j].key
    ensures SlotOf(a, key, i) == SlotOf(b, key, i)
    decreases |a| - i
  {
    if i < |a| && a[i].key != key {
      SameKeys(a, b, key, i + 1);
    }
  }

  // Assigning a slot moves no variable to another place.
  lemma {:induction false} SamePlaces(frames: Frames, p: Place, v: Datum, env: nat, key: Datum, all: bool)
    requires p.At? && 0 < p.env <= |frames| && p.i < |frames[p.env - 1].slots|
    ensures Find(SetSlot(frames, p, v), env, key, all) == Find(frames, env, key, all)
    decreases env
  {
    if 0 < env <= |frames| {
      var more := SetSlot(frames, p, v);
      SameKeys(frames[env - 1].slots, more[env - 1].slots, key, 0);
      if frames[env - 1].parent < env {
        SamePlaces(frames, p, v, frames[env - 1].parent, key, all);
      }
    }
  }

  // set! changes the variable wherever it is seen, and no other variable anywhere.
  lemma SetMeaning(frames: Frames, env: nat, key: Datum, v: Datum, e: nat, k: Datum)
    requires Find(frames, env, key, true).At?
    ensures (var p := Find(frames, env, key, true);
             MeaningOf(SetSlot(frames, p, v), e, k) == if Find(frames, e, k, true) == p then Is(v)
               else MeaningOf(frames, e, k))
    ensures MeaningOf(SetSlot(frames, Find(frames, env, key, true), v), env, key) == Is(v)
  {
    var p := Find(frames, env, key, true);
    SamePlaces(frames, p, v, e, k, true);
    SamePlaces(frames, p, v, env, key, true);
  }

  lemma Shifted(slots: seq<Slot>, s: Slot, key: Datum, i: nat)
    requires s.key != key || i > 0
    ensures SlotOf([s] + slots, key, i + 1) == SlotOf(slots, key, i) + 1
    decreases |slots| - i
  {
    if i < |slots| && slots[i].key != key {
      Shifted(slots, s, key, i + 1);
    }
  }

  // Adding a slot moves the others in its frame by one place.
  function Moved(p: Place, env: nat): Place {
    if p.At? && p.env == env then At(env, p.i + 1) else p
  }

  lemma {:induction false} AddedElsewhere(frames: Frames, env: nat, key: Datum, v: Datum, e: nat, k: Datum)
    requires k != key && 0 < env <= |frames|
    ensures Find(AddSlot(frames, env, key, v), e, k, true) == Moved(Find(frames, e, k, true), env)
    decreases e
  {
    if 0 < e <= |frames| {
      FrameAdded(frames, env, key, v, e, k);
      hide AddSlot, SlotOf;
      if frames[e - 1].parent < e {
        AddedElsewhere(frames, env, key, v, frames[e - 1].parent, k);
      }
    }
  }

  lemma FrameAdded(frames: Frames, env: nat, key: Datum, v: Datum, e: nat, k: Datum)
    requires k != key && 0 < env <= |frames| && 0 < e <= |frames|
    ensures (var more := AddSlot(frames, env, key, v); var a := frames[e - 1].slots; var b := more[e - 1].slots;
             && |more| == |frames| && more[e - 1].parent == frames[e - 1].parent
                && |b| == |a| + (if e == env then 1 else 0)
             && SlotOf(b, k, 0) == SlotOf(a, k, 0) + (if e == env then 1 else 0))
  {
    if e == env {
      var a := frames[e - 1].slots;
      Shifted(a, Slot(key, v), k, 0);
      assert SlotOf([Slot(key, v)] + a, k, 0) == SlotOf([Slot(key, v)] + a, k, 1);
    }
  }

  lemma AddedMeaning(frames: Frames, env: nat, key: Datum, v: Datum, e: nat, k: Datum)
    requires k != key && 0 < env <= |frames|
    ensures MeaningOf(AddSlot(frames, env, key, v), e, k) == MeaningOf(frames, e, k)
  {
    AddedElsewhere(frames, env, key, v, e, k);
  }

  // define gives the variable its value in the environment, and changes no other variable anywhere.
  lemma DefineMeaning(frames: Frames, env: nat, key: Datum, v: Datum, e: nat, k: Datum)
    requires 0 < env <= |frames|
    ensures MeaningOf(Define(frames, env, key, v), env, key) == Is(v)
    ensures k != key ==> MeaningOf(Define(frames, env, key, v), e, k) == MeaningOf(frames, e, k)
  {
    var p := Find(frames, env, key, false);
    if p.At? {
      assert Find(frames, env, key, true) == p;
      SetMeaning(frames, env, key, v, e, k);
    } else {
      var more := AddSlot(frames, env, key, v);
      assert SlotOf(more[env - 1].slots, key, 0) == 0;
      if k != key {
        AddedMeaning(frames, env, key, v, e, k);
      }
    }
  }

  // ---------- calls ----------

  function End(d: Datum): Datum {
    if d.Pair? then End(d.cdr) else d
  }

  function Rest(d: Datum, n: nat): Datum {
    if n == 0 || !d.Pair? then d else Rest(d.cdr, n - 1)
  }

  // A call succeeds in binding its formals exactly when there is an argument for each of them and
  // they end in the empty list or in a symbol; left-over arguments do not matter.
  lemma {:induction false} BindsWhen(x: Datum, y: Datum, slots: seq<Slot>)
    ensures BindFormals(x, y, slots).Bound? <==> |List(x)| <= |List(y)| && (End(x).Nil? || End(x).Sym?)
  {
    if x.Pair? && y.Pair? {
      BindsWhen(x.cdr, y.cdr, [Slot(x.car, y.car)] + slots);
    }
  }

  // How many slots a call makes, on top of the given ones.
  lemma {:induction false} BoundOnto(x: Datum, y: Datum, slots: seq<Slot>)
    requires BindFormals(x, y, slots).Bound?
    ensures (var s := BindFormals(x, y, slots).slots; var k := |List(x)| + (if End(x).Sym? then 1 else 0);
             && |s| == k + |slots| && s[k..] == slots && |List(x)| <= |List(y)|)
    ensures End(x).Sym? ==> BindFormals(x, y, slots).slots[0] == Slot(End(x), Rest(y, |List(x)|))
  {
    if x.Pair? {
      var more := [Slot(x.car, y.car)] + slots;
      BoundOnto(x.cdr, y.cdr, more);
      var s := BindFormals(x, y, slots).slots;
      var k := |List(x)| + (if End(x).Sym? then 1 else 0);
      assert s[k..] == s[k - 1..][1..];
    }
  }

  // The slots of a call: each formal with its argument, and a symbol at the end with the others.
  lemma {:induction false} BoundTo(x: Datum, y: Datum, slots: seq<Slot>, i: nat)
    requires BindFormals(x, y, slots).Bound? && i < |List(x)|
    ensures (var s := BindFormals(x, y, slots).slots; var k := |List(x)| + (if End(x).Sym? then 1 else 0);
             && |s| == k + |slots| && i < |List(y)| && s[k - 1 - i] == Slot(List(x)[i], List(y)[i]))
    decreases x
  {
    BoundOnto(x, y, slots);
    var more := [Slot(x.car, y.car)] + slots;
    if i > 0 {
      BoundTo(x.cdr, y.cdr, more, i - 1);
    } else {
      BoundOnto(x.cdr, y.cdr, more);
      var s := BindFormals(x, y, slots).slots;
      var k := |List(x)| + (if End(x).Sym? then 1 else 0);
      assert s[k - 1] == s[k - 1..][0];
    }
  }
}
