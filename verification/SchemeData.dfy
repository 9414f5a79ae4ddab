/** Scheme data, and environments as lists of frames of variable slots. */
module SchemeData {

  // Str stands for the literal constants, which the reader makes immutable. A closure holds its
  // code, the formals followed by the body, and its environment.
  datatype Datum = Nil | T | F | Num(n: int) | Str(s: string) | Sym(name: string)
                 | Pair(car: Datum, cdr: Datum) | Closure(code: Datum, env: nat) | Proc(id: nat)

  // The car and the cdr of the empty list are the empty list; other atoms have none.
  predicate HasCar(d: Datum) {
    d.Pair? || d.Nil?
  }

  function Car(d: Datum): Datum {
    if d.Pair? then d.car else Nil
  }

  function Cdr(d: Datum): Datum {
    if d.Pair? then d.cdr else Nil
  }

  function List(d: Datum): seq<Datum> {
    if d.Pair? then [d.car] + List(d.cdr) else []
  }

  predicate IsList(d: Datum) {
    d.Nil? || (d.Pair? && IsList(d.cdr))
  }

  // The elements of d, last first, in front of term.
  function RevOnto(d: Datum, term: Datum): Datum {
    if d.Pair? then RevOnto(d.cdr, Pair(d.car, term)) else term
  }

  // ---------- environments ----------

  datatype Slot = Slot(key: Datum, val: Datum)
  // The newest slot first; parent 0 is the empty environment, parent k the frame k - 1.
  datatype Frame = Frame(slots: seq<Slot>, parent: nat)
  type Frames = seq<Frame>

  // Where a variable is bound: the slot i of the frame env.
  datatype Place = Nowhere | At(env: nat, i: nat)

  function SlotOf(slots: seq<Slot>, key: Datum, i: nat): (r: nat)
    ensures i <= |slots| ==> i <= r <= |slots|
    decreases |slots| - i
  {
    if i >= |slots| || slots[i].key == key then i else SlotOf(slots, key, i + 1)
  }

  // find_slot_in_env: in the whole environment, or in its first frame only.
  function Find(frames: Frames, env: nat, key: Datum, all: bool): (p: Place)
    ensures p.At? ==> 0 < p.env <= env && p.env <= |frames| && p.i < |frames[p.env - 1].slots|
                      && frames[p.env - 1].slots[p.i].key == key
    decreases env
  {
    if env == 0 || env > |frames| then Nowhere
    else
      var f := frames[env - 1];
      var i := SlotOf(f.slots, key, 0);
      if i < |f.slots| then (SlotFound(f.slots, key, 0); At(env, i))
      else if !all || f.parent >= env then Nowhere
      else Find(frames, f.parent, key, all)
  }

  lemma SlotFound(slots: seq<Slot>, key: Datum, i: nat)
    requires i <= |slots|
    ensures SlotOf(slots, key, i) < |slots| ==> slots[SlotOf(slots, key, i)].key == key
    ensures forall j :: i <= j < SlotOf(slots, key, i) ==> slots[j].key != key
    decreases |slots| - i
  {
    if i < |slots| && slots[i].key != key {
      SlotFound(slots, key, i + 1);
    }
  }

  function ValueIn(frames: Frames, p: Place): Datum
    requires p.At? && 0 < p.env <= |frames| && p.i < |frames[p.env - 1].slots|
  {
    frames[p.env - 1].slots[p.i].val
  }

  // set_slot_in_env
  function SetSlot(frames: Frames, p: Place, v: Datum): Frames
    requires p.At? && 0 < p.env <= |frames| && p.i < |frames[p.env - 1].slots|
  {
    var f := frames[p.env - 1];
    frames[p.env - 1 := f.(slots := f.slots[p.i := f.slots[p.i].(val := v)])]
  }

  // new_slot_in_env
  function AddSlot(frames: Frames, env: nat, key: Datum, v: Datum): Frames {
    if 0 < env <= |frames| then
      var f := frames[env - 1];
      frames[env - 1 := f.(slots := [Slot(key, v)] + f.slots)]
    else frames
  }

  // define: the slot of the innermost frame, made if there is none.
  function Define(frames: Frames, env: nat, key: Datum, v: Datum): Frames {
    var p := Find(frames, env, key, false);
    if p.At? then SetSlot(frames, p, v) else AddSlot(frames, env, key, v)
  }

  // Every frame's parent is an older frame.
  ghost predicate Nested(frames: Frames) {
    forall i :: 0 <= i < |frames| ==> frames[i].parent <= i
  }
}
