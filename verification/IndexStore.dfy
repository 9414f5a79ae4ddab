/** idx and lup: index trees in memory, changed in place. */
module IndexStore {
  import opened Ordering
  import opened IndexTree

  datatype Ptr = Null | To(a: Addr)
  // A node: the key, and the two links of the cell behind it.
  datatype TreeCell = TreeCell(key: Val, left: Ptr, right: Ptr)
  type Cells = map<Addr, TreeCell>

  // From the pointer p on, memory holds the tree t, no cell twice.
  ghost predicate Rep(cells: Cells, p: Ptr, t: Tree)
    decreases t
  {
    match t
    case Leaf => p == Null
    case Node(a, l, k, r) =>
      && p == To(a) && a in cells && cells[a].key == k && Rep(cells, cells[a].left, l) && Rep(cells, cells[a].right, r)
      && a !in Addrs(l) && a !in Addrs(r) && Addrs(l) !! Addrs(r)
  }

  lemma {:induction false} RepSame(cells: Cells, cells': Cells, p: Ptr, t: Tree)
    requires Rep(cells, p, t) && forall x :: x in Addrs(t) && x in cells ==> x in cells' && cells'[x] == cells[x]
    ensures Rep(cells', p, t)
    decreases t
  {
    if t.Node? {
      RepSame(cells, cells', cells[t.a].left, t.left);
      RepSame(cells, cells', cells[t.a].right, t.right);
    }
  }

  lemma {:induction false} RepIn(cells: Cells, p: Ptr, t: Tree)
    requires Rep(cells, p, t)
    ensures forall x :: x in Addrs(t) ==> x in cells
    decreases t
  {
    if t.Node? {
      RepIn(cells, cells[t.a].left, t.left);
      RepIn(cells, cells[t.a].right, t.right);
    }
  }

  // A link is empty exactly where the tree is.
  lemma {:induction false} Links(cells: Cells, p: Ptr, t: Tree)
    requires Rep(cells, p, t)
    ensures p == Null <==> t.Leaf?
    ensures t.Node? ==> p == To(t.a) && t.a in cells && cells[t.a].key == t.key
                        && (cells[t.a].left == Null <==> t.left.Leaf?) && (cells[t.a].right == Null <==> t.right.Leaf?)
  {
    if t.Node? {
      assert Rep(cells, cells[t.a].left, t.left) && Rep(cells, cells[t.a].right, t.right);
    }
  }

  // ---------- the way down ----------

  // The place reached: the variable itself, or a side of a node further up, with the tree on its other side.
  datatype Path = Top | Went(up: Path, left: bool, a: Addr, key: Val, other: Tree)

  function Plug(path: Path, t: Tree): Tree {
    match path
    case Top => t
    case Went(up, left, a, key, other) => Plug(up, if left then Node(a, t, key, other) else Node(a, other, key, t))
  }

  // Where the link to the place is stored: in the variable, or in a node.
  datatype Slot = InVar | InLeft(a: Addr) | InRight(a: Addr)

  function SlotOf(path: Path): Slot {
    match path
    case Top => InVar
    case Went(_, left, a, _, _) => if left then InLeft(a) else InRight(a)
  }

  // What a slot holds.
  function Held(cells: Cells, root: Ptr, s: Slot): Ptr {
    match s
    case InVar => root
    case InLeft(a) => if a in cells then cells[a].left else Null
    case InRight(a) => if a in cells then cells[a].right else Null
  }

  // Memory and the variable after the link q has been stored in a slot.
  function StoredCells(cells: Cells, s: Slot, q: Ptr): Cells {
    match s
    case InVar => cells
    case InLeft(a) => if a in cells then cells[a := cells[a].(left := q)] else cells
    case InRight(a) => if a in cells then cells[a := cells[a].(right := q)] else cells
  }

  function StoredRoot(root: Ptr, s: Slot, q: Ptr): Ptr {
    if s.InVar? then q else root
  }

  lemma {:induction false} Focus(cells: Cells, root: Ptr, path: Path, t: Tree)
    requires Rep(cells, root, Plug(path, t))
    ensures Rep(cells, Held(cells, root, SlotOf(path)), t)
    ensures path.Went? ==> path.a in cells && path.a !in Addrs(t) && path.a !in Addrs(path.other)
                           && Addrs(t) !! Addrs(path.other)
    decreases path
  {
    match path
    case Top =>
    case Went(up, left, a, key, other) => Focus(cells, root, up, if left then Node(a, t, key, other)
                                                else Node(a, other, key, t));
  }

  // Another tree put in the same place: its cells are those of the old one, or new.
  lemma {:induction false} Refocus(cells: Cells, cells': Cells, root: Ptr, root': Ptr, path: Path, t: Tree, t': Tree,
                                   q: Ptr, more: set<Addr>)
    requires Rep(cells, root, Plug(path, t)) && Rep(cells', q, t')
    requires Addrs(t') <= Addrs(t) + more && more !! Addrs(Plug(path, t))
    requires root' == StoredRoot(root, SlotOf(path), q)
    requires forall x :: x in cells && x !in Addrs(t) ==>
               x in cells' && cells'[x] == StoredCells(cells, SlotOf(path), q)[x]
    ensures Rep(cells', root', Plug(path, t'))
    decreases path
  {
    match path
    case Top =>
    case Went(up, left, a, key, other) => {
      var n := if left then Node(a, t, key, other) else Node(a, other, key, t);
      var n' := if left then Node(a, t', key, other) else Node(a, other, key, t');
      Focus(cells, root, path, t);
      Focus(cells, root, up, n);
      AddrsWithin(up, n);
      RepSame(cells, cells', if left then cells[a].right else cells[a].left, other);
      SameHeld(cells, root, up, To(a), n);
      Refocus(cells, cells', root, root', up, n, n', To(a), more);
    }
  }

  lemma {:induction false} AddrsWithin(path: Path, t: Tree)
    ensures Addrs(t) <= Addrs(Plug(path, t))
  {
    match path
    case Top =>
    case Went(up, left, a, key, other) => AddrsWithin(up, if left then Node(a, t, key, other)
                                                      else Node(a, other, key, t));
  }

  // Storing the link that is there already changes nothing.
  lemma {:induction false} SameHeld(cells: Cells, root: Ptr, path: Path, q: Ptr, t: Tree)
    requires Rep(cells, root, Plug(path, t)) && Rep(cells, q, t)
    ensures Held(cells, root, SlotOf(path)) == q
    ensures StoredCells(cells, SlotOf(path), q) == cells && StoredRoot(root, SlotOf(path), q) == root
  {
    Focus(cells, root, path, t);
  }

  // ---------- what the operations mean ----------

  // flg > 0 inserts, flg < 0 deletes.
  function Changed(t: Tree, k: Val, flg: int, new0: Addr): Tree {
    if flg > 0 then Insert(t, k, new0) else if flg < 0 then Delete(t, k) else t
  }

  function KeysAfter(keys: set<Val>, k: Val, flg: int): set<Val> {
    if flg > 0 then keys + {k} else if flg < 0 then keys - {k} else keys
  }

  lemma {:induction false} ChangedKeys(t: Tree, k: Val, flg: int, new0: Addr)
    requires Ordered(t) && WellNamed(k)
    ensures Keys(Changed(t, k, flg, new0)) == KeysAfter(Keys(t), k, flg) && Ordered(Changed(t, k, flg, new0))
  {
    InsertKeys(t, k, new0);
    DeleteKeys(t, k);
  }

  // Going down on the side where k belongs.
  lemma {:induction false} ChangedDown(path: Path, t: Tree, k: Val, flg: int, new0: Addr)
    requires t.Node? && Order(k, t.key) != 0
    ensures (var left := Order(k, t.key) < 0;
             var down := Went(path, left, t.a, t.key, if left then t.right else t.left);
             Plug(down, Changed(if left then t.left else t.right, k, flg, new0)) == Plug(path,
                                                                                         Changed(t, k, flg, new0)))
  {
  }

  // k can be compared with every key.
  ghost predicate Comparable(half: int, k: Val, t: Tree) {
    forall x :: x in Keys(t) ==> Fits(half, k, x)
  }

  class Index {
    const half: int
    var root: Ptr
    var cells: Cells

    constructor (half: int)
      ensures this.half == half && root == Null && Holds(Leaf)
    {
      this.half, root, cells := half, Null, map[];
    }

    ghost predicate Holds(t: Tree)
      reads this
    {
      Rep(cells, root, t)
    }

    // *p = q
    method Store(s: Slot, q: Ptr)
      modifies this
      ensures root == StoredRoot(old(root), s, q) && cells == StoredCells(old(cells), s, q)
    {
      match s {
        case InVar => root := q;
        case InLeft(a) => if a in cells { cells := cells[a := cells[a].(left := q)]; }
        case InRight(a) => if a in cells { cells := cells[a := cells[a].(right := q)]; }
      }
    }

    // A node for a key, put into an empty place.
    method Plant(s: Slot, k: Val, new0: Addr, ghost path: Path)
      requires s == SlotOf(path) && Holds(Plug(path, Leaf)) && new0 !in cells
      modifies this
      ensures Holds(Plug(path, Node(new0, Leaf, k, Leaf)))
    {
      ghost var cells0, root0 := cells, root;
      RepIn(cells, root, Plug(path, Leaf));
      Focus(cells, root, path, Leaf);
      cells := cells[new0 := TreeCell(k, Null, Null)];
      Store(s, To(new0));
      Refocus(cells0, cells, root0, root, path, Leaf, Node(new0, Leaf, k, Leaf), To(new0), {new0});
    }

    // Taking out the node x, which is in the slot s.
    method Remove(s: Slot, x: Addr, ghost path: Path, ghost t: Tree)
      requires s == SlotOf(path) && t.Node? && t.a == x && Holds(Plug(path, t))
      modifies this
      ensures Holds(Plug(path, DeleteHere(t)))
    {
      ghost var cells0, root0 := cells, root;
      Focus(cells, root, path, t);
      var left, right := cells[x].left, cells[x].right;
      Links(cells, left, t.left);
      Links(cells, right, t.right);
      if left == Null {
        Store(s, right);
        Unlinked(cells0, cells, root0, root, path, t, t.right, right);
      } else if right == Null {
        Store(s, left);
        Unlinked(cells0, cells, root0, root, path, t, t.left, left);
      } else if cells[right.a].left == Null {
        cells := cells[x := TreeCell(cells[right.a].key, left, cells[right.a].right)];
        RightMoved(cells0, root0, path, t, cells);
      } else {
        RemoveLeast(x, right.a, path, t);
      }
    }

    // The least key of the right subtree moves to x, and its node is taken out.
    method RemoveLeast(x: Addr, right: Addr, ghost path: Path, ghost t: Tree)
      requires t.Node? && t.a == x && t.right.Node? && t.right.a == right && t.right.left.Node? && t.left.Node?
      requires Holds(Plug(path, t))
      modifies this
      ensures Holds(Plug(path, Node(x, t.left, MinKey(t.right), DeleteMin(t.right))))
    {
      ghost var cells0, root0 := cells, root;
      ghost var here := Went(path, false, x, t.key, t.left);
      Focus(cells, root, here, t.right);
      ghost var down := Went(here, true, right, t.right.key, t.right.right);
      Focus(cells, root, down, t.right.left);
      var y, z := right, cells[right].left.a;
      ghost var tz := t.right.left;
      while cells[z].left != Null
        invariant down.Went? && down.left && down.a == y && y in cells && cells[y].left == To(z) && z in cells
        invariant tz.Node? && tz.a == z && Plug(down, tz) == Plug(path, t) && MinKey(tz) == MinKey(t.right)
        invariant Plug(down, DeleteMin(tz)) == Plug(path, t.(right := DeleteMin(t.right)))
        invariant cells == cells0 && root == root0
        decreases tz
      {
        Focus(cells, root, down, tz);
        down := Went(down, true, z, tz.key, tz.right);
        y, z := z, cells[z].left.a;
        tz := tz.left;
        Focus(cells, root, down, tz);
      }
      Focus(cells, root, down, tz);
      var least := cells[z].key;
      var rest := cells[z].right;
      cells := cells[y := cells[y].(left := rest)];
      Unlinked(cells0, cells, root0, root, down, tz, tz.right, rest);
      ghost var mid := t.(right := DeleteMin(t.right));
      ghost var cells1 := cells;
      Focus(cells, root, path, mid);
      cells := cells[x := cells[x].(key := least)];
      Rekeyed(cells1, root, path, mid, least, cells);
    }

    // (idx 'var 'any 'flg): whether the key is there; with flg 1 it is inserted, with flg -1 deleted.
    method DoIdx(k: Val, flg: int, new0: Addr, ghost t: Tree) returns (found: bool, ghost t': Tree)
      requires Holds(t) && Ordered(t) && WellNamed(k) && Comparable(half, k, t) && new0 !in cells
      modifies this
      ensures Holds(t') && Ordered(t') && Keys(t') == KeysAfter(Keys(t), k, flg)
      ensures found <==> k in Keys(t)
    {
      hide Rep, Ordered;
      t' := Changed(t, k, flg, new0);
      ChangedKeys(t, k, flg, new0);
      Links(cells, root, t);
      if root == Null {
        if flg > 0 {
          Plant(InVar, k, new0, Top);
        }
        return false, t';
      }
      var p, x := InVar, root.a;
      ghost var path, here: Tree := Top, t;
      while true
        invariant here.Node? && here.a == x && p == SlotOf(path) && Plug(path, here) == t && Holds(t)
        invariant Ordered(here) && Comparable(half, k, here) && (k in Keys(t) <==> k in Keys(here))
        invariant Plug(path, Changed(here, k, flg, new0)) == t' && new0 !in cells
        decreases here
      {
        AtNode(half, cells, root, path, here, k);
        var n := CompareValues(half, k, cells[x].key);
        CompareIsOrder(half, k, here.key);
        SearchSide(here, k);
        if n == 0 {
          if flg < 0 {
            Remove(p, x, path, here);
          }
          return true, t';
        }
        ChangedDown(path, here, k, flg, new0);
        var left := n < 0;
        ghost var next := if left then here.left else here.right;
        path := Went(path, left, x, here.key, if left then here.right else here.left);
        p := if left then InLeft(x) else InRight(x);
        var link := if left then cells[x].left else cells[x].right;
        if link == Null {
          if flg > 0 {
            Plant(p, k, new0, path);
          }
          return false, t';
        }
        here := next;
        x := link.a;
      }
    }

    // The list of all keys, collected from the last one on in front of those in acc.
    method Collect(p: Ptr, ghost t: Tree, acc: seq<Val>) returns (list: seq<Val>)
      requires Rep(cells, p, t)
      ensures list == InOrder(t) + acc
      decreases t
    {
      if p == Null {
        return acc;
      }
      var c := cells[p.a];
      list := Collect(c.right, t.right, acc);
      list := [c.key] + list;
      list := Collect(c.left, t.left, list);
    }

    // (idx 'var)
    method List(ghost t: Tree) returns (list: seq<Val>)
      requires Holds(t) && Ordered(t)
      ensures Ascending(list) && forall x :: x in list <==> x in Keys(t)
    {
      list := Collect(root, t, []);
      assert InOrder(t) + [] == InOrder(t);
      InOrderAscends(t);
    }

    // lup: the entries between two values, in front of those in acc; subtrees without any are skipped.
    method Lup(p: Ptr, lo: Val, hi: Val, ghost t: Tree, acc: seq<Val>) returns (list: seq<Val>)
      requires Rep(cells, p, t) && Ordered(t) && WellNamed(lo) && WellNamed(hi) && EntriesComparable(half, lo, hi, t)
      ensures list == Range(InOrder(t), lo, hi) + acc
      decreases t
    {
      if p == Null {
        return acc;
      }
      var c := cells[p.a];
      RangeOfNode(t, lo, hi);
      if c.key == T {
        SkipAbove(t.right, c.key, lo, hi);
        list := Lup(c.left, lo, hi, t.left, acc);
      } else if !c.key.Cell? {
        SkipBelow(t.left, c.key, lo, hi);
        list := Lup(c.right, lo, hi, t.right, acc);
      } else {
        list := LupEntry(p, lo, hi, t, acc);
      }
    }

    // At an entry.
    method LupEntry(p: Ptr, lo: Val, hi: Val, ghost t: Tree, acc: seq<Val>) returns (list: seq<Val>)
      requires Rep(cells, p, t) && Ordered(t) && WellNamed(lo) && WellNamed(hi) && EntriesComparable(half, lo, hi, t)
      requires t.Node? && t.key.Cell?
      ensures list == Range(InOrder(t), lo, hi) + acc
      decreases t, 0
    {
      Links(cells, p, t);
      EntrySides(half, cells, t, lo, hi);
      hide Ordered, Range, InOrder, Rep, EntriesComparable, WellNamed, Fits, Order, Compare, Between;
      ghost var a, b := Range(InOrder(t.left), lo, hi), Range(InOrder(t.right), lo, hi);
      Glue(a, [t.key], b, acc);
      var c := cells[p.a];
      var above := CompareValues(half, hi, c.key.car);
      var below := CompareValues(half, lo, c.key.car);
      list := acc;
      if above >= 0 {
        list := Lup(c.right, lo, hi, t.right, list);
        if below <= 0 {
          list := [c.key] + list;
          list := Lup(c.left, lo, hi, t.left, list);
        }
      } else if below <= 0 {
        list := Lup(c.left, lo, hi, t.left, list);
      }
    }

    // (lup 'lst 'any 'any2): exactly the entries from lo to hi, in ascending order.
    method DoLup(lo: Val, hi: Val, ghost t: Tree) returns (list: seq<Val>)
      requires Holds(t) && Ordered(t) && WellNamed(lo) && WellNamed(hi) && EntriesComparable(half, lo, hi, t)
      ensures Ascending(list) && forall x :: x in list <==> x in Keys(t) && Between(lo, x, hi)
    {
      list := Lup(root, lo, hi, t, []);
      InOrderAscends(t);
      RangeAscends(InOrder(t), lo, hi);
    }
  }

  // The bounds can be compared with the first parts of all pairs.
  ghost predicate EntriesComparable(half: int, lo: Val, hi: Val, t: Tree) {
    forall x :: x in Keys(t) && x.Cell? ==> Fits(half, lo, x.car) && Fits(half, hi, x.car)
  }

  // What memory shows at a node of the tree.
  lemma {:induction false} AtNode(half: int, cells: Cells, root: Ptr, path: Path, t: Tree, k: Val)
    requires Rep(cells, root, Plug(path, t)) && t.Node? && Ordered(t) && Comparable(half, k, t)
    ensures t.a in cells && cells[t.a].key == t.key && WellNamed(t.key) && Fits(half, k, t.key)
    ensures cells[t.a].left == Null <==> t.left.Leaf?
    ensures cells[t.a].right == Null <==> t.right.Leaf?
    ensures t.left.Node? ==> cells[t.a].left == To(t.left.a)
    ensures t.right.Node? ==> cells[t.a].right == To(t.right.a)
    ensures Ordered(t.left) && Ordered(t.right) && Comparable(half, k, t.left) && Comparable(half, k, t.right)
  {
    Focus(cells, root, path, t);
    Links(cells, cells[t.a].left, t.left);
    Links(cells, cells[t.a].right, t.right);
  }

  lemma {:induction false} Glue(a: seq<Val>, k: seq<Val>, b: seq<Val>, acc: seq<Val>)
    ensures a + (k + (b + acc)) == (a + k + b) + acc && a + acc == (a + [] + []) + acc && b + acc == ([] + [] + b) + acc
    ensures a + (b + acc) == (a + [] + b) + acc
  {
  }

  // What the two comparisons at an entry say about it and about its subtrees.
  lemma {:induction false} EntrySides(half: int, cells: Cells, t: Tree, lo: Val, hi: Val)
    requires t.Node? && t.key.Cell? && Ordered(t) && WellNamed(lo) && WellNamed(hi)
             && EntriesComparable(half, lo, hi, t)
    requires Rep(cells, To(t.a), t)
    ensures WellNamed(t.key.car) && Rep(cells, cells[t.a].left, t.left) && Rep(cells, cells[t.a].right, t.right)
    ensures Ordered(t.left) && Ordered(t.right) && EntriesComparable(half, lo, hi, t.left)
            && EntriesComparable(half, lo, hi, t.right)
    ensures (var above := Compare(half, hi, t.key.car) >= 0; var below := Compare(half, lo, t.key.car) <= 0;
             && (!below ==> Range(InOrder(t.left), lo, hi) == []) && (!above ==> Range(InOrder(t.right), lo, hi) == [])
             && Range(InOrder(t), lo, hi)
                == Range(InOrder(t.left), lo, hi) + (if above && below then [t.key]
                                                     else []) + Range(InOrder(t.right), lo, hi))
  {
    CompareIsOrder(half, hi, t.key.car);
    CompareIsOrder(half, lo, t.key.car);
    RangeOfNode(t, lo, hi);
    if Order(lo, t.key.car) > 0 {
      SkipBelow(t.left, t.key, lo, hi);
    }
    if Order(hi, t.key.car) < 0 {
      SkipAbove(t.right, t.key, lo, hi);
    }
  }

  lemma {:induction false} RangeOfNode(t: Tree, lo: Val, hi: Val)
    requires t.Node?
    ensures Range(InOrder(t), lo, hi)
            == Range(InOrder(t.left), lo, hi) + (if Between(lo, t.key, hi) then [t.key]
                                                 else []) + Range(InOrder(t.right), lo, hi)
  {
    RangeJoin(InOrder(t.left) + [t.key], InOrder(t.right), lo, hi);
    RangeJoin(InOrder(t.left), [t.key], lo, hi);
    assert [t.key][1..] == [];
  }

  lemma {:induction false} RangeAscends(s: seq<Val>, lo: Val, hi: Val)
    requires Ascending(s)
    ensures Ascending(Range(s, lo, hi)) && forall x :: x in Range(s, lo, hi) <==> x in s && Between(lo, x, hi)
  {
    if s != [] {
      assert Ascending(s[1..]);
      RangeAscends(s[1..], lo, hi);
      var r := Range(s[1..], lo, hi);
      forall x | x in r ensures Order(s[0], x) < 0 {
        var j :| 0 <= j < |s[1..]| && s[1..][j] == x;
        assert s[j + 1] == x;
      }
    }
  }

  // A place taken over by one of its node's subtrees.
  lemma {:induction false} Unlinked(cells: Cells, cells': Cells, root: Ptr, root': Ptr, path: Path, t: Tree, t': Tree,
                                    q: Ptr)
    requires Rep(cells, root, Plug(path, t)) && t.Node? && (t' == t.left || t' == t.right) && Rep(cells, q, t')
    requires root' == StoredRoot(root, SlotOf(path), q) && cells' == StoredCells(cells, SlotOf(path), q)
    ensures Rep(cells', root', Plug(path, t'))
  {
    Focus(cells, root, path, t);
    RepSame(cells, cells', q, t');
    Refocus(cells, cells', root, root', path, t, t', q, {});
  }

  // Only the key of a node has changed.
  lemma {:induction false} Rekeyed(cells: Cells, root: Ptr, path: Path, t: Tree, k: Val, cells': Cells)
    requires Rep(cells, root, Plug(path, t)) && t.Node? && t.a in cells && cells' == cells[t.a := cells[t.a].(key := k)]
    ensures Rep(cells', root, Plug(path, t.(key := k)))
  {
    Focus(cells, root, path, t);
    RepSame(cells, cells', cells[t.a].left, t.left);
    RepSame(cells, cells', cells[t.a].right, t.right);
    SameHeld(cells, root, path, To(t.a), t);
    Refocus(cells, cells', root, root, path, t, t.(key := k), To(t.a), {});
  }

  // The right neighbour has no left subtree: its key and its right subtree move up.
  lemma {:induction false} RightMoved(cells: Cells, root: Ptr, path: Path, t: Tree, cells': Cells)
    requires Rep(cells, root, Plug(path, t)) && t.Node? && t.left.Node? && t.right.Node? && t.right.left.Leaf?
    requires t.a in cells && t.right.a in cells
    requires cells' == cells[t.a := TreeCell(cells[t.right.a].key, cells[t.a].left, cells[t.right.a].right)]
    ensures Rep(cells', root, Plug(path, DeleteHere(t)))
  {
    Focus(cells, root, path, t);
    RepSame(cells, cells', cells[t.a].left, t.left);
    RepSame(cells, cells', cells[t.right.a].right, t.right.right);
    SameHeld(cells, root, path, To(t.a), t);
    Refocus(cells, cells', root, root, path, t, DeleteHere(t), To(t.a), {});
  }
}
