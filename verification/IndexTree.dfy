/** Index trees as values: what inserting, deleting and listing keys means. */
module IndexTree {
  import opened Ordering

  type Addr = int
  // A node at an address in memory.
  datatype Tree = Leaf | Node(a: Addr, left: Tree, key: Val, right: Tree)

  function Keys(t: Tree): set<Val> {
    if t.Leaf? then {} else Keys(t.left) + {t.key} + Keys(t.right)
  }

  function Addrs(t: Tree): set<Addr> {
    if t.Leaf? then {} else Addrs(t.left) + {t.a} + Addrs(t.right)
  }

  ghost predicate AllBelow(t: Tree, k: Val) {
    forall x :: x in Keys(t) ==> Order(x, k) < 0
  }

  ghost predicate AllAbove(t: Tree, k: Val) {
    forall x :: x in Keys(t) ==> Order(k, x) < 0
  }

  // The keys are strictly ascending from left to right.
  ghost predicate Ordered(t: Tree) {
    t.Node? ==> WellNamed(t.key) && Ordered(t.left) && Ordered(t.right) && AllBelow(t.left, t.key)
                && AllAbove(t.right, t.key)
  }

  lemma {:induction false} KeysNamed(t: Tree)
    requires Ordered(t)
    ensures forall x :: x in Keys(t) ==> WellNamed(x)
  {
    if t.Node? {
      KeysNamed(t.left);
      KeysNamed(t.right);
    }
  }

  // Where the search for k goes on: it is in the part it is sent to, or nowhere.
  lemma {:induction false} SearchSide(t: Tree, k: Val)
    requires Ordered(t) && t.Node? && WellNamed(k)
    ensures Order(k, t.key) < 0 ==> k !in Keys(t.right) && k != t.key
    ensures Order(k, t.key) > 0 ==> k !in Keys(t.left) && k != t.key
    ensures Order(k, t.key) == 0 <==> k == t.key
  {
    ZeroIsSame(k, t.key);
    OrderLaws(k, t.key, k);
    OrderLaws(t.key, k, t.key);
  }

  // ---------- inserting ----------

  function Insert(t: Tree, k: Val, new0: Addr): Tree {
    if t.Leaf? then Node(new0, Leaf, k, Leaf)
    else
      var n := Order(k, t.key);
      if n == 0 then t
      else if n < 0 then t.(left := Insert(t.left, k, new0))
      else t.(right := Insert(t.right, k, new0))
  }

  lemma {:induction false} InsertKeys(t: Tree, k: Val, new0: Addr)
    requires Ordered(t) && WellNamed(k)
    ensures Keys(Insert(t, k, new0)) == Keys(t) + {k} && Ordered(Insert(t, k, new0))
  {
    if t.Node? {
      SearchSide(t, k);
      OrderLaws(k, t.key, k);
      InsertKeys(t.left, k, new0);
      InsertKeys(t.right, k, new0);
    }
  }

  // ---------- deleting ----------

  function MinKey(t: Tree): Val
    requires t.Node?
  {
    if t.left.Leaf? then t.key else MinKey(t.left)
  }

  function DeleteMin(t: Tree): Tree
    requires t.Node?
  {
    if t.left.Leaf? then t.right else t.(left := DeleteMin(t.left))
  }

  // A node with two subtrees gets the least key of the right one.
  function DeleteHere(t: Tree): Tree
    requires t.Node?
  {
    if t.left.Leaf? then t.right
    else if t.right.Leaf? then t.left
    else Node(t.a, t.left, MinKey(t.right), DeleteMin(t.right))
  }

  function Delete(t: Tree, k: Val): Tree {
    if t.Leaf? then t
    else
      var n := Order(k, t.key);
      if n == 0 then DeleteHere(t)
      else if n < 0 then t.(left := Delete(t.left, k))
      else t.(right := Delete(t.right, k))
  }

  lemma {:induction false} DeleteMinKeys(t: Tree)
    requires Ordered(t) && t.Node?
    ensures MinKey(t) in Keys(t) && Keys(DeleteMin(t)) == Keys(t) - {MinKey(t)}
    ensures Ordered(DeleteMin(t)) && AllAbove(DeleteMin(t), MinKey(t)) && WellNamed(MinKey(t))
  {
    OrderLaws(t.key, t.key, t.key);
    if t.left.Leaf? {
      assert t.key !in Keys(t.right);
    } else {
      DeleteMinKeys(t.left);
      var m := MinKey(t.left);
      assert Order(m, t.key) < 0;
      KeysNamed(t);
      assert m != t.key;
      forall x | x in Keys(t.right) ensures Order(m, x) < 0 && m != x {
        OrderLaws(m, t.key, x);
        OrderLaws(m, m, m);
      }
    }
  }

  lemma {:induction false} DeleteHereKeys(t: Tree)
    requires Ordered(t) && t.Node?
    ensures Keys(DeleteHere(t)) == Keys(t) - {t.key} && Ordered(DeleteHere(t))
  {
    OrderLaws(t.key, t.key, t.key);
    assert t.key !in Keys(t.left) && t.key !in Keys(t.right);
    if t.left.Node? && t.right.Node? {
      DeleteMinKeys(t.right);
      var m := MinKey(t.right);
      KeysNamed(t.left);
      forall x | x in Keys(t.left) ensures Order(x, m) < 0 && x != m {
        OrderLaws(x, t.key, m);
        OrderLaws(m, m, m);
      }
      assert Keys(t) == Keys(t.left) + {t.key} + Keys(t.right);
    }
  }

  lemma {:induction false} DeleteKeys(t: Tree, k: Val)
    requires Ordered(t) && WellNamed(k)
    ensures Keys(Delete(t, k)) == Keys(t) - {k} && Ordered(Delete(t, k))
  {
    if t.Node? {
      SearchSide(t, k);
      if Order(k, t.key) == 0 {
        DeleteHereKeys(t);
      } else if Order(k, t.key) < 0 {
        DeleteKeys(t.left, k);
      } else {
        DeleteKeys(t.right, k);
      }
    }
  }

  // ---------- listing ----------

  function InOrder(t: Tree): seq<Val> {
    if t.Leaf? then [] else InOrder(t.left) + [t.key] + InOrder(t.right)
  }

  ghost predicate Ascending(s: seq<Val>) {
    forall i, j :: 0 <= i < j < |s| ==> Order(s[i], s[j]) < 0
  }

  // The list of an index tree is strictly ascending and holds exactly the keys.
  lemma {:induction false} InOrderAscends(t: Tree)
    requires Ordered(t)
    ensures Ascending(InOrder(t)) && forall x :: x in InOrder(t) <==> x in Keys(t)
  {
    if t.Node? {
      InOrderAscends(t.left);
      InOrderAscends(t.right);
      KeysNamed(t);
      AscendJoin(InOrder(t.left), t.key, InOrder(t.right));
    }
  }

  lemma {:induction false} AscendJoin(a: seq<Val>, k: Val, b: seq<Val>)
    requires Ascending(a) && Ascending(b) && WellNamed(k)
    requires forall x :: x in a ==> WellNamed(x) && Order(x, k) < 0
    requires forall x :: x in b ==> WellNamed(x) && Order(k, x) < 0
    ensures Ascending(a + [k] + b)
  {
    var s := a + [k] + b;
    forall i, j | 0 <= i < j < |s| ensures Order(s[i], s[j]) < 0 {
      if i < |a| && j > |a| {
        assert s[i] == a[i] && s[j] == b[j - |a| - 1];
        OrderLaws(s[i], k, s[j]);
      } else if i < |a| && j == |a| {
        assert s[i] == a[i];
      } else if i == |a| {
        assert s[j] == b[j - |a| - 1];
      } else if i > |a| {
        assert s[i] == b[i - |a| - 1] && s[j] == b[j - |a| - 1];
      }
    }
  }

  // ---------- entries ----------

  // In a tree of pairs, the entries whose first part lies between two values.
  predicate Between(lo: Val, x: Val, hi: Val) {
    x.Cell? && Order(hi, x.car) >= 0 && Order(lo, x.car) <= 0
  }

  // Those of a list, in the same order.
  function Range(s: seq<Val>, lo: Val, hi: Val): seq<Val> {
    if s == [] then []
    else if Between(lo, s[0], hi) then [s[0]] + Range(s[1..], lo, hi)
    else Range(s[1..], lo, hi)
  }

  lemma {:induction false} RangeJoin(a: seq<Val>, b: seq<Val>, lo: Val, hi: Val)
    ensures Range(a + b, lo, hi) == Range(a, lo, hi) + Range(b, lo, hi)
  {
    if a == [] {
      assert a + b == b;
    } else {
      assert (a + b)[1..] == a[1..] + b;
      RangeJoin(a[1..], b, lo, hi);
    }
  }

  lemma {:induction false} RangeNone(s: seq<Val>, lo: Val, hi: Val)
    requires forall x :: x in s ==> !Between(lo, x, hi)
    ensures Range(s, lo, hi) == []
  {
    if s != [] {
      RangeNone(s[1..], lo, hi);
    }
  }

  // Pairs that come first have first parts that come first.
  lemma {:induction false} FirstParts(x: Val, y: Val)
    requires x.Cell? && y.Cell? && Order(x, y) < 0
    ensures Order(x.car, y.car) <= 0
  {
  }

  // Below and above a pair, and beside T and the atoms, whole subtrees can be skipped.
  lemma {:induction false} SkipBelow(t: Tree, k: Val, lo: Val, hi: Val)
    requires Ordered(t) && AllBelow(t, k) && WellNamed(k) && WellNamed(lo)
    requires k.Cell? ==> Order(lo, k.car) > 0
    requires !k.T?
    ensures Range(InOrder(t), lo, hi) == []
  {
    InOrderAscends(t);
    KeysNamed(t);
    forall x | x in InOrder(t) ensures !Between(lo, x, hi) {
      if x.Cell? && k.Cell? {
        FirstParts(x, k);
        OrderLaws(lo, x.car, k.car);
      }
    }
    RangeNone(InOrder(t), lo, hi);
  }

  lemma {:induction false} SkipAbove(t: Tree, k: Val, lo: Val, hi: Val)
    requires Ordered(t) && AllAbove(t, k) && WellNamed(k) && WellNamed(hi)
    requires k.T? || (k.Cell? && Order(hi, k.car) < 0)
    ensures Range(InOrder(t), lo, hi) == []
  {
    InOrderAscends(t);
    KeysNamed(t);
    forall x | x in InOrder(t) ensures !Between(lo, x, hi) {
      if x.Cell? && k.Cell? {
        FirstParts(k, x);
        OrderLaws(hi, k.car, x.car);
      }
    }
    RangeNone(InOrder(t), lo, hi);
  }
}
