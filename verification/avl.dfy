/** Immutable ordered maps with path-copying AVL updates. A node never changes
    once built, so sharing one is sharing a subtree, and identity is reference
    equality. The code sees keys only through comparison. */
module Avl {
  import opened Common

  type Key = int

  class Node<V> {
    const key: Key
    const value: V
    const left: Node?<V>
    const right: Node?<V>
    const height: nat
    const size: nat
    /** Children are built before their parent. */
    ghost const rank: nat

    constructor (key: Key, value: V, left: Node?<V>, right: Node?<V>)
      ensures this.key == key && this.value == value && this.left == left && this.right == right
      ensures height == 1 + Max(Height(left), Height(right))
      ensures size == 1 + Size(left) + Size(right)
      ensures Rank(left) < Rank(this) && Rank(right) < Rank(this)
    {
      this.key, this.value, this.left, this.right := key, value, left, right;
      this.height := 1 + Max(Height(left), Height(right));
      this.size := 1 + Size(left) + Size(right);
      this.rank := Rank(left) + Rank(right);
    }
  }

  function Max(a: nat, b: nat): nat {
    if a < b then b else a
  }

  function Height<V>(n: Node?<V>): nat {
    if n == null then 0 else n.height
  }

  function Size<V>(n: Node?<V>): nat {
    if n == null then 0 else n.size
  }

  ghost function Rank<V>(n: Node?<V>): nat {
    if n == null then 0 else n.rank + 1
  }

  // ---- what a tree means ----------------------------------------------

  /** A tree is finite: every node outranks its children. */
  ghost predicate Finite<V>(n: Node?<V>)
    decreases Rank(n)
  {
    n != null ==>
      && Rank(n.left) < Rank(n) && Rank(n.right) < Rank(n)
      && Finite(n.left) && Finite(n.right)
  }

  /** The map a tree stands for. */
  ghost function Entries<V>(n: Node?<V>): map<Key, V>
    requires Finite(n)
    decreases Rank(n)
  {
    if n == null then map[] else Entries(n.left)[n.key := n.value] + Entries(n.right)
  }

  ghost predicate Below<V>(m: map<Key, V>, key: Key) {
    forall k :: k in m ==> k < key
  }

  ghost predicate Over<V>(m: map<Key, V>, key: Key) {
    forall k :: k in m ==> key < k
  }

  /** Search order and exact caches at every node. */
  ghost predicate Ordered<V>(n: Node?<V>)
    ensures Ordered(n) ==> Finite(n)
    decreases Rank(n)
  {
    n != null ==>
      && Rank(n.left) < Rank(n) && Rank(n.right) < Rank(n)
      && Ordered(n.left) && Ordered(n.right)
      && Below(Entries(n.left), n.key) && Over(Entries(n.right), n.key)
      && n.height == 1 + Max(Height(n.left), Height(n.right))
      && n.size == 1 + Size(n.left) + Size(n.right) == |Entries(n)|
  }

  ghost predicate Even(a: nat, b: nat) {
    a <= b + 1 && b <= a + 1
  }

  /** Sibling heights differ by at most one, at every node. */
  ghost predicate Balanced<V>(n: Node?<V>)
    requires Finite(n)
    decreases Rank(n)
  {
    n != null ==> Even(Height(n.left), Height(n.right)) && Balanced(n.left) && Balanced(n.right)
  }

  /** Everything an AVL tree promises. */
  ghost predicate Valid<V>(n: Node?<V>)
    ensures Valid(n) ==> Ordered(n)
  {
    Ordered(n) && Balanced(n)
  }

  lemma KeysCount<V>(m: map<Key, V>)
    ensures |m| == |m.Keys|
  {
  }

  lemma DisjointUnion<K>(a: set<K>, b: set<K>)
    requires forall k :: k in a ==> k !in b
    ensures |a + b| == |a| + |b|
  {
    assert a !! b;
  }

  lemma MergedKeys<V>(left: map<Key, V>, right: map<Key, V>, key: Key, value: V)
    ensures (left[key := value] + right).Keys == left.Keys + {key} + right.Keys
  {
  }

  lemma NodeSize<V>(left: map<Key, V>, right: map<Key, V>, key: Key, value: V)
    requires Below(left, key) && Over(right, key)
    ensures |left[key := value] + right| == |left| + 1 + |right|
  {
    KeysCount(left);
    KeysCount(right);
    KeysCount(left[key := value] + right);
    MergedKeys(left, right, key, value);
    var a, b := left.Keys + {key}, right.Keys;
    assert |a| == |left.Keys| + 1;
    forall k | k in a
      ensures k !in b
    {
      assert k <= key;
    }
    DisjointUnion(a, b);
  }

  lemma SizeIsCount<V>(n: Node?<V>)
    requires Ordered(n)
    ensures Size(n) == |Entries(n)|
  {
  }

  lemma Parts<V>(n: Node<V>)
    requires Ordered(n)
    ensures Rank(n.left) < Rank(n) && Rank(n.right) < Rank(n)
    ensures Ordered(n.left) && Ordered(n.right)
    ensures Below(Entries(n.left), n.key) && Over(Entries(n.right), n.key)
    ensures Entries(n) == Entries(n.left)[n.key := n.value] + Entries(n.right)
    ensures n.height == 1 + Max(Height(n.left), Height(n.right)) && n.size == |Entries(n)|
    ensures Balanced(n) <==> Even(Height(n.left), Height(n.right)) && Balanced(n.left) && Balanced(n.right)
  {
  }

  // ---- building and rotating ------------------------------------------

  /** A node over two trees that its key separates. */
  method Make<V>(key: Key, value: V, left: Node?<V>, right: Node?<V>) returns (n: Node<V>)
    requires Ordered(left) && Ordered(right)
    requires Below(Entries(left), key) && Over(Entries(right), key)
    ensures fresh(n) && Ordered(n)
    ensures n.key == key && n.value == value && n.left == left && n.right == right
    ensures Entries(n) == Entries(left)[key := value] + Entries(right)
  {
    n := new Node(key, value, left, right);
    SizeIsCount(left);
    SizeIsCount(right);
    NodeSize(Entries(left), Entries(right), key, value);
  }

  /** What both rotations rearrange: `j` and `k` separate three maps. */
  lemma Regroup<V>(j: Node<V>, k: Node<V>, a: map<Key, V>, b: map<Key, V>, c: map<Key, V>)
    requires Below(a, j.key)
    requires (Over(b[k.key := k.value] + c, j.key) && Below(b, k.key))
      || (Below(a[j.key := j.value] + b, k.key) && Over(b, j.key))
    requires Over(c, k.key)
    ensures a[j.key := j.value] + (b[k.key := k.value] + c) == (a[j.key := j.value] + b)[k.key := k.value] + c
    ensures Over(b, j.key) && Below(b, k.key) && Below(a[j.key := j.value] + b, k.key)
    ensures Over(b[k.key := k.value] + c, j.key)
  {
    var right, left := b[k.key := k.value] + c, a[j.key := j.value] + b;
    assert k.key in right && j.key in left;
    assert forall x :: x in b ==> x in right && x in left;
    assert forall x :: x in left ==> x in a || x == j.key || x in b;
    assert forall x :: x in right ==> x in b || x == k.key || x in c;
  }

  method RotateLeft<V>(n: Node<V>) returns (r: Node<V>)
    requires Ordered(n) && n.right != null
    ensures fresh(r) && Ordered(r) && Entries(r) == Entries(n)
    ensures r.right == n.right.right && r.left != null
    ensures r.left.left == n.left && r.left.right == n.right.left
  {
    hide Ordered, Balanced, Entries, Below, Over;
    var x := n.right;
    Parts(n);
    Parts(x);
    Regroup(n, x, Entries(n.left), Entries(x.left), Entries(x.right));
    var l := Make(n.key, n.value, n.left, x.left);
    r := Make(x.key, x.value, l, x.right);
  }

  method RotateRight<V>(n: Node<V>) returns (r: Node<V>)
    requires Ordered(n) && n.left != null
    ensures fresh(r) && Ordered(r) && Entries(r) == Entries(n)
    ensures r.left == n.left.left && r.right != null
    ensures r.right.left == n.left.right && r.right.right == n.right
  {
    hide Ordered, Balanced, Entries, Below, Over;
    var x := n.left;
    Parts(n);
    Parts(x);
    Regroup(x, n, Entries(x.left), Entries(x.right), Entries(n.right));
    var right := Make(n.key, n.value, x.right, n.right);
    r := Make(x.key, x.value, x.left, right);
  }

  /** The left subtree is two higher than the right one. */
  method LeanRight<V>(n: Node<V>) returns (r: Node<V>)
    requires Ordered(n) && Balanced(n.left) && Balanced(n.right)
    requires Height(n.left) == Height(n.right) + 2
    ensures Valid(r) && Entries(r) == Entries(n) && fresh(r)
    ensures n.height - 1 <= r.height <= n.height
  {
    hide Ordered, Balanced, Entries, Below, Over, Finite;
    Parts(n);
    var l := n.left;
    Parts(l);
    if Height(l.right) > Height(l.left) {
      var inner := RotateLeft(l);
      var m := Make(n.key, n.value, inner, n.right);
      r := RotateRight(m);
      DoubleSpun(n, l, l.right, inner, r, r.right);
    } else {
      r := RotateRight(n);
      SingleSpun(n, l, r, r.right);
    }
  }

  lemma SingleSpun<V>(n: Node<V>, l: Node<V>, r: Node<V>, right: Node<V>)
    requires Ordered(n) && Ordered(r) && n.left == l && Height(l.right) <= Height(l.left)
    requires Balanced(l) && Balanced(n.right) && Height(l) == Height(n.right) + 2
    requires r.left == l.left && r.right == right && right.left == l.right && right.right == n.right
    ensures Balanced(r) && n.height - 1 <= r.height <= n.height
  {
    hide Ordered, Balanced, Entries, Below, Over, Finite;
    Parts(n);
    Parts(l);
    Parts(r);
    Parts(right);
  }

  lemma DoubleSpun<V>(n: Node<V>, l: Node<V>, x: Node<V>, inner: Node<V>, r: Node<V>, right: Node<V>)
    requires Ordered(n) && Ordered(r) && n.left == l && l.right == x && Height(x) > Height(l.left)
    requires Balanced(l) && Balanced(n.right) && Height(l) == Height(n.right) + 2
    requires inner.left != null && inner.left.left == l.left && inner.left.right == x.left && inner.right == x.right
    requires r.left == inner.left && r.right == right && right.left == inner.right && right.right == n.right
    ensures Balanced(r) && n.height - 1 <= r.height <= n.height
  {
    hide Ordered, Balanced, Entries, Below, Over, Finite;
    Parts(n);
    Parts(l);
    Parts(x);
    Parts(r);
    Parts(right);
    Parts(inner.left);
  }

  /** The right subtree is two higher than the left one. */
  method LeanLeft<V>(n: Node<V>) returns (r: Node<V>)
    requires Ordered(n) && Balanced(n.left) && Balanced(n.right)
    requires Height(n.right) == Height(n.left) + 2
    ensures Valid(r) && Entries(r) == Entries(n) && fresh(r)
    ensures n.height - 1 <= r.height <= n.height
  {
    hide Ordered, Balanced, Entries, Below, Over, Finite;
    Parts(n);
    var x := n.right;
    Parts(x);
    if Height(x.left) > Height(x.right) {
      var inner := RotateRight(x);
      var m := Make(n.key, n.value, n.left, inner);
      r := RotateLeft(m);
      DoubleSpunLeft(n, x, x.left, inner, r, r.left);
    } else {
      r := RotateLeft(n);
      SingleSpunLeft(n, x, r, r.left);
    }
  }

  lemma SingleSpunLeft<V>(n: Node<V>, x: Node<V>, r: Node<V>, left: Node<V>)
    requires Ordered(n) && Ordered(r) && n.right == x && Height(x.left) <= Height(x.right)
    requires Balanced(x) && Balanced(n.left) && Height(x) == Height(n.left) + 2
    requires r.right == x.right && r.left == left && left.left == n.left && left.right == x.left
    ensures Balanced(r) && n.height - 1 <= r.height <= n.height
  {
    hide Ordered, Balanced, Entries, Below, Over, Finite;
    Parts(n);
    Parts(x);
    Parts(r);
    Parts(left);
  }

  lemma DoubleSpunLeft<V>(n: Node<V>, x: Node<V>, y: Node<V>, inner: Node<V>, r: Node<V>, left: Node<V>)
    requires Ordered(n) && Ordered(r) && n.right == x && x.left == y && Height(y) > Height(x.right)
    requires Balanced(x) && Balanced(n.left) && Height(x) == Height(n.left) + 2
    requires inner.right != null && inner.right.right == x.right && inner.right.left == y.right && inner.left == y.left
    requires r.right == inner.right && r.left == left && left.right == inner.left && left.left == n.left
    ensures Balanced(r) && n.height - 1 <= r.height <= n.height
  {
    hide Ordered, Balanced, Entries, Below, Over, Finite;
    Parts(n);
    Parts(x);
    Parts(y);
    Parts(r);
    Parts(left);
    Parts(inner.right);
  }

  /** Restore balance at the root of a tree whose subtrees are balanced and
      differ in height by at most two. */
  method Balance<V>(n: Node<V>) returns (r: Node<V>)
    requires Ordered(n) && Balanced(n.left) && Balanced(n.right)
    requires Height(n.left) <= Height(n.right) + 2 && Height(n.right) <= Height(n.left) + 2
    ensures Valid(r) && Entries(r) == Entries(n)
    ensures n.height - 1 <= r.height <= n.height
    ensures if Even(Height(n.left), Height(n.right)) then r == n else fresh(r)
  {
    hide Ordered, Balanced, Entries, Below, Over;
    Parts(n);
    r := n;
    if Height(n.left) > Height(n.right) + 1 {
      r := LeanRight(n);
    } else if Height(n.right) > Height(n.left) + 1 {
      r := LeanLeft(n);
    }
  }

  // ---- updates ----------------------------------------------------------

  /** A new root in every case; everything off the search path is shared. */
  method Insert<V>(root: Node?<V>, key: Key, value: V) returns (r: Node<V>)
    requires Valid(root)
    ensures Valid(r) && fresh(r) && Entries(r) == Entries(root)[key := value]
    ensures Height(root) <= r.height <= Height(root) + 1
    decreases Rank(root)
  {
    hide Ordered, Balanced, Entries, Below, Over, Finite;
    if root == null {
      Nothing<V>(key, value);
      r := Make(key, value, null, null);
      Parts(r);
      return;
    }
    var n := root;
    Parts(n);
    if key < n.key {
      var left := Insert(n.left, key, value);
      Deeper(n, Entries(left), Entries(n.right), key, value);
      r := Rebuild(n, left, n.right);
    } else if key > n.key {
      var right := Insert(n.right, key, value);
      Deeper(n, Entries(n.left), Entries(right), key, value);
      r := Rebuild(n, n.left, right);
    } else {
      Replaced(n, key, value);
      r := Make(key, value, n.left, n.right);
      Parts(r);
    }
  }

  /** A node's entry over other subtrees, one of which moved by at most a level. */
  method Rebuild<V>(n: Node<V>, left: Node?<V>, right: Node?<V>) returns (r: Node<V>)
    requires Valid(n) && Valid(left) && Valid(right)
    requires Below(Entries(left), n.key) && Over(Entries(right), n.key)
    requires (left == n.left && Even(Height(right), Height(n.right)))
      || (right == n.right && Even(Height(left), Height(n.left)))
    ensures Valid(r) && fresh(r)
    ensures Entries(r) == Entries(left)[n.key := n.value] + Entries(right)
    ensures Max(Height(left), Height(right)) <= r.height <= 1 + Max(Height(left), Height(right))
    ensures Even(Height(left), Height(right)) ==> r.height == 1 + Max(Height(left), Height(right))
  {
    hide Ordered, Balanced, Entries, Below, Over, Finite;
    Parts(n);
    var m := Make(n.key, n.value, left, right);
    Parts(m);
    r := Balance(m);
  }

  lemma Nothing<V>(key: Key, value: V)
    ensures Ordered<V>(null) && Balanced<V>(null) && Entries<V>(null) == map[] && Below<V>(map[], key)
    ensures Over<V>(map[], key)
    ensures map[][key := value] + map[] == map[][key := value]
  {
  }

  lemma Replaced<V>(n: Node<V>, key: Key, value: V)
    requires Ordered(n) && key == n.key
    ensures Entries(n.left)[key := value] + Entries(n.right) == Entries(n)[key := value]
  {
    hide Ordered, Entries;
    Parts(n);
    PutAt(Entries(n.left), n.value, Entries(n.right), key, value);
  }

  lemma PutAt<V>(l: map<Key, V>, w: V, r: map<Key, V>, key: Key, value: V)
    requires Over(r, key)
    ensures l[key := value] + r == (l[key := w] + r)[key := value]
  {
    assert key !in r;
  }

  lemma Deeper<V>(n: Node<V>, left: map<Key, V>, right: map<Key, V>, key: Key, value: V)
    requires Ordered(n)
    requires (key < n.key && left == Entries(n.left)[key := value] && right == Entries(n.right))
          || (key > n.key && left == Entries(n.left) && right == Entries(n.right)[key := value])
    ensures Below(left, n.key) && Over(right, n.key)
    ensures left[n.key := n.value] + right == Entries(n)[key := value]
  {
    hide Ordered, Entries;
    Parts(n);
    PutBelow(Entries(n.left), n.key, n.value, Entries(n.right), key, value);
  }

  lemma PutBelow<V>(l: map<Key, V>, k: Key, w: V, r: map<Key, V>, key: Key, value: V)
    requires Below(l, k) && Over(r, k)
    ensures key < k ==> Below(l[key := value], k) && l[key := value][k := w] + r == (l[k := w] + r)[key := value]
    ensures key > k ==> Over(r[key := value], k) && l[k := w] + r[key := value] == (l[k := w] + r)[key := value]
  {
    if key < k {
      assert key !in r;
    }
  }

  ghost predicate IsLeast<V>(m: map<Key, V>, key: Key) {
    key in m && forall k :: k in m ==> key <= k
  }

  /** Taking a key out of one side. */
  lemma CutSide<V>(l: map<Key, V>, k: Key, w: V, r: map<Key, V>, key: Key)
    requires Below(l, k) && Over(r, k)
    ensures key < k ==> Below(l - {key}, k) && (l - {key})[k := w] + r == (l[k := w] + r) - {key}
    ensures key > k ==> Over(r - {key}, k) && l[k := w] + (r - {key}) == (l[k := w] + r) - {key}
    ensures key < k ==> (key in l <==> key in l[k := w] + r)
    ensures key > k ==> (key in r <==> key in l[k := w] + r)
  {
    if key < k {
      assert key !in r;
    } else if key > k {
      assert key !in l;
    }
  }

  /** Taking out the separating key itself, its place taken by the least above it. */
  lemma CutMiddle<V>(l: map<Key, V>, k: Key, w: V, r: map<Key, V>)
    requires Below(l, k) && Over(r, k)
    ensures k in l[k := w] + r
    ensures l == map[] ==> r == (l[k := w] + r) - {k}
    ensures r == map[] ==> l == (l[k := w] + r) - {k}
    ensures forall s :: IsLeast(r, s) ==>
      Below(l, s) && Over(r - {s}, s) && l[s := r[s]] + (r - {s}) == (l[k := w] + r) - {k}
  {
    assert k !in l && k !in r;
    forall s | IsLeast(r, s)
      ensures Below(l, s) && Over(r - {s}, s) && l[s := r[s]] + (r - {s}) == (l[k := w] + r) - {k}
    {
      assert k < s;
    }
  }

  lemma LeastSide<V>(l: map<Key, V>, k: Key, w: V, r: map<Key, V>, some: Key)
    requires Below(l, k) && Over(r, k)
    ensures l == map[] ==> IsLeast(l[k := w] + r, k)
    ensures some in l ==> forall s :: IsLeast(l[k := w] + r, s) <==> IsLeast(l, s)
  {
    var all := l[k := w] + r;
    assert k in all;
    if some in l {
      assert forall x :: x in l ==> x in all && x !in r;
      assert some in all;
    }
  }

  lemma OnlyLeast<V>(m: map<Key, V>, a: Key, b: Key)
    requires IsLeast(m, a) && IsLeast(m, b)
    ensures a == b
  {
  }

  lemma HasRoot<V>(n: Node<V>)
    requires Ordered(n)
    ensures n.key in Entries(n) && Entries(n)[n.key] == n.value
  {
    assert n.key !in Entries(n.right);
  }

  /** The leftmost node. */
  method Leftmost<V>(root: Node<V>) returns (n: Node<V>)
    requires Ordered(root)
    ensures IsLeast(Entries(root), n.key) && Entries(root)[n.key] == n.value
  {
    hide Ordered, Balanced, Entries, Below, Over, Finite;
    n := root;
    while n.left != null
      invariant Ordered(n)
      invariant forall s :: IsLeast(Entries(n), s) ==>
        IsLeast(Entries(root), s) && s in Entries(n) && Entries(n)[s] == Entries(root)[s]
      decreases Rank(n)
    {
      LeastBelow(n);
      Parts(n);
      n := n.left;
    }
    LeastHere(n);
  }

  lemma LeastBelow<V>(n: Node<V>)
    requires Ordered(n) && n.left != null
    ensures forall s :: IsLeast(Entries(n.left), s) ==>
      IsLeast(Entries(n), s) && s in Entries(n.left) && Entries(n.left)[s] == Entries(n)[s]
  {
    hide Ordered, Entries;
    Parts(n);
    HasRoot(n.left);
    LeastSide(Entries(n.left), n.key, n.value, Entries(n.right), n.left.key);
    assert forall s :: s in Entries(n.left) ==> s != n.key && s !in Entries(n.right);
  }

  lemma LeastHere<V>(n: Node<V>)
    requires Ordered(n) && n.left == null
    ensures IsLeast(Entries(n), n.key) && n.key in Entries(n) && Entries(n)[n.key] == n.value
    ensures Entries(n.right) == Entries(n) - {n.key}
  {
    hide Ordered;
    Parts(n);
    HasRoot(n);
    LeastSide(Entries(n.left), n.key, n.value, Entries(n.right), n.key);
    CutMiddle(Entries(n.left), n.key, n.value, Entries(n.right));
  }

  method RemoveMin<V>(n: Node<V>, ghost least: Key) returns (r: Node?<V>)
    requires Valid(n) && IsLeast(Entries(n), least)
    ensures Valid(r) && Entries(r) == Entries(n) - {least}
    ensures Height(r) <= n.height <= Height(r) + 1
    decreases Rank(n)
  {
    hide Ordered, Balanced, Entries, Below, Over, Finite, IsLeast;
    Parts(n);
    if n.left == null {
      LeastHere(n);
      OnlyLeast(Entries(n), n.key, least);
      r := n.right;
    } else {
      HasRoot(n.left);
      LeastSide(Entries(n.left), n.key, n.value, Entries(n.right), n.left.key);
      LeastIsBelow(Entries(n.left), n.key, least);
      CutSide(Entries(n.left), n.key, n.value, Entries(n.right), least);
      var left := RemoveMin(n.left, least);
      r := Rebuild(n, left, n.right);
    }
  }

  lemma LeastIsBelow<V>(m: map<Key, V>, key: Key, least: Key)
    requires Below(m, key) && IsLeast(m, least)
    ensures least < key
  {
  }

  /** The tree without a key; the very same tree if the key is absent. */
  method Remove<V>(root: Node?<V>, key: Key) returns (r: Node?<V>, found: bool)
    requires Valid(root)
    ensures found <==> key in Entries(root)
    ensures Valid(r) && Entries(r) == Entries(root) - {key}
    ensures !found ==> r == root
    ensures Height(r) <= Height(root) <= Height(r) + 1
    decreases Rank(root)
  {
    hide Ordered, Balanced, Entries, Below, Over, Finite, IsLeast;
    if root == null {
      NothingToRemove<V>(key);
      return null, false;
    }
    var n := root;
    Parts(n);
    CutSide(Entries(n.left), n.key, n.value, Entries(n.right), key);
    if key < n.key {
      var left;
      left, found := Remove(n.left, key);
      if !found {
        return root, false;
      }
      r := Rebuild(n, left, n.right);
    } else if key > n.key {
      var right;
      right, found := Remove(n.right, key);
      if !found {
        return root, false;
      }
      r := Rebuild(n, n.left, right);
    } else {
      r := RemoveRoot(n);
      HasRoot(n);
      found := true;
    }
  }

  lemma NothingToRemove<V>(key: Key)
    ensures Entries<V>(null) == map[] && Entries<V>(null) - {key} == map[]
  {
  }

  method RemoveRoot<V>(n: Node<V>) returns (r: Node?<V>)
    requires Valid(n)
    ensures Valid(r) && Entries(r) == Entries(n) - {n.key}
    ensures Height(r) <= n.height <= Height(r) + 1
  {
    hide Ordered, Balanced, Entries, Below, Over, Finite, IsLeast;
    Parts(n);
    NothingToRemove<V>(n.key);
    CutMiddle(Entries(n.left), n.key, n.value, Entries(n.right));
    if n.left == null {
      r := n.right;
    } else if n.right == null {
      r := n.left;
    } else {
      var successor := Leftmost(n.right);
      var right := RemoveMin(n.right, successor.key);
      var m := Make(successor.key, successor.value, n.left, right);
      Parts(m);
      r := Balance(m);
    }
  }

  // ---- reading ------------------------------------------------------------

  /** How many nodes lie on the way to a key. */
  ghost function Path<V>(root: Node?<V>, key: Key): (n: nat)
    requires Ordered(root)
    ensures n <= Height(root)
    decreases Rank(root)
  {
    if root == null then 0
    else
      Parts(root);
      1 + if key < root.key then Path(root.left, key) else if key > root.key then Path(root.right, key) else 0
  }

  /** Walk down to a key, one step for each node on the way. */
  method Get<V>(root: Node?<V>, key: Key) returns (r: Option<V>, steps: nat)
    requires Ordered(root)
    ensures r == if key in Entries(root) then Some(Entries(root)[key]) else None
    ensures steps == Path(root, key) <= Height(root)
  {
    hide Ordered, Balanced, Entries, Below, Over, Finite;
    steps := 0;
    var current := root;
    while current != null
      invariant Ordered(current)
      invariant key in Entries(root) <==> key in Entries(current)
      invariant key in Entries(root) ==> Entries(root)[key] == Entries(current)[key]
      invariant steps + Path(current, key) == Path(root, key)
      decreases Rank(current)
    {
      var n := current;
      Parts(n);
      OnlySide(n, key);
      steps := steps + 1;
      if key < n.key {
        current := n.left;
      } else if key > n.key {
        current := n.right;
      } else {
        HasRoot(n);
        return Some(n.value), steps;
      }
    }
    NothingToRemove<V>(key);
    return None, steps;
  }

  lemma OnlySide<V>(n: Node<V>, key: Key)
    requires Ordered(n)
    ensures key < n.key ==> (key in Entries(n) <==> key in Entries(n.left))
    ensures key > n.key ==> (key in Entries(n) <==> key in Entries(n.right))
    ensures key < n.key && key in Entries(n) ==> Entries(n.left)[key] == Entries(n)[key]
    ensures key > n.key && key in Entries(n) ==> Entries(n.right)[key] == Entries(n)[key]
  {
    hide Ordered, Entries;
    Parts(n);
    if key < n.key {
      assert key !in Entries(n.right);
    } else if key > n.key {
      assert key !in Entries(n.left);
    }
  }

  /** The entries in the order an in-order walk meets them. */
  ghost function InOrder<V>(n: Node?<V>): seq<(Key, V)>
    requires Finite(n)
    decreases Rank(n)
  {
    if n == null then [] else InOrder(n.left) + [(n.key, n.value)] + InOrder(n.right)
  }

  /** Ascending keys, each with the map's value, and every key of the map. */
  ghost predicate Lists<V>(s: seq<(Key, V)>, m: map<Key, V>) {
    && (forall i, j :: 0 <= i < j < |s| ==> s[i].0 < s[j].0)
    && (forall i :: 0 <= i < |s| ==> s[i].0 in m && m[s[i].0] == s[i].1)
    && (forall k :: k in m ==> exists i :: 0 <= i < |s| && s[i].0 == k)
  }

  lemma JoinAt<V>(a: seq<(Key, V)>, e: (Key, V), b: seq<(Key, V)>, i: nat)
    requires i < |a + [e] + b|
    ensures (a + [e] + b)[i] == if i < |a| then a[i] else if i == |a| then e else b[i - |a| - 1]
  {
  }

  lemma JoinValue<V>(a: seq<(Key, V)>, l: map<Key, V>, k: Key, w: V, b: seq<(Key, V)>, r: map<Key, V>, i: nat)
    requires Lists(a, l) && Lists(b, r) && Below(l, k) && Over(r, k) && i < |a + [(k, w)] + b|
    ensures
      var s, m := a + [(k, w)] + b, l[k := w] + r;
      && s[i].0 in m && m[s[i].0] == s[i].1
      && (i < |a| ==> s[i] == a[i] && s[i].0 < k) && (i == |a| ==> s[i].0 == k)
      && (i > |a| ==> s[i] == b[i - |a| - 1] && k < s[i].0)
  {
    JoinAt(a, (k, w), b, i);
    if i < |a| {
      assert a[i].0 in l;
      assert a[i].0 < k;
      assert forall x :: x in r ==> k < x;
    } else if i > |a| {
      assert b[i - |a| - 1].0 in r;
    } else {
      assert k !in r;
    }
  }

  lemma JoinCovers<V>(a: seq<(Key, V)>, l: map<Key, V>, k: Key, w: V, b: seq<(Key, V)>, r: map<Key, V>, x: Key)
    returns (i: nat)
    requires Lists(a, l) && Lists(b, r) && x in l[k := w] + r
    ensures i < |a + [(k, w)] + b| && (a + [(k, w)] + b)[i].0 == x
  {
    if x in r {
      var j :| 0 <= j < |b| && b[j].0 == x;
      i := |a| + 1 + j;
    } else if x == k {
      i := |a|;
    } else {
      assert x in l;
      var j :| 0 <= j < |a| && a[j].0 == x;
      i := j;
    }
    hide Lists;
    JoinAt(a, (k, w), b, i);
  }

  lemma ListsJoin<V>(a: seq<(Key, V)>, l: map<Key, V>, k: Key, w: V, b: seq<(Key, V)>, r: map<Key, V>)
    requires Lists(a, l) && Lists(b, r) && Below(l, k) && Over(r, k)
    ensures Lists(a + [(k, w)] + b, l[k := w] + r)
  {
    var s, m := a + [(k, w)] + b, l[k := w] + r;
    forall i, j | 0 <= i < j < |s|
      ensures s[i].0 < s[j].0
    {
      Before(a, l, k, w, b, r, i, j);
    }
    forall i | 0 <= i < |s|
      ensures s[i].0 in m && m[s[i].0] == s[i].1
    {
      hide Lists, Below, Over;
      JoinValue(a, l, k, w, b, r, i);
    }
    forall x | x in m
      ensures exists i :: 0 <= i < |s| && s[i].0 == x
    {
      hide Lists, Below, Over;
      var i := JoinCovers(a, l, k, w, b, r, x);
    }
    ListsFrom(s, m);
  }

  lemma ListsFrom<V>(s: seq<(Key, V)>, m: map<Key, V>)
    requires forall i, j :: 0 <= i < j < |s| ==> s[i].0 < s[j].0
    requires forall i :: 0 <= i < |s| ==> s[i].0 in m && m[s[i].0] == s[i].1
    requires forall k :: k in m ==> exists i :: 0 <= i < |s| && s[i].0 == k
    ensures Lists(s, m)
  {
  }

  lemma Before<V>(a: seq<(Key, V)>, l: map<Key, V>, k: Key, w: V, b: seq<(Key, V)>, r: map<Key, V>, i: nat, j: nat)
    requires Lists(a, l) && Lists(b, r) && Below(l, k) && Over(r, k) && i < j < |a + [(k, w)] + b|
    ensures (a + [(k, w)] + b)[i].0 < (a + [(k, w)] + b)[j].0
  {
    JoinValue(a, l, k, w, b, r, i);
    JoinValue(a, l, k, w, b, r, j);
  }

  /** The in-order walk is the map, in ascending key order, each entry once. */
  lemma {:induction false} InOrderLists<V>(n: Node?<V>)
    requires Ordered(n)
    ensures Lists(InOrder(n), Entries(n)) && |InOrder(n)| == Size(n)
    decreases Rank(n)
  {
    if n != null {
      hide Ordered, Lists, Below, Over;
      Parts(n);
      InOrderLists(n.left);
      InOrderLists(n.right);
      ListsJoin(InOrder(n.left), Entries(n.left), n.key, n.value, InOrder(n.right), Entries(n.right));
      SizeParts(n);
    }
  }

  lemma SizeParts<V>(n: Node<V>)
    requires Ordered(n)
    ensures n.size == 1 + Size(n.left) + Size(n.right)
  {
  }

  /** There is only one such listing of a map. */
  lemma ListsUnique<V>(a: seq<(Key, V)>, b: seq<(Key, V)>, m: map<Key, V>, i: nat)
    requires Lists(a, m) && Lists(b, m) && i <= |a| && i <= |b| && a[..i] == b[..i]
    ensures a == b
    decreases |a| - i
  {
    if i == |a| && i == |b| {
      assert a == a[..i] && b == b[..i];
    } else if i == |a| {
      OutOfPlace(b, a, m, i);
    } else if i == |b| {
      OutOfPlace(a, b, m, i);
    } else {
      if a[i].0 < b[i].0 {
        OutOfPlace(a, b, m, i);
      } else if b[i].0 < a[i].0 {
        OutOfPlace(b, a, m, i);
      }
      assert a[..i + 1] == b[..i + 1];
      ListsUnique(a, b, m, i + 1);
    }
  }

  lemma OutOfPlace<V>(a: seq<(Key, V)>, b: seq<(Key, V)>, m: map<Key, V>, i: nat)
    requires Lists(a, m) && Lists(b, m) && i < |a| && i <= |b| && a[..i] == b[..i]
    ensures i < |b| && b[i].0 <= a[i].0
  {
    hide Lists;
    var j := ListsFind(b, m, ListsKey(a, m, i));
    if j < i {
      assert a[j] == a[..i][j] == b[..i][j] == b[j];
      ListsAscend(a, m, j, i);
      assert false;
    }
    if i < j {
      ListsAscend(b, m, i, j);
    }
  }

  function ListsKey<V>(s: seq<(Key, V)>, m: map<Key, V>, i: nat): (k: Key)
    requires Lists(s, m) && i < |s|
    ensures k in m && k == s[i].0
  {
    s[i].0
  }

  lemma ListsFind<V>(s: seq<(Key, V)>, m: map<Key, V>, k: Key) returns (j: nat)
    requires Lists(s, m) && k in m
    ensures j < |s| && s[j].0 == k
  {
    j :| j < |s| && s[j].0 == k;
  }

  lemma ListsAscend<V>(s: seq<(Key, V)>, m: map<Key, V>, i: nat, j: nat)
    requires Lists(s, m) && i < j < |s|
    ensures s[i].0 < s[j].0
  {
  }

  /** An in-order iterator: the stack holds the nodes still to be handed out,
      each standing for itself and its right subtree. */
  class Iter<V> {
    var stack: seq<Node<V>>

    ghost predicate Valid()
      reads this
    {
      forall i :: 0 <= i < |stack| ==> Ordered(stack[i])
    }

    ghost function Remaining(): seq<(Key, V)>
      requires Valid()
      reads this
    {
      Pending(stack)
    }

    constructor (root: Node?<V>)
      requires Ordered(root)
      ensures Valid() && Remaining() == InOrder(root)
    {
      stack := [];
      new;
      PushLeft(root);
    }

    method PushLeft(root: Node?<V>)
      requires Valid() && Ordered(root)
      modifies this
      ensures Valid() && Remaining() == InOrder(root) + old(Remaining())
    {
      hide Ordered, Finite, InOrder, Pending;
      NothingFirst(root, old(stack));
      var n := root;
      while n != null
        invariant Valid() && Ordered(n)
        invariant Walk(n, stack) == Walk(root, old(stack))
        decreases Rank(n)
      {
        Parts(n);
        Descend(n, stack);
        stack := stack + [n];
        n := n.left;
      }
      NothingFirst(n, stack);
    }

    method Next() returns (r: Option<(Key, V)>)
      requires Valid()
      modifies this
      ensures Valid()
      ensures if old(Remaining()) == [] then r == None && Remaining() == []
        else r == Some(old(Remaining())[0]) && Remaining() == old(Remaining())[1..]
    {
      hide *;
      Standing();
      Top(stack);
      if stack == [] {
        return None;
      }
      var n := stack[|stack| - 1];
      Pop();
      PushLeft(n.right);
      return Some((n.key, n.value));
    }

    lemma Standing()
      requires Valid()
      ensures Remaining() == Pending(stack) && forall i :: 0 <= i < |stack| ==> Ordered(stack[i])
    {
      hide Ordered, Pending;
    }

    method Pop()
      requires Valid() && stack != []
      modifies this
      ensures Valid() && stack == old(stack)[..|old(stack)| - 1] && Remaining() == Pending(stack)
    {
      hide Ordered, Pending;
      stack := stack[..|stack| - 1];
    }
  }

  /** What a stack has still to hand out. */
  ghost function Pending<V>(stack: seq<Node<V>>): seq<(Key, V)>
    requires forall i :: 0 <= i < |stack| ==> Ordered(stack[i])
  {
    if stack == [] then []
    else
      var n := stack[|stack| - 1];
      OrderedFinite(n);
      [(n.key, n.value)] + InOrder(n.right) + Pending(stack[..|stack| - 1])
  }

  /** A subtree still to be descended into, then the stack. */
  ghost function Walk<V>(n: Node?<V>, stack: seq<Node<V>>): seq<(Key, V)>
    requires Ordered(n) && forall i :: 0 <= i < |stack| ==> Ordered(stack[i])
  {
    InOrder(n) + Pending(stack)
  }

  lemma NothingFirst<V>(n: Node?<V>, stack: seq<Node<V>>)
    requires Ordered(n) && forall i :: 0 <= i < |stack| ==> Ordered(stack[i])
    ensures Walk(n, stack) == InOrder(n) + Pending(stack)
    ensures n == null ==> Walk(n, stack) == Pending(stack)
  {
    hide Ordered, Pending;
  }

  lemma Descend<V>(n: Node<V>, stack: seq<Node<V>>)
    requires Ordered(n) && Ordered(n.left) && forall i :: 0 <= i < |stack| ==> Ordered(stack[i])
    ensures forall i :: 0 <= i < |stack + [n]| ==> Ordered((stack + [n])[i])
    ensures Walk(n, stack) == Walk(n.left, stack + [n])
  {
    hide *;
    Pushed(n, stack);
    OrderedFinite(n);
    InOrderStep(n);
    NothingFirst(n, stack);
    NothingFirst(n.left, stack + [n]);
    Regrouped(InOrder(n.left), [(n.key, n.value)], InOrder(n.right), Pending(stack));
  }

  lemma Regrouped<T>(l: seq<T>, e: seq<T>, r: seq<T>, p: seq<T>)
    ensures (l + e + r) + p == l + (e + r + p)
  {
  }

  lemma Pushed<V>(n: Node<V>, stack: seq<Node<V>>)
    requires Ordered(n) && Ordered(n.left) && forall i :: 0 <= i < |stack| ==> Ordered(stack[i])
    ensures forall i :: 0 <= i < |stack + [n]| ==> Ordered((stack + [n])[i])
    ensures Finite(n.right) && Pending(stack + [n]) == [(n.key, n.value)] + InOrder(n.right) + Pending(stack)
  {
    hide *;
    var s := stack + [n];
    PendingStep(s);
    assert s[..|s| - 1] == stack;
  }

  lemma InOrderStep<V>(n: Node<V>)
    requires Finite(n)
    ensures Finite(n.left) && Finite(n.right)
    ensures InOrder(n) == InOrder(n.left) + [(n.key, n.value)] + InOrder(n.right)
  {
  }

  lemma PendingStep<V>(stack: seq<Node<V>>)
    requires stack != [] && forall i :: 0 <= i < |stack| ==> Ordered(stack[i])
    ensures Finite(stack[|stack| - 1].right)
    ensures Pending(stack) ==
      [(stack[|stack| - 1].key, stack[|stack| - 1].value)] + InOrder(stack[|stack| - 1].right) +
      Pending(stack[..|stack| - 1])
  {
    hide Ordered, InOrder;
    OrderedFinite(stack[|stack| - 1]);
  }

  lemma Top<V>(stack: seq<Node<V>>)
    requires forall i :: 0 <= i < |stack| ==> Ordered(stack[i])
    ensures stack == [] <==> Pending(stack) == []
    ensures stack != [] ==>
      var n := stack[|stack| - 1];
      && Ordered(n.right) && Pending(stack)[0] == (n.key, n.value)
      && Pending(stack)[1..] == InOrder(n.right) + Pending(stack[..|stack| - 1])
  {
    hide *;
    if stack == [] {
      PendingNone(stack);
    }
    if stack != [] {
      var n := stack[|stack| - 1];
      Parts(n);
      PendingStep(stack);
      HeadOf((n.key, n.value), InOrder(n.right), Pending(stack[..|stack| - 1]));
    }
  }

  lemma PendingNone<V>(stack: seq<Node<V>>)
    requires stack == []
    ensures Pending(stack) == []
  {
  }

  lemma HeadOf<T>(e: T, r: seq<T>, p: seq<T>)
    ensures ([e] + r + p)[0] == e && ([e] + r + p)[1..] == r + p
  {
  }

  lemma OrderedFinite<V>(n: Node<V>)
    requires Ordered(n)
    ensures Finite(n.left) && Finite(n.right)
  {
  }

  // ---- height -------------------------------------------------------------

  function Fib(n: nat): nat {
    if n < 2 then n else Fib(n - 1) + Fib(n - 2)
  }

  lemma {:induction false} FibGrows(m: nat, n: nat)
    requires m <= n
    ensures Fib(m) <= Fib(n)
    decreases n
  {
    if m < n {
      FibGrows(m, n - 1);
    }
  }

  /** A tree of height h has at least Fib(h + 2) - 1 entries. */
  lemma {:induction false} Populous<V>(n: Node?<V>)
    requires Valid(n)
    ensures Fib(Height(n) + 2) - 1 <= Size(n)
    decreases Rank(n)
  {
    hide Ordered, Finite, Balanced, Entries, Below, Over, Fib;
    if n != null {
      Parts(n);
      SizeParts(n);
      Populous(n.left);
      Populous(n.right);
      FibJoins(Height(n), Height(n.left), Height(n.right));
    } else {
      FibTwo();
    }
  }

  lemma FibTwo()
    ensures Fib(2) == 1
  {
  }

  lemma FibJoins(h: nat, left: nat, right: nat)
    requires h == 1 + Max(left, right) && left <= right + 1 && right <= left + 1
    ensures Fib(h + 2) <= Fib(left + 2) + Fib(right + 2)
  {
    assert Fib(h + 2) == Fib(h + 1) + Fib(h);
    FibGrows(h, if left < right then left + 2 else right + 2);
  }

  function Pow2(n: nat): nat {
    if n == 0 then 1 else 2 * Pow2(n - 1)
  }

  lemma {:induction false} FibDoubles(h: nat)
    ensures Pow2(h / 2) <= Fib(h + 2)
  {
    if h >= 2 {
      FibDoubles(h - 2);
      FibGrows(h, h + 1);
      assert Fib(h + 2) == Fib(h + 1) + Fib(h);
      assert h / 2 == (h - 2) / 2 + 1;
    }
  }

  /** So a lookup takes at most twice the logarithm of the size plus one. */
  lemma LookupIsLogarithmic<V>(n: Node?<V>)
    requires Valid(n)
    ensures Pow2(Height(n) / 2) <= Size(n) + 1
  {
    hide *;
    Populous(n);
    FibDoubles(Height(n));
  }
}
