/** Immutable JSON values: objects are AVL maps from keys to values, everything
    else is a leaf compared only for equality. */
module Values {
  import opened Common
  import opened Avl

  type Leaf = int

  /** A document with no identity: what a value means. */
  datatype Json = Object(fields: map<Key, Json>) | Atom(leaf: Leaf)

  datatype Kind = Tree(root: Node?<Value>) | Scalar(leaf: Leaf)

  class Value {
    const kind: Kind
    /** Children are built before their parent. */
    ghost const rank: nat

    constructor (kind: Kind, ghost rank: nat)
      ensures this.kind == kind && this.rank == rank
    {
      this.kind, this.rank := kind, rank;
    }
  }

  ghost predicate Sound(v: Value)
    decreases v.rank
  {
    v.kind.Tree? ==>
      && Valid(v.kind.root)
      && forall k :: k in Entries(v.kind.root) ==>
          Entries(v.kind.root)[k].rank < v.rank && Sound(Entries(v.kind.root)[k])
  }

  ghost predicate AllSound(m: map<Key, Value>) {
    forall k :: k in m ==> Sound(m[k])
  }

  ghost predicate Under(m: map<Key, Value>, bound: nat) {
    forall k :: k in m ==> m[k].rank < bound
  }

  /** The document a value stands for. */
  ghost function Doc(v: Value): Json
    requires Sound(v)
    decreases v.rank
  {
    match v.kind
    case Scalar(leaf) => Atom(leaf)
    case Tree(root) => Object(map k | k in Entries(root) :: Doc(Entries(root)[k]))
  }

  ghost function Docs(m: map<Key, Value>): map<Key, Json>
    requires AllSound(m)
  {
    map k | k in m :: Doc(m[k])
  }

  lemma TreeParts(v: Value)
    requires Sound(v) && v.kind.Tree?
    ensures Valid(v.kind.root) && AllSound(Entries(v.kind.root)) && Under(Entries(v.kind.root), v.rank)
    ensures Doc(v) == Object(Docs(Entries(v.kind.root)))
  {
    hide Valid, Entries;
  }

  lemma LeafParts(v: Value)
    requires v.kind.Scalar?
    ensures Sound(v) && Doc(v) == Atom(v.kind.leaf)
  {
  }

  lemma {:induction false} Bounded(m: map<Key, Value>) returns (bound: nat)
    ensures Under(m, bound)
    decreases |m|
  {
    bound := 0;
    if k :| k in m {
      var rest := Bounded(m - {k});
      bound := Max(rest, m[k].rank + 1);
      forall x | x in m
        ensures m[x].rank < bound
      {
        if x != k {
          assert x in m - {k};
        }
      }
    }
  }

  /** An object over a tree of sound values. */
  method MakeObject(root: Node?<Value>) returns (v: Value)
    requires Valid(root) && AllSound(Entries(root))
    ensures fresh(v) && Sound(v) && v.kind == Tree(root) && Doc(v) == Object(Docs(Entries(root)))
  {
    hide Valid, Entries;
    ghost var bound := Bounded(Entries(root));
    v := new Value(Tree(root), bound);
  }

  method MakeLeaf(leaf: Leaf) returns (v: Value)
    ensures fresh(v) && Sound(v) && v.kind == Scalar(leaf) && Doc(v) == Atom(leaf)
  {
    v := new Value(Scalar(leaf), 0);
  }

  // ---- structural equality ----------------------------------------------

  ghost predicate ListSound(s: seq<(Key, Value)>) {
    forall i :: 0 <= i < |s| ==> Sound(s[i].1)
  }

  ghost function DocList(s: seq<(Key, Value)>): seq<(Key, Json)>
    requires ListSound(s)
  {
    seq(|s|, i requires 0 <= i < |s| => (s[i].0, Doc(s[i].1)))
  }

  lemma SoundIn(m: map<Key, Value>, k: Key)
    requires AllSound(m) && k in m
    ensures Sound(m[k])
  {
  }

  lemma ListDocs(s: seq<(Key, Value)>, m: map<Key, Value>)
    requires Lists(s, m) && AllSound(m)
    ensures ListSound(s) && Lists(DocList(s), Docs(m))
  {
    hide Sound, Doc;
    forall i | 0 <= i < |s|
      ensures Sound(s[i].1)
    {
      SoundIn(m, s[i].0);
    }
    var d := DocList(s);
    forall k | k in Docs(m)
      ensures exists i :: 0 <= i < |d| && d[i].0 == k
    {
      var i :| 0 <= i < |s| && s[i].0 == k;
      assert d[i].0 == k;
    }
  }

  lemma Listed<V>(s: seq<(Key, V)>, a: map<Key, V>, b: map<Key, V>)
    requires Lists(s, a) && Lists(s, b)
    ensures forall k :: k in a ==> k in b && a[k] == b[k]
  {
    forall k | k in a
      ensures k in b && a[k] == b[k]
    {
      var i :| 0 <= i < |s| && s[i].0 == k;
    }
  }

  /** A listing determines its map. */
  lemma ListsMap<V>(s: seq<(Key, V)>, a: map<Key, V>, b: map<Key, V>)
    requires Lists(s, a) && Lists(s, b)
    ensures a == b
  {
    hide Lists;
    Listed(s, a, b);
    Listed(s, b, a);
    forall k
      ensures k in a <==> k in b
      ensures k in a ==> a[k] == b[k]
    {
    }
  }

  /** Two trees stand for the same fields exactly when their in-order listings
      read the same. */
  lemma SameListing(a: Node?<Value>, b: Node?<Value>)
    requires Valid(a) && Valid(b) && AllSound(Entries(a)) && AllSound(Entries(b))
    ensures ListSound(InOrder(a)) && ListSound(InOrder(b))
    ensures Docs(Entries(a)) == Docs(Entries(b)) <==> DocList(InOrder(a)) == DocList(InOrder(b))
  {
    hide *;
    InOrderLists(a);
    InOrderLists(b);
    ListDocs(InOrder(a), Entries(a));
    ListDocs(InOrder(b), Entries(b));
    if Docs(Entries(a)) == Docs(Entries(b)) {
      NoPrefix(DocList(InOrder(a)), DocList(InOrder(b)));
      ListsUnique(DocList(InOrder(a)), DocList(InOrder(b)), Docs(Entries(a)), 0);
    }
    if DocList(InOrder(a)) == DocList(InOrder(b)) {
      ListsMap(DocList(InOrder(a)), Docs(Entries(a)), Docs(Entries(b)));
    }
  }

  lemma NoPrefix<T>(a: seq<T>, b: seq<T>)
    ensures a[..0] == b[..0]
  {
  }

  /** Value equality: pointers first, then entry by entry in key order. It is
      exactly equality of documents. */
  method Equal(a: Value, b: Value) returns (same: bool)
    requires Sound(a) && Sound(b)
    ensures same <==> Doc(a) == Doc(b)
    decreases a.rank, 1
  {
    if a == b {
      return true;
    }
    match (a.kind, b.kind) {
      case (Scalar(x), Scalar(y)) =>
        same := x == y;
      case (Tree(x), Tree(y)) =>
        hide *;
        TreeParts(a);
        TreeParts(b);
        same := EqualTrees(x, y, a.rank);
      case _ =>
        same := false;
    }
  }

  method EqualTrees(a: Node?<Value>, b: Node?<Value>, ghost bound: nat) returns (same: bool)
    requires Valid(a) && Valid(b) && AllSound(Entries(a)) && AllSound(Entries(b)) && Under(Entries(a), bound)
    ensures same <==> Docs(Entries(a)) == Docs(Entries(b))
    decreases bound, 0
  {
    hide *;
    if a == b {
      return true;
    }
    ghost var s, t := InOrder(a), InOrder(b);
    InOrderLists(a);
    InOrderLists(b);
    SameListing(a, b);
    ListedUnder(s, Entries(a), bound);
    Lengths(s, t);
    if Size(a) != Size(b) {
      return false;
    }
    var i := new Iter(a);
    var j := new Iter(b);
    ghost var n: nat := 0;
    AgreeNone(s, t);
    while true
      invariant n <= |s| == |t| && fresh(i) && fresh(j) && i != j
      invariant i.Valid() && j.Valid() && i.Remaining() == s[n..] && j.Remaining() == t[n..]
      invariant Agreed(s, t, n)
      decreases |s| - n
    {
      var x := i.Next();
      var y := j.Next();
      if x.None? || y.None? {
        Agree(s, t);
        return x.None? && y.None?;
      }
      assert x.value == s[n] && y.value == t[n];
      UnderAt(s, n, bound);
      if x.value.0 != y.value.0 {
        DifferAt(s, t, n);
        return false;
      }
      SoundAt(s, n);
      SoundAt(t, n);
      var equal := Equal(x.value.1, y.value.1);
      if !equal {
        DifferAt(s, t, n);
        return false;
      }
      AgreeNext(s, t, n);
      n := n + 1;
    }
  }

  /** The first `n` entries of two listings read the same. */
  ghost predicate Agreed(s: seq<(Key, Value)>, t: seq<(Key, Value)>, n: nat)
    requires ListSound(s) && ListSound(t) && n <= |s| && n <= |t|
  {
    forall k :: 0 <= k < n ==> s[k].0 == t[k].0 && Doc(s[k].1) == Doc(t[k].1)
  }

  lemma AgreeNone(s: seq<(Key, Value)>, t: seq<(Key, Value)>)
    requires ListSound(s) && ListSound(t)
    ensures Agreed(s, t, 0)
  {
    hide Sound, Doc;
  }

  lemma AgreeNext(s: seq<(Key, Value)>, t: seq<(Key, Value)>, n: nat)
    requires ListSound(s) && ListSound(t) && n < |s| && n < |t| && Agreed(s, t, n)
    requires s[n].0 == t[n].0 && Doc(s[n].1) == Doc(t[n].1)
    ensures Agreed(s, t, n + 1)
  {
    hide Sound, Doc;
  }

  ghost predicate ListUnder(s: seq<(Key, Value)>, bound: nat) {
    forall i :: 0 <= i < |s| ==> s[i].1.rank < bound
  }

  lemma ListedUnder(s: seq<(Key, Value)>, m: map<Key, Value>, bound: nat)
    requires Lists(s, m) && Under(m, bound)
    ensures ListUnder(s, bound)
  {
  }

  lemma UnderAt(s: seq<(Key, Value)>, i: nat, bound: nat)
    requires ListUnder(s, bound) && i < |s|
    ensures s[i].1.rank < bound
  {
  }

  lemma SoundAt(s: seq<(Key, Value)>, i: nat)
    requires ListSound(s) && i < |s|
    ensures Sound(s[i].1)
  {
  }

  lemma Lengths(s: seq<(Key, Value)>, t: seq<(Key, Value)>)
    requires ListSound(s) && ListSound(t)
    ensures DocList(s) == DocList(t) ==> |s| == |t|
  {
    hide Sound, Doc;
    assert |DocList(s)| == |s| && |DocList(t)| == |t|;
  }

  lemma DifferAt(s: seq<(Key, Value)>, t: seq<(Key, Value)>, n: nat)
    requires ListSound(s) && ListSound(t) && n < |s| && n < |t|
    requires s[n].0 != t[n].0 || Doc(s[n].1) != Doc(t[n].1)
    ensures DocList(s) != DocList(t)
  {
    hide Sound, Doc;
    assert DocList(s)[n] != DocList(t)[n];
  }

  lemma Agree(s: seq<(Key, Value)>, t: seq<(Key, Value)>)
    requires ListSound(s) && ListSound(t) && |s| == |t|
    ensures Agreed(s, t, |s|) ==> DocList(s) == DocList(t)
  {
    hide Sound, Doc;
  }

  // ---- conversion -----------------------------------------------------------

  /** Build a value from a document, one insertion per field. */
  method FromJson(j: Json) returns (v: Value)
    ensures fresh(v) && Sound(v) && Doc(v) == j
    decreases j, 1
  {
    if j.Atom? {
      v := MakeLeaf(j.leaf);
      return;
    }
    hide *;
    var root := BuildTree(j);
    v := MakeObject(root);
  }

  method Pick<T(==)>(s: set<T>) returns (x: T)
    requires s != {}
    ensures x in s
  {
    x :| x in s;
  }

  method BuildTree(j: Json) returns (root: Node?<Value>)
    requires j.Object?
    ensures Valid(root) && AllSound(Entries(root)) && Docs(Entries(root)) == j.fields
    decreases j, 0
  {
    hide *;
    root := null;
    var left := j.fields.Keys;
    Empty();
    Undone(j.fields);
    while left != {}
      invariant Valid(root) && AllSound(Entries(root)) && Docs(Entries(root)) == Less(j.fields, left)
      invariant left <= j.fields.Keys
      decreases |left|
    {
      var key := Pick(left);
      var field := FromJson(j.fields[key]);
      PutDoc(Entries(root), key, field);
      root := Insert(root, key, field);
      OneMore(j.fields, left, key);
      left := left - {key};
    }
  }

  /** The entries of a map that are not left to do. */
  ghost function Less(m: map<Key, Json>, left: set<Key>): map<Key, Json> {
    m - left
  }

  lemma Undone(m: map<Key, Json>)
    ensures Less(m, m.Keys) == map[] && Less(m, {}) == m
  {
  }

  lemma OneMore(m: map<Key, Json>, left: set<Key>, key: Key)
    requires key in left && left <= m.Keys
    ensures Less(m, left - {key}) == Less(m, left)[key := m[key]]
  {
  }

  lemma Empty()
    ensures Valid<Value>(null) && Entries<Value>(null) == map[] && AllSound(map[]) && Docs(map[]) == map[]
  {
  }

  lemma PutDoc(m: map<Key, Value>, key: Key, v: Value)
    requires AllSound(m) && Sound(v)
    ensures AllSound(m[key := v]) && Docs(m[key := v]) == Docs(m)[key := Doc(v)]
  {
    hide Sound, Doc;
  }

  /** Read a value back, entry by entry. */
  method ToJson(v: Value) returns (j: Json)
    requires Sound(v)
    ensures j == Doc(v)
    decreases v.rank, 1
  {
    if v.kind.Scalar? {
      return Atom(v.kind.leaf);
    }
    hide *;
    TreeParts(v);
    var fields := ReadTree(v.kind.root, v.rank);
    j := Object(fields);
  }

  method ReadTree(root: Node?<Value>, ghost bound: nat) returns (fields: map<Key, Json>)
    requires Valid(root) && AllSound(Entries(root)) && Under(Entries(root), bound)
    ensures fields == Docs(Entries(root))
    decreases bound, 0
  {
    hide *;
    InOrderLists(root);
    ghost var s := InOrder(root);
    ListedUnder(s, Entries(root), bound);
    ListDocs(s, Entries(root));
    var iter := new Iter(root);
    fields := map[];
    ghost var n: nat := 0;
    CoversNone(s);
    while true
      invariant n <= |s| && fresh(iter) && iter.Valid() && iter.Remaining() == s[n..]
      invariant Covers(fields, s, n)
      decreases |s| - n
    {
      var next := iter.Next();
      if next.None? {
        break;
      }
      assert next.value == s[n];
      UnderAt(s, n, bound);
      SoundAt(s, n);
      var field := ToJson(next.value.1);
      CoverNext(fields, s, n, field);
      fields := fields[next.value.0 := field];
      n := n + 1;
    }
    AllCovered(fields, s, Entries(root));
  }

  ghost predicate Covers(fields: map<Key, Json>, s: seq<(Key, Value)>, n: nat)
    requires ListSound(s) && n <= |s|
  {
    && (forall i :: 0 <= i < n ==> s[i].0 in fields && fields[s[i].0] == Doc(s[i].1))
    && (forall k :: k in fields ==> exists i :: 0 <= i < n && s[i].0 == k)
  }

  lemma CoversNone(s: seq<(Key, Value)>)
    requires ListSound(s)
    ensures Covers(map[], s, 0)
  {
  }

  lemma CoverNext(fields: map<Key, Json>, s: seq<(Key, Value)>, n: nat, field: Json)
    requires ListSound(s) && n < |s| && Covers(fields, s, n) && field == Doc(s[n].1)
    requires exists m: map<Key, Json> :: Lists(DocList(s), m)
    ensures Covers(fields[s[n].0 := field], s, n + 1)
  {
    hide Sound, Doc;
    var d := DocList(s);
    var m :| Lists(d, m);
    forall i | 0 <= i < n
      ensures s[i].0 != s[n].0
    {
      assert d[i].0 < d[n].0;
    }
    var more := fields[s[n].0 := field];
    forall k | k in more
      ensures exists i :: 0 <= i < n + 1 && s[i].0 == k
    {
      if k == s[n].0 {
        assert s[n].0 == k;
      }
    }
  }

  lemma AllCovered(fields: map<Key, Json>, s: seq<(Key, Value)>, m: map<Key, Value>)
    requires Lists(s, m) && AllSound(m) && ListSound(s) && Covers(fields, s, |s|)
    ensures fields == Docs(m)
  {
    hide Sound, Doc;
    forall k
      ensures k in fields <==> k in m
      ensures k in m ==> fields[k] == Doc(m[k])
    {
      if k in m {
        var i :| 0 <= i < |s| && s[i].0 == k;
      }
    }
  }
}
