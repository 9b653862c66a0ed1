/** Validating, applying and merging patches, as the store does it: loops over
    ordered maps, one shared path buffer, and pointers to tell whether anything
    changed. */
module PatchCode {
  import opened Common
  import opened Avl
  import opened Values
  import opened Patches

  datatype Error = InvalidPatch | MergeConflict(path: seq<Key>) | Precondition(path: seq<Key>)

  datatype Result<T> = Ok(value: T) | Err(error: Error)

  /** The keys on the way to where an operation is working. */
  class Path {
    var keys: seq<Key>

    constructor ()
      ensures keys == []
    {
      keys := [];
    }
  }

  // ---- patches over values --------------------------------------------------

  ghost predicate PatchSound(p: Patch<Value>) {
    AllSound(p.create) && forall k :: k in p.update ==> UpdateSound(p.update[k])
  }

  ghost predicate UpdateSound(u: Update<Value>) {
    match u
    case Nested(q) => PatchSound(q)
    case Replace(v) => Sound(v)
  }

  /** What a patch over values says. */
  ghost function View(p: Patch<Value>): Patch<Json>
    requires PatchSound(p)
  {
    Patch(Docs(p.create), map k | k in p.update :: ViewUpdate(p.update[k]), p.delete)
  }

  ghost function ViewUpdate(u: Update<Value>): Update<Json>
    requires UpdateSound(u)
  {
    match u
    case Nested(q) => Nested(View(q))
    case Replace(v) => Replace(Doc(v))
  }

  lemma ViewParts(p: Patch<Value>, k: Key)
    requires PatchSound(p)
    ensures AllSound(p.create) && View(p).create == Docs(p.create) && View(p).delete == p.delete
    ensures (k in p.create <==> k in View(p).create) && (k in p.update <==> k in View(p).update)
    ensures k in p.update ==> UpdateSound(p.update[k]) && View(p).update[k] == ViewUpdate(p.update[k])
  {
  }

  // ---- ordered keys -----------------------------------------------------------

  /** The keys of an ordered map, in order. */
  method InKeyOrder(names: set<Key>) returns (s: seq<Key>)
    ensures Sorted(s) && NoRepeats(s) && forall k :: k in s <==> k in names
  {
    hide *;
    s := [];
    var rest := names;
    NothingListed();
    while rest != {}
      invariant rest <= names && Sorted(s) && NoRepeats(s)
      invariant forall k :: k in s <==> k in names && k !in rest
      decreases |rest|
    {
      var k := Pick(rest);
      InsertSorted(k, s);
      InsertFresh(k, s);
      s := Inserted(k, s);
      rest := rest - {k};
    }
  }

  lemma NothingListed()
    ensures Sorted([]) && NoRepeats([])
  {
  }

  lemma InsertFresh(x: Key, s: seq<Key>)
    requires NoRepeats(s) && x !in s
    ensures NoRepeats(Inserted(x, s)) && forall k :: k in Inserted(x, s) <==> k in s || k == x
  {
    InsertKeeps(x, s);
    RepeatsCounted(s);
    RepeatsCounted(Inserted(x, s));
    hide Inserted, NoRepeats;
    forall k
      ensures k in Inserted(x, s) <==> k in s || k == x
      ensures multiset(Inserted(x, s))[k] <= 1
    {
      assert k in Inserted(x, s) <==> k in multiset(Inserted(x, s));
      assert k in s <==> k in multiset(s);
    }
  }

  /** The entries of `m` under the first `i` keys of a list. */
  ghost function Taken<V>(m: map<Key, V>, ks: seq<Key>, i: nat): map<Key, V>
    requires i <= |ks|
  {
    map k | k in m && k in ks[..i] :: m[k]
  }

  lemma TakenNext<V>(m: map<Key, V>, ks: seq<Key>, i: nat)
    requires i < |ks| && NoRepeats(ks) && forall k :: k in ks <==> k in m
    ensures ks[i] in m && ks[i] !in Taken(m, ks, i)
    ensures Taken(m, ks, i + 1) == Taken(m, ks, i)[ks[i] := m[ks[i]]]
  {
    assert ks[..i + 1] == ks[..i] + [ks[i]];
    var k := ks[i];
    assert k in ks && k in m;
  }

  lemma TakenEnds<V>(m: map<Key, V>, ks: seq<Key>)
    requires forall k :: k in ks <==> k in m
    ensures Taken(m, ks, 0) == map[] && Taken(m, ks, |ks|) == m
  {
    assert ks[..|ks|] == ks;
    forall k
      ensures k in Taken(m, ks, |ks|) <==> k in m
    {
    }
  }

  // ---- validation ---------------------------------------------------------

  /** Each key named once, and no update that replaces a leaf by an object. */
  method Validate(p: Patch<Value>) returns (ok: bool)
    requires PatchSound(p)
    ensures ok <==> WellFormed(View(p))
    decreases p
  {
    hide *;
    var creates := InKeyOrder(p.create.Keys);
    var updates := InKeyOrder(p.update.Keys);
    var chain := creates + updates + p.delete;
    ChainDistinct(p, creates, updates);
    var keys: set<Key> := {};
    KeysNone(chain);
    for i := 0 to |chain|
      invariant KeysOf(chain, i, keys)
    {
      if chain[i] in keys {
        KeysRepeat(chain, i, keys);
        NotValid(p);
        return false;
      }
      KeysNext(chain, i, keys);
      keys := keys + {chain[i]};
    }
    assert NoRepeats(chain) by {
      KeysDone(chain, keys);
    }
    for i := 0 to |updates|
      invariant forall j :: 0 <= j < i ==> UpdateOk(p, updates[j])
    {
      var key := updates[i];
      ViewParts(p, key);
      assert key in updates;
      var good := ValidateUpdate(p.update[key]);
      OneUpdate(p, key);
      if !good {
        return false;
      }
    }
    AllUpdates(p, updates);
    ok := true;
  }

  method ValidateUpdate(u: Update<Value>) returns (ok: bool)
    requires UpdateSound(u)
    ensures ok <==> GoodUpdate(ViewUpdate(u))
    decreases u
  {
    match u {
      case Nested(q) =>
        hide WellFormed, View;
        ok := Validate(q);
      case Replace(v) =>
        ok := v.kind.Scalar?;
    }
  }

  ghost predicate GoodUpdate(u: Update<Json>) {
    match u
    case Nested(q) => WellFormed(q)
    case Replace(v) => v.Atom?
  }

  ghost predicate UpdateOk(p: Patch<Value>, k: Key)
    requires PatchSound(p)
  {
    k in View(p).update && GoodUpdate(View(p).update[k])
  }

  lemma OneUpdate(p: Patch<Value>, k: Key)
    requires PatchSound(p) && k in p.update
    ensures k in View(p).update
    ensures GoodUpdate(View(p).update[k]) <==> UpdateOk(p, k)
    ensures WellFormed(View(p)) ==> UpdateOk(p, k)
  {
    hide View;
    ViewParts(p, k);
  }

  lemma AllUpdates(p: Patch<Value>, updates: seq<Key>)
    requires PatchSound(p) && Distinct(View(p)) && forall k :: k in updates <==> k in p.update
    requires forall j :: 0 <= j < |updates| ==> UpdateOk(p, updates[j])
    ensures WellFormed(View(p))
  {
    forall k | k in View(p).update
      ensures GoodUpdate(View(p).update[k])
    {
      ViewParts(p, k);
      var j :| 0 <= j < |updates| && updates[j] == k;
      assert UpdateOk(p, updates[j]);
    }
  }

  lemma NotValid(p: Patch<Value>)
    requires PatchSound(p) && !Distinct(View(p))
    ensures !WellFormed(View(p))
  {
  }

  /** `keys` holds the first `i` keys of a list, which are all different. */
  ghost predicate KeysOf(s: seq<Key>, i: nat, keys: set<Key>) {
    i <= |s| && NoRepeats(s[..i]) && forall k :: k in keys <==> k in s[..i]
  }

  lemma KeysNone(s: seq<Key>)
    ensures KeysOf(s, 0, {})
  {
  }

  lemma KeysNext(s: seq<Key>, i: nat, keys: set<Key>)
    requires KeysOf(s, i, keys) && i < |s| && s[i] !in keys
    ensures KeysOf(s, i + 1, keys + {s[i]})
  {
    assert s[..i + 1] == s[..i] + [s[i]];
  }

  lemma KeysRepeat(s: seq<Key>, i: nat, keys: set<Key>)
    requires KeysOf(s, i, keys) && i < |s| && s[i] in keys
    ensures !NoRepeats(s)
  {
    var j :| 0 <= j < i && s[..i][j] == s[i];
    assert s[j] == s[i];
  }

  lemma KeysDone(s: seq<Key>, keys: set<Key>)
    requires KeysOf(s, |s|, keys)
    ensures NoRepeats(s)
  {
    assert s[..|s|] == s;
  }

  lemma RepeatsJoin(a: seq<Key>, b: seq<Key>)
    ensures NoRepeats(a + b) <==> NoRepeats(a) && NoRepeats(b) && forall k :: k in a ==> k !in b
  {
    RepeatsCounted(a);
    RepeatsCounted(b);
    RepeatsCounted(a + b);
    hide NoRepeats;
    forall k
      ensures multiset(a + b)[k] == multiset(a)[k] + multiset(b)[k]
      ensures k in a <==> multiset(a)[k] >= 1
      ensures k in b <==> multiset(b)[k] >= 1
    {
    }
  }

  lemma ChainDistinct(p: Patch<Value>, creates: seq<Key>, updates: seq<Key>)
    requires PatchSound(p) && NoRepeats(creates) && NoRepeats(updates)
    requires (forall k :: k in creates <==> k in p.create) && (forall k :: k in updates <==> k in p.update)
    ensures NoRepeats(creates + updates + p.delete) <==> Distinct(View(p))
  {
    RepeatsJoin(creates, updates);
    RepeatsJoin(creates + updates, p.delete);
    hide NoRepeats, View;
    forall k
      ensures k in p.create <==> k in View(p).create
      ensures k in p.update <==> k in View(p).update
      ensures View(p).delete == p.delete
      ensures k in creates + updates <==> k in creates || k in updates
    {
      ViewParts(p, k);
    }
  }

  // ---- applying -------------------------------------------------------------

  ghost predicate Admits(u: Update<Json>, j: Json) {
    match u
    case Nested(q) => Applies(q, j)
    case Replace(_) => j.Atom?
  }

  ghost function Outcome(u: Update<Json>, j: Json): Json
    requires Admits(u, j)
  {
    match u
    case Nested(q) => Applied(q, j)
    case Replace(v) => v
  }

  /** Where an update of the document under a key stops. */
  ghost predicate UpdateFails(u: Update<Json>, j: Json, path: seq<Key>) {
    match u
    case Nested(q) => FailsAt(q, j, path)
    case Replace(_) => j.Object? && path == []
  }

  ghost predicate Creatable(m: map<Key, Value>, p: Patch<Value>) {
    forall k :: k in p.create ==> k !in m
  }

  ghost predicate Updatable(m: map<Key, Value>, p: Patch<Value>)
    requires AllSound(m) && PatchSound(p)
  {
    forall k :: k in p.update ==> k in m && Admits(ViewUpdate(p.update[k]), Doc(m[k]))
  }

  ghost predicate Deletable(m: map<Key, Value>, p: Patch<Value>) {
    forall k :: k in p.delete ==> k in m
  }

  /** What updating yields under each updated key. A value that does not change
      is the same value. */
  ghost predicate Updates(m: map<Key, Value>, p: Patch<Value>, news: map<Key, Value>)
    requires AllSound(m) && PatchSound(p) && Updatable(m, p)
  {
    && news.Keys == p.update.Keys
    && forall k :: k in news ==>
      && Sound(news[k]) && Doc(news[k]) == Outcome(ViewUpdate(p.update[k]), Doc(m[k]))
      && (news[k] == m[k] <==> Doc(news[k]) == Doc(m[k]))
  }

  /** The three loops in order, over the fields of the original. */
  ghost function Final(m: map<Key, Value>, p: Patch<Value>, news: map<Key, Value>): map<Key, Value> {
    (m + p.create + news) - KeySet(p.delete)
  }

  lemma HasFirst(ks: seq<Key>)
    requires ks != []
    ensures exists k :: k in ks
  {
    var k := ks[0];
    assert k in ks;
  }

  lemma BlankKeys<V>(m: map<Key, V>, ks: seq<Key>)
    requires m == map[] && forall k :: k in ks <==> k in m
    ensures ks == []
  {
    if ks != [] {
      HasFirst(ks);
    }
  }

  ghost predicate NoneOf<V>(m: map<Key, V>, ks: seq<Key>, i: nat)
    requires i <= |ks|
  {
    forall j :: 0 <= j < i ==> ks[j] !in m
  }

  lemma NoneNext<V>(m: map<Key, V>, ks: seq<Key>, i: nat)
    requires i < |ks| && NoneOf(m, ks, i) && ks[i] !in m
    ensures NoneOf(m, ks, i + 1)
  {
  }

  lemma NoneStart<V>(m: map<Key, V>, ks: seq<Key>)
    ensures NoneOf(m, ks, 0)
  {
  }

  lemma NoneAll(m: map<Key, Value>, p: Patch<Value>, ks: seq<Key>)
    requires NoneOf(m, ks, |ks|) && forall k :: k in ks <==> k in p.create
    ensures Creatable(m, p)
  {
    forall k | k in p.create
      ensures k !in m
    {
      var j :| 0 <= j < |ks| && ks[j] == k;
    }
  }

  lemma NotCreatable(m: map<Key, Value>, p: Patch<Value>, k: Key)
    requires k in p.create && k in m
    ensures !Creatable(m, p)
  {
  }

  lemma PutTaken<V>(m: map<Key, V>, a: map<Key, V>, k: Key, v: V)
    ensures (m + a)[k := v] == m + a[k := v]
    ensures k !in a ==> (k in m + a <==> k in m)
    ensures k !in a && k in m ==> (m + a)[k] == m[k]
  {
  }

  lemma PutNothing<V>(m: map<Key, V>)
    ensures m + map[] == m
  {
  }

  lemma PopLast<T>(s: seq<T>, x: T)
    ensures (s + [x])[..|s + [x]| - 1] == s
  {
  }

  /** Create: every key must be absent. */
  method CreateAll(p: Patch<Value>, original: Node?<Value>, path: Path) returns (r: Result<Node?<Value>>)
    requires Valid(original) && PatchSound(p)
    modifies path
    ensures r.Ok? <==> Creatable(Entries(original), p)
    ensures r.Ok? ==>
      && Valid(r.value) && Entries(r.value) == Entries(original) + p.create
      && (p.create == map[] ==> r.value == original) && path.keys == old(path.keys)
    ensures r.Err? ==>
      exists k :: k in p.create && k in Entries(original) && r.error == Precondition(old(path.keys) + [k])
  {
    hide *;
    var root := original;
    var keys := InKeyOrder(p.create.Keys);
    TakenEnds(p.create, keys);
    PutNothing(Entries(original));
    NoneStart(Entries(original), keys);
    for i := 0 to |keys|
      invariant Valid(root) && Entries(root) == Entries(original) + Taken(p.create, keys, i)
      invariant i == 0 ==> root == original
      invariant path.keys == old(path.keys)
      invariant NoneOf(Entries(original), keys, i)
    {
      var key := keys[i];
      TakenNext(p.create, keys, i);
      PutTaken(Entries(original), Taken(p.create, keys, i), key, p.create[key]);
      path.keys := path.keys + [key];
      var held, _ := Get(root, key);
      if held.Some? {
        NotCreatable(Entries(original), p, key);
        return Err(Precondition(path.keys));
      }
      NoneNext(Entries(original), keys, i);
      root := Insert(root, key, p.create[key]);
      PopLast(old(path.keys), key);
      path.keys := path.keys[..|path.keys| - 1];
    }
    NoneAll(Entries(original), p, keys);
    if p.create == map[] {
      BlankKeys(p.create, keys);
    }
    r := Ok(root);
  }

  ghost predicate CanUpdate(m: map<Key, Value>, p: Patch<Value>, k: Key)
    requires AllSound(m) && PatchSound(p)
  {
    k in p.update && k in m && Admits(ViewUpdate(p.update[k]), Doc(m[k]))
  }

  /** `next` is the outcome of the update under a key. */
  ghost predicate Updated(m: map<Key, Value>, p: Patch<Value>, k: Key, next: Value)
    requires AllSound(m) && PatchSound(p)
  {
    && CanUpdate(m, p, k)
    && Sound(next) && Doc(next) == Outcome(ViewUpdate(p.update[k]), Doc(m[k]))
    && (next == m[k] <==> Doc(next) == Doc(m[k]))
  }

  ghost predicate UpdatedTo(m: map<Key, Value>, p: Patch<Value>, ks: seq<Key>, i: nat, news: map<Key, Value>)
    requires AllSound(m) && PatchSound(p) && i <= |ks|
  {
    && (forall k :: k in news <==> k in ks[..i])
    && (forall k :: k in news ==> Updated(m, p, k, news[k]))
  }

  ghost predicate Unmoved(m: map<Key, Value>, news: map<Key, Value>) {
    forall k :: k in news ==> k in m && news[k] == m[k]
  }

  lemma UpdatedNext(m: map<Key, Value>, p: Patch<Value>, ks: seq<Key>, i: nat, news: map<Key, Value>, next: Value)
    requires AllSound(m) && PatchSound(p) && i < |ks| && NoRepeats(ks) && forall k :: k in ks <==> k in p.update
    requires UpdatedTo(m, p, ks, i, news) && Updated(m, p, ks[i], next)
    ensures UpdatedTo(m, p, ks, i + 1, news[ks[i] := next])
    ensures Unmoved(m, news[ks[i] := next]) <==> Unmoved(m, news) && next == m[ks[i]]
  {
    hide Updated, Sound, Doc;
    UpdatedFits(m, p, ks[i], next);
    FreshKey(m, p, ks, i, news);
    assert ks[..i + 1] == ks[..i] + [ks[i]];
    var more := news[ks[i] := next];
    forall k
      ensures k in more <==> k in ks[..i + 1]
      ensures k in more ==> Updated(m, p, k, more[k])
    {
    }
    if Unmoved(m, more) {
      assert ks[i] in more && more[ks[i]] == next;
      forall k | k in news
        ensures k in m && news[k] == m[k]
      {
        assert k in more;
      }
    }
  }

  lemma UpdatedFits(m: map<Key, Value>, p: Patch<Value>, k: Key, next: Value)
    requires AllSound(m) && PatchSound(p) && Updated(m, p, k, next)
    ensures k in m && k in p.update
  {
    hide Admits, Outcome;
  }

  lemma FreshKey(m: map<Key, Value>, p: Patch<Value>, ks: seq<Key>, i: nat, news: map<Key, Value>)
    requires AllSound(m) && PatchSound(p) && i < |ks| && NoRepeats(ks) && UpdatedTo(m, p, ks, i, news)
    ensures ks[i] !in news
  {
    hide Updated;
    var k := ks[i];
    assert k !in ks[..i];
  }

  lemma UpdatedNone(m: map<Key, Value>, p: Patch<Value>, ks: seq<Key>)
    requires AllSound(m) && PatchSound(p)
    ensures UpdatedTo(m, p, ks, 0, map[]) && Unmoved(m, map[])
  {
  }

  lemma UpdatedAll(m: map<Key, Value>, p: Patch<Value>, ks: seq<Key>, news: map<Key, Value>)
    requires AllSound(m) && PatchSound(p) && UpdatedTo(m, p, ks, |ks|, news) && forall k :: k in ks <==> k in p.update
    ensures Updatable(m, p) && Updates(m, p, news)
  {
    assert ks[..|ks|] == ks;
    forall k
      ensures k in news <==> k in p.update
      ensures k in p.update ==> Updated(m, p, k, news[k])
    {
    }
    assert news.Keys == p.update.Keys;
  }

  lemma WellFormedUpdate(p: Patch<Value>, k: Key)
    requires PatchSound(p) && WellFormed(View(p)) && k in p.update
    ensures UpdateSound(p.update[k]) && GoodUpdate(ViewUpdate(p.update[k]))
  {
    hide View, WellFormed;
    ViewParts(p, k);
    WellFormedAt(View(p), k);
  }

  /** An update loop stops at a key, or inside what the key holds. */
  ghost predicate UpdateFailsAt(m: map<Key, Value>, p: Patch<Value>, k: Key, path: seq<Key>)
    requires AllSound(m) && PatchSound(p)
  {
    k in p.update && if k in m then UpdateFails(ViewUpdate(p.update[k]), Doc(m[k]), path) else path == []
  }

  lemma UpdateMissing(m: map<Key, Value>, p: Patch<Value>, k: Key)
    requires AllSound(m) && PatchSound(p) && k in p.update && k !in m
    ensures !Updatable(m, p) && UpdateFailsAt(m, p, k, [])
  {
    hide Admits, Doc, ViewUpdate, UpdateFails;
  }

  lemma UpdateStops(m: map<Key, Value>, p: Patch<Value>, k: Key, path: seq<Key>)
    requires AllSound(m) && PatchSound(p) && k in p.update && k in m && Sound(m[k]) && UpdateSound(p.update[k])
    requires !Admits(ViewUpdate(p.update[k]), Doc(m[k])) && UpdateFails(ViewUpdate(p.update[k]), Doc(m[k]), path)
    ensures !Updatable(m, p) && UpdateFailsAt(m, p, k, path)
  {
    hide Admits, Doc, ViewUpdate, UpdateFails, Sound;
  }

  lemma UpdatedBy(m: map<Key, Value>, p: Patch<Value>, k: Key, next: Value)
    requires AllSound(m) && PatchSound(p) && k in p.update && k in m && Sound(m[k]) && UpdateSound(p.update[k])
    requires Sound(next)
    requires Admits(ViewUpdate(p.update[k]), Doc(m[k])) && Doc(next) == Outcome(ViewUpdate(p.update[k]), Doc(m[k]))
    requires next == m[k] <==> Doc(next) == Doc(m[k])
    ensures Updated(m, p, k, next)
  {
    hide Admits, Doc, ViewUpdate, Outcome, Sound;
  }

  lemma Beside<V>(m: map<Key, V>, a: map<Key, V>, k: Key)
    requires k !in a
    ensures k in m + a <==> k in m
    ensures k in m ==> (m + a)[k] == m[k]
  {
  }

  /** Update: every key must be present. A value that comes back unchanged is
      not stored again. */
  method UpdateAll(p: Patch<Value>, original: Node?<Value>, path: Path)
    returns (r: Result<Node?<Value>>, ghost news: map<Key, Value>)
    requires Valid(original) && AllSound(Entries(original)) && PatchSound(p) && WellFormed(View(p))
    modifies path
    ensures r.Ok? <==> Updatable(Entries(original), p)
    ensures r.Ok? ==>
      && Updates(Entries(original), p, news)
      && Valid(r.value) && Entries(r.value) == Entries(original) + news
      && (Unmoved(Entries(original), news) ==> r.value == original) && path.keys == old(path.keys)
    ensures r.Err? ==>
      && r.error.Precondition? && |old(path.keys)| < |r.error.path|
      && r.error.path[..|old(path.keys)|] == old(path.keys)
      && UpdateFailsAt(Entries(original), p, r.error.path[|old(path.keys)|], r.error.path[|old(path.keys)| + 1..])
    decreases p, 0
  {
    hide *;
    var root := original;
    var keys := InKeyOrder(p.update.Keys);
    news := map[];
    ghost var m := Entries(original);
    UpdatedNone(m, p, keys);
    PutNothing(m);
    for i := 0 to |keys|
      invariant Valid(root) && Entries(root) == m + news
      invariant Unmoved(m, news) ==> root == original
      invariant path.keys == old(path.keys)
      invariant UpdatedTo(m, p, keys, i, news)
    {
      var key := keys[i];
      assert key in keys;
      FreshKey(m, p, keys, i, news);
      Beside(m, news, key);
      path.keys := path.keys + [key];
      var held, _ := Get(root, key);
      if held.None? {
        UpdateMissing(m, p, key);
        assert path.keys[|old(path.keys)| + 1..] == [];
        return Err(Precondition(path.keys)), news;
      }
      var current := held.value;
      SoundIn(m, key);
      WellFormedUpdate(p, key);
      var next := ApplyUpdate(p.update[key], current, path);
      if next.Err? {
        UpdateStops(m, p, key, next.error.path[|old(path.keys)| + 1..]);
        return Err(next.error), news;
      }
      UpdatedBy(m, p, key, next.value);
      UpdatedNext(m, p, keys, i, news, next.value);
      PutTaken(m, news, key, next.value);
      SameThere(m, news, key);
      news := news[key := next.value];
      if next.value != current {
        root := Insert(root, key, next.value);
      }
      PopLast(old(path.keys), key);
      path.keys := path.keys[..|path.keys| - 1];
    }
    UpdatedAll(m, p, keys, news);
    r := Ok(root);
  }

  lemma SameThere<V>(m: map<Key, V>, a: map<Key, V>, k: Key)
    requires k in m && k !in a
    ensures m + a[k := m[k]] == m + a
  {
  }

  /** One update of one value. */
  method ApplyUpdate(u: Update<Value>, current: Value, path: Path) returns (r: Result<Value>)
    requires UpdateSound(u) && GoodUpdate(ViewUpdate(u)) && Sound(current)
    modifies path
    ensures r.Ok? <==> Admits(ViewUpdate(u), Doc(current))
    ensures r.Ok? ==>
      && Sound(r.value) && Doc(r.value) == Outcome(ViewUpdate(u), Doc(current))
      && (r.value == current <==> Doc(r.value) == Doc(current)) && path.keys == old(path.keys)
    ensures r.Err? ==>
      && r.error.Precondition? && |old(path.keys)| <= |r.error.path|
      && r.error.path[..|old(path.keys)|] == old(path.keys)
      && UpdateFails(ViewUpdate(u), Doc(current), r.error.path[|old(path.keys)|..])
    decreases u
  {
    match u {
      case Nested(q) =>
        hide View, WellFormed, Applies, FailsAt, Applied, PatchSound, Sound, Doc;
        r := ApplyAt(q, current, path);
      case Replace(child) =>
        if current.kind.Tree? {
          return Err(Precondition(path.keys));
        }
        var same := Equal(child, current);
        r := Ok(if same then current else child);
    }
  }

  ghost function KeySet(s: seq<Key>): set<Key> {
    set k | k in s
  }

  lemma KeySetNext(s: seq<Key>, i: nat)
    requires i < |s| && NoRepeats(s)
    ensures KeySet(s[..i + 1]) == KeySet(s[..i]) + {s[i]} && s[i] !in KeySet(s[..i])
  {
    assert s[..i + 1] == s[..i] + [s[i]];
  }

  lemma KeySetEnds(s: seq<Key>)
    ensures KeySet(s[..0]) == {} && s[..|s|] == s
  {
  }

  lemma CutMore<V>(m: map<Key, V>, gone: set<Key>, k: Key)
    ensures (m - gone) - {k} == m - (gone + {k})
    ensures k !in gone ==> (k in m - gone <==> k in m)
  {
  }

  lemma CutNone<V>(m: map<Key, V>)
    ensures m - {} == m
  {
  }

  lemma NotDeletable(m: map<Key, Value>, p: Patch<Value>, k: Key)
    requires k in p.delete && k !in m
    ensures !Deletable(m, p)
  {
  }

  ghost predicate AllOf<V>(m: map<Key, V>, ks: seq<Key>, i: nat)
    requires i <= |ks|
  {
    forall j :: 0 <= j < i ==> ks[j] in m
  }

  lemma AllNext<V>(m: map<Key, V>, ks: seq<Key>, i: nat)
    requires i < |ks| && AllOf(m, ks, i) && ks[i] in m
    ensures AllOf(m, ks, i + 1)
  {
  }

  lemma AllDone(m: map<Key, Value>, p: Patch<Value>)
    requires AllOf(m, p.delete, |p.delete|)
    ensures Deletable(m, p)
  {
  }

  lemma AllStart<V>(m: map<Key, V>, ks: seq<Key>)
    ensures AllOf(m, ks, 0)
  {
  }

  /** Delete: every key must be present. */
  method DeleteAll(p: Patch<Value>, original: Node?<Value>, path: Path) returns (r: Result<Node?<Value>>)
    requires Valid(original) && NoRepeats(p.delete)
    modifies path
    ensures r.Ok? <==> Deletable(Entries(original), p)
    ensures r.Ok? ==>
      && Valid(r.value) && Entries(r.value) == Entries(original) - KeySet(p.delete)
      && (p.delete == [] ==> r.value == original) && path.keys == old(path.keys)
    ensures r.Err? ==>
      exists k :: k in p.delete && k !in Entries(original) && r.error == Precondition(old(path.keys) + [k])
  {
    hide *;
    var root := original;
    ghost var m := Entries(original);
    KeySetEnds(p.delete);
    CutNone(m);
    AllStart(m, p.delete);
    for i := 0 to |p.delete|
      invariant Valid(root) && Entries(root) == m - KeySet(p.delete[..i])
      invariant i == 0 ==> root == original
      invariant path.keys == old(path.keys)
      invariant AllOf(m, p.delete, i)
    {
      var key := p.delete[i];
      KeySetNext(p.delete, i);
      CutMore(m, KeySet(p.delete[..i]), key);
      path.keys := path.keys + [key];
      var held, _ := Get(root, key);
      if held.None? {
        NotDeletable(m, p, key);
        return Err(Precondition(path.keys));
      }
      AllNext(m, p.delete, i);
      var found;
      root, found := Remove(root, key);
      PopLast(old(path.keys), key);
      path.keys := path.keys[..|path.keys| - 1];
    }
    AllDone(m, p);
    r := Ok(root);
  }

  // ---- the three loops together ------------------------------------------

  lemma LeafFails(p: Patch<Value>, v: Value)
    requires PatchSound(p) && Sound(v) && v.kind.Scalar?
    ensures !Applies(View(p), Doc(v)) && FailsAt(View(p), Doc(v), [])
  {
    hide View, PatchSound;
    LeafParts(v);
  }

  /** The fields of a document under a key. */
  lemma HeldAt(m: map<Key, Value>, k: Key)
    requires AllSound(m)
    ensures At(Object(Docs(m)), k) == if k in m then Some(Doc(m[k])) else None
  {
    hide Doc, Sound;
  }

  lemma CreateStops(p: Patch<Value>, m: map<Key, Value>, k: Key)
    requires PatchSound(p) && AllSound(m) && k in p.create && k in m
    ensures !Applies(View(p), Object(Docs(m))) && FailsAt(View(p), Object(Docs(m)), [k])
  {
    hide View, PatchSound, Docs, Doc, Sound, AllSound, Applies, Allows, At;
    ViewParts(p, k);
    HeldAt(m, k);
    FailureIsReal(View(p), Object(Docs(m)), [k]);
  }

  lemma DeleteStops(p: Patch<Value>, m: map<Key, Value>, k: Key)
    requires PatchSound(p) && AllSound(m) && k in p.delete && k !in m
    ensures !Applies(View(p), Object(Docs(m))) && FailsAt(View(p), Object(Docs(m)), [k])
  {
    hide View, PatchSound, Docs, Doc, Sound, AllSound, Applies, Allows, At;
    ViewParts(p, k);
    HeldAt(m, k);
    FailureIsReal(View(p), Object(Docs(m)), [k]);
  }

  lemma FieldUpdateStops(p: Patch<Value>, m: map<Key, Value>, k: Key, path: seq<Key>)
    requires PatchSound(p) && AllSound(m) && UpdateFailsAt(m, p, k, path)
    ensures !Applies(View(p), Object(Docs(m))) && FailsAt(View(p), Object(Docs(m)), [k] + path)
  {
    hide View, PatchSound, Docs, Doc, Sound, AllSound, Applies, Allows, At;
    ViewParts(p, k);
    HeldAt(m, k);
    assert ([k] + path)[0] == k && ([k] + path)[1..] == path;
    FailureIsReal(View(p), Object(Docs(m)), [k] + path);
  }

  /** Creating leaves the fields to be updated or deleted as they were. */
  lemma Created(m: map<Key, Value>, p: Patch<Value>, k: Key)
    requires PatchSound(p) && WellFormed(View(p)) && AllSound(m)
    ensures AllSound(m + p.create)
    ensures k in p.update || k in p.delete ==> (k in m <==> k in m + p.create) && (k in m ==> (m + p.create)[k] == m[k])
  {
    hide View, Sound, WellFormed;
    ViewParts(p, k);
    WellFormedAt(View(p), k);
  }

  lemma UpdateStopped(m: map<Key, Value>, p: Patch<Value>, k: Key, path: seq<Key>)
    requires PatchSound(p) && WellFormed(View(p)) && AllSound(m) && AllSound(m + p.create)
    requires UpdateFailsAt(m + p.create, p, k, path)
    ensures !Applies(View(p), Object(Docs(m))) && FailsAt(View(p), Object(Docs(m)), [k] + path)
  {
    UpdateFailsBelow(m, p, k, path);
    hide *;
    FieldUpdateStops(p, m, k, path);
  }

  lemma UpdateFailsBelow(m: map<Key, Value>, p: Patch<Value>, k: Key, path: seq<Key>)
    requires PatchSound(p) && WellFormed(View(p)) && AllSound(m) && AllSound(m + p.create)
    requires UpdateFailsAt(m + p.create, p, k, path)
    ensures UpdateFailsAt(m, p, k, path)
  {
    hide View, PatchSound, Docs, Doc, Sound, AllSound, WellFormed, UpdateFails, ViewUpdate;
    Created(m, p, k);
    if k in m {
      SoundIn(m, k);
    }
  }

  /** Everything the three loops found. */
  ghost predicate Ran(m: map<Key, Value>, p: Patch<Value>, news: map<Key, Value>) {
    && PatchSound(p) && WellFormed(View(p)) && AllSound(m) && AllSound(m + p.create)
    && Creatable(m, p) && Updatable(m + p.create, p) && Updates(m + p.create, p, news)
    && Deletable(m + p.create + news, p)
  }

  /** One key after the three loops. */
  lemma RanAt(m: map<Key, Value>, p: Patch<Value>, news: map<Key, Value>, k: Key)
    requires Ran(m, p, news)
    ensures
      var held := At(Object(Docs(m)), k);
      var f := Final(m, p, news);
      && Allows(View(p), k, held)
      && (k in f ==> Sound(f[k]))
      && After(View(p), k, held) == (if k in f then Some(Doc(f[k])) else None)
      && ((k in m <==> k in f) && (k in m ==> Doc(m[k]) == Doc(f[k])) ==>
            k !in p.create && k !in p.delete && (k in m ==> f[k] == m[k]) && (k in news ==> news[k] == m[k]))
  {
    hide View, PatchSound, Doc, Docs, Sound, AllSound, WellFormed, Applies, Applied, At, ViewUpdate;
    ViewParts(p, k);
    WellFormedAt(View(p), k);
    Created(m, p, k);
    HeldAt(m, k);
    if k in m {
      SoundIn(m, k);
    }
    if k in p.create {
      ViewCreate(p, k);
    }
  }

  lemma ViewCreate(p: Patch<Value>, k: Key)
    requires PatchSound(p) && k in p.create
    ensures Sound(p.create[k]) && k in View(p).create && View(p).create[k] == Doc(p.create[k])
  {
    hide Doc, Sound;
  }

  lemma RanSound(m: map<Key, Value>, p: Patch<Value>, news: map<Key, Value>)
    requires Ran(m, p, news)
    ensures AllSound(Final(m, p, news))
  {
    var f := Final(m, p, news);
    forall k | k in f
      ensures Sound(f[k])
    {
      hide *;
      RanAt(m, p, news, k);
    }
  }

  /** The three loops do what the patch means. */
  lemma RanMeans(m: map<Key, Value>, p: Patch<Value>, news: map<Key, Value>)
    requires Ran(m, p, news) && PatchSound(p) && AllSound(m) && AllSound(Final(m, p, news))
    ensures Applies(View(p), Object(Docs(m))) && Applied(View(p), Object(Docs(m))) == Object(Docs(Final(m, p, news)))
  {
    hide Ran, PatchSound, View, AllSound, Sound, Doc, Docs, Final, Allows, After, Applied, At;
    var j, f := Object(Docs(m)), Final(m, p, news);
    forall k
      ensures Allows(View(p), k, At(j, k))
    {
      RanAt(m, p, news, k);
    }
    assert Applies(View(p), j);
    hide Applies;
    forall k
      ensures At(Applied(View(p), j), k) == At(Object(Docs(f)), k)
    {
      RanAt(m, p, news, k);
      AppliedAt(View(p), j, k);
      HeldAt(f, k);
    }
    AppliedAt(View(p), j, 0);
    SameObject(Applied(View(p), j), Object(Docs(f)));
  }

  /** And they change nothing when the patch changes nothing. */
  lemma RanSame(m: map<Key, Value>, p: Patch<Value>, news: map<Key, Value>)
    requires Ran(m, p, news) && PatchSound(p) && AllSound(m) && AllSound(Final(m, p, news))
    requires Docs(Final(m, p, news)) == Docs(m)
    ensures p.create == map[] && p.delete == [] && Unmoved(m + p.create, news)
  {
    hide Ran, PatchSound, View, AllSound, Sound, Doc, Docs, Final, Allows, After, Applied, At;
    var f := Final(m, p, news);
    forall k
      ensures k !in p.create && k !in p.delete && (k in news ==> k in m && news[k] == m[k])
    {
      HeldAt(m, k);
      HeldAt(f, k);
      if k in m {
        SoundIn(m, k);
      }
      if k in f {
        SoundIn(f, k);
      }
      RanAt(m, p, news, k);
      if k in news {
        NewsAt(m, p, news, k);
      }
    }
    if p.delete != [] {
      HasFirst(p.delete);
    }
  }

  lemma NewsAt(m: map<Key, Value>, p: Patch<Value>, news: map<Key, Value>, k: Key)
    requires Ran(m, p, news) && k in news
    ensures k in m
  {
    hide View, PatchSound, Doc, Docs, Sound, AllSound, WellFormed, ViewUpdate, Admits, Outcome;
    assert k in p.update;
    Created(m, p, k);
  }

  lemma NoRepeatDeletes(p: Patch<Value>)
    requires PatchSound(p) && WellFormed(View(p))
    ensures NoRepeats(p.delete)
  {
    hide View, WellFormed, NoRepeats;
    ViewParts(p, 0);
    WellFormedAt(View(p), 0);
  }

  lemma DeleteStopped(p: Patch<Value>, m: map<Key, Value>, k: Key, news: map<Key, Value>)
    requires PatchSound(p) && WellFormed(View(p)) && AllSound(m) && k in p.delete && k !in m + p.create + news
    ensures !Applies(View(p), Object(Docs(m))) && FailsAt(View(p), Object(Docs(m)), [k])
  {
    hide *;
    assert k !in m;
    DeleteStops(p, m, k);
  }

  lemma AllRan(m: map<Key, Value>, p: Patch<Value>, news: map<Key, Value>)
    requires PatchSound(p) && WellFormed(View(p)) && AllSound(m) && AllSound(m + p.create)
    requires Creatable(m, p) && Updatable(m + p.create, p) && Updates(m + p.create, p, news)
    requires Deletable(m + p.create + news, p)
    ensures Ran(m, p, news)
    ensures Final(m, p, news) == (m + p.create + news) - KeySet(p.delete)
  {
    hide View, WellFormed, AllSound, PatchSound, Updatable, Updates, Creatable, Deletable;
  }

  /** Apply a well-formed patch below a path. It succeeds exactly when the patch
      applies, and returns the very same value exactly when nothing changes. */
  method ApplyAt(p: Patch<Value>, v: Value, path: Path) returns (r: Result<Value>)
    requires PatchSound(p) && WellFormed(View(p)) && Sound(v)
    modifies path
    ensures r.Ok? <==> Applies(View(p), Doc(v))
    ensures r.Ok? ==>
      && Sound(r.value) && Doc(r.value) == Applied(View(p), Doc(v))
      && (r.value == v <==> Doc(r.value) == Doc(v)) && path.keys == old(path.keys)
    ensures r.Err? ==>
      && r.error.Precondition? && |old(path.keys)| <= |r.error.path|
      && r.error.path[..|old(path.keys)|] == old(path.keys)
      && FailsAt(View(p), Doc(v), r.error.path[|old(path.keys)|..])
    decreases p, 1
  {
    hide *;
    if v.kind.Scalar? {
      LeafFails(p, v);
      assert path.keys[|path.keys|..] == [];
      return Err(Precondition(path.keys));
    }
    var original := v.kind.root;
    TreeParts(v);
    ghost var m := Entries(original);
    ghost var n := |path.keys|;
    var created := CreateAll(p, original, path);
    if created.Err? {
      ghost var k :| k in p.create && k in m && created.error == Precondition(old(path.keys) + [k]);
      CreateStops(p, m, k);
      return Err(created.error);
    }
    Created(m, p, 0);
    var updated, news := UpdateAll(p, created.value, path);
    if updated.Err? {
      UpdateStopped(m, p, updated.error.path[n], updated.error.path[n + 1..]);
      assert updated.error.path[n..] == [updated.error.path[n]] + updated.error.path[n + 1..];
      return Err(updated.error);
    }
    NoRepeatDeletes(p);
    var deleted := DeleteAll(p, updated.value, path);
    if deleted.Err? {
      ghost var k :| k in p.delete && k !in m + p.create + news && deleted.error == Precondition(old(path.keys) + [k]);
      DeleteStopped(p, m, k, news);
      return Err(deleted.error);
    }
    AllRan(m, p, news);
    RanSound(m, p, news);
    RanMeans(m, p, news);
    ghost var f := Final(m, p, news);
    if Docs(f) == Docs(m) {
      RanSame(m, p, news);
    }
    if deleted.value == original {
      r := Ok(v);
    } else {
      var out := MakeObject(deleted.value);
      r := Ok(out);
    }
  }

  /** Apply a patch to a value, which is left as it was. */
  method Apply(p: Patch<Value>, v: Value) returns (r: Result<Value>)
    requires PatchSound(p) && Sound(v)
    ensures r.Ok? <==> WellFormed(View(p)) && Applies(View(p), Doc(v))
    ensures r.Ok? ==>
      && Sound(r.value) && Doc(r.value) == Applied(View(p), Doc(v)) && (r.value == v <==> Doc(r.value) == Doc(v))
    ensures r.Err? ==>
      match r.error
      case InvalidPatch => !WellFormed(View(p))
      case Precondition(path) => WellFormed(View(p)) && FailsAt(View(p), Doc(v), path)
      case MergeConflict(_) => false
  {
    hide *;
    var ok := Validate(p);
    if !ok {
      return Err(InvalidPatch);
    }
    var path := new Path();
    r := ApplyAt(p, v, path);
    if r.Err? {
      assert r.error.path[0..] == r.error.path;
    }
  }

  // ---- merging --------------------------------------------------------------

  /** The keys a merge has looked at: each one both patches touch is nested in
      both, and already joined in `update`. */
  ghost predicate JoinedTo<V>(a: Patch<V>, b: Patch<V>, update: map<Key, Update<V>>, done: seq<Key>) {
    && (forall k :: k in update <==> k in a.update || k in b.update)
    && (forall k :: k in done && Touches(a, k) ==>
        SharedNests(a, b, k) && Mergeable(a.update[k].patch, b.update[k].patch))
    && (forall k :: k in update && k in done && Touches(a, k) ==>
        update[k] == Nested(Merged(a.update[k].patch, b.update[k].patch)))
    && (forall k :: k in update && !(k in done && Touches(a, k)) ==> update[k] == (a.update + b.update)[k])
  }

  lemma JoinNext<V>(a: Patch<V>, b: Patch<V>, update: map<Key, Update<V>>, done: seq<Key>, k: Key)
    requires JoinedTo(a, b, update, done)
    ensures !Touches(a, k) ==> JoinedTo(a, b, update, done + [k])
    ensures Touches(a, k) && SharedNests(a, b, k) && Mergeable(a.update[k].patch, b.update[k].patch) ==>
      JoinedTo(a, b, update[k := Nested(Merged(a.update[k].patch, b.update[k].patch))], done + [k])
  {
    hide Mergeable, Merged;
  }

  lemma JoinNone<V>(a: Patch<V>, b: Patch<V>)
    ensures JoinedTo(a, b, a.update + b.update, [])
  {
  }

  lemma JoinDone<V>(a: Patch<V>, b: Patch<V>, update: map<Key, Update<V>>, done: seq<Key>)
    requires JoinedTo(a, b, update, done) && !Blank(a) && !Blank(b) && forall k :: k in done <==> Touches(b, k)
    ensures Mergeable(a, b) && Merged(a, b) == Patch(a.create + b.create, update, Sort(a.delete + b.delete))
  {
    forall k | Touches(a, k) && Touches(b, k)
      ensures SharedNests(a, b, k) && Mergeable(a.update[k].patch, b.update[k].patch)
    {
    }
    var m := Merged(a, b);
    forall k
      ensures k in m.update <==> k in update
      ensures k in m.update ==> m.update[k] == update[k]
    {
    }
    SamePatch(m, Patch(a.create + b.create, update, Sort(a.delete + b.delete)));
  }

  lemma Collides<V>(a: Patch<V>, b: Patch<V>, k: Key)
    requires Touches(a, k) && Touches(b, k) && !SharedNests(a, b, k)
    ensures !Mergeable(a, b) && ConflictAt(a, b, [k])
  {
    assert ConflictAt(a, b, [k]);
    ConflictIsReal(a, b, [k]);
  }

  lemma CollidesBelow<V>(a: Patch<V>, b: Patch<V>, k: Key, path: seq<Key>)
    requires Touches(a, k) && Touches(b, k) && SharedNests(a, b, k)
    requires ConflictAt(a.update[k].patch, b.update[k].patch, path)
    ensures !Mergeable(a, b) && ConflictAt(a, b, [k] + path)
  {
    assert ([k] + path)[1..] == path;
    ConflictIsReal(a, b, [k] + path);
  }

  lemma ChainKeys<V>(b: Patch<V>, creates: seq<Key>, updates: seq<Key>, k: Key)
    requires (forall k :: k in creates <==> k in b.create) && (forall k :: k in updates <==> k in b.update)
    ensures k in creates + updates + b.delete <==> Touches(b, k)
  {
  }

  /** Combine two patches key by key; a key both touch must be nested in both. */
  method MergeAt<V>(a: Patch<V>, b: Patch<V>, path: Path) returns (r: Result<Patch<V>>)
    modifies path
    ensures r.Ok? <==> Mergeable(a, b)
    ensures r.Ok? ==> r.value == Merged(a, b) && path.keys == old(path.keys)
    ensures r.Err? ==>
      && r.error.MergeConflict? && |old(path.keys)| <= |r.error.path|
      && r.error.path[..|old(path.keys)|] == old(path.keys)
      && ConflictAt(a, b, r.error.path[|old(path.keys)|..])
    decreases a, 1
  {
    if Blank(a) {
      return Ok(b);
    }
    if Blank(b) {
      return Ok(a);
    }
    hide *;
    var creates := InKeyOrder(b.create.Keys);
    var updates := InKeyOrder(b.update.Keys);
    var chain := creates + updates + b.delete;
    forall k
      ensures k in chain <==> Touches(b, k)
    {
      ChainKeys(b, creates, updates, k);
    }
    var update := a.update + b.update;
    JoinNone(a, b);
    for i := 0 to |chain|
      invariant path.keys == old(path.keys)
      invariant JoinedTo(a, b, update, chain[..i])
    {
      var key := chain[i];
      Member(chain, i);
      JoinNext(a, b, update, chain[..i], key);
      var touched := IsTouched(a, key);
      if touched {
        var joined := MergeKey(a, b, key, path);
        if joined.Err? {
          return Err(joined.error);
        }
        update := update[key := Nested(joined.value)];
      }
    }
    assert chain[..|chain|] == chain;
    JoinDone(a, b, update, chain);
    r := Ok(Patch(a.create + b.create, update, Sort(a.delete + b.delete)));
  }

  lemma Member(s: seq<Key>, i: nat)
    requires i < |s|
    ensures s[i] in s && s[..i + 1] == s[..i] + [s[i]]
  {
  }

  /** Merge what two patches do under one key they share. */
  method MergeKey<V>(a: Patch<V>, b: Patch<V>, key: Key, path: Path) returns (r: Result<Patch<V>>)
    requires Touches(a, key) && Touches(b, key)
    modifies path
    ensures r.Ok? ==> SharedNests(a, b, key) && Mergeable(a.update[key].patch, b.update[key].patch)
    ensures r.Ok? ==> r.value == Merged(a.update[key].patch, b.update[key].patch) && path.keys == old(path.keys)
    ensures r.Err? ==>
      && !Mergeable(a, b)
      && r.error.MergeConflict? && |old(path.keys)| <= |r.error.path|
      && r.error.path[..|old(path.keys)|] == old(path.keys)
      && ConflictAt(a, b, r.error.path[|old(path.keys)|..])
    decreases a, 0
  {
    hide *;
    path.keys := path.keys + [key];
    var shared := AreNested(a, b, key);
    if !shared {
      Collides(a, b, key);
      assert path.keys[|old(path.keys)|..] == [key];
      return Err(MergeConflict(path.keys));
    }
    Sides(a, b, key);
    r := MergeAt(a.update[key].patch, b.update[key].patch, path);
    if r.Err? {
      ghost var rest := r.error.path[|old(path.keys)| + 1..];
      CollidesBelow(a, b, key, rest);
      assert r.error.path[|old(path.keys)|..] == [key] + rest;
      return;
    }
    PopLast(old(path.keys), key);
    path.keys := path.keys[..|path.keys| - 1];
  }

  method IsTouched<V>(p: Patch<V>, k: Key) returns (yes: bool)
    ensures yes <==> Touches(p, k)
  {
    yes := k in p.create || k in p.update || k in p.delete;
  }

  method AreNested<V>(a: Patch<V>, b: Patch<V>, k: Key) returns (yes: bool)
    ensures yes <==> SharedNests(a, b, k)
  {
    yes := k in a.update && k in b.update && a.update[k].Nested? && b.update[k].Nested?;
  }

  lemma Sides<V>(a: Patch<V>, b: Patch<V>, k: Key)
    requires SharedNests(a, b, k)
    ensures k in a.update && k in b.update && a.update[k].Nested? && b.update[k].Nested?
  {
  }

  /** Merge two patches, each validated first. */
  method Merge(a: Patch<Value>, b: Patch<Value>) returns (r: Result<Patch<Value>>)
    requires PatchSound(a) && PatchSound(b)
    ensures r.Ok? <==> WellFormed(View(a)) && WellFormed(View(b)) && Mergeable(a, b)
    ensures r.Ok? ==> r.value == Merged(a, b)
    ensures r.Err? ==>
      match r.error
      case InvalidPatch => !WellFormed(View(a)) || !WellFormed(View(b))
      case MergeConflict(path) => ConflictAt(a, b, path)
      case Precondition(_) => false
  {
    hide *;
    var good := Validate(a);
    if !good {
      return Err(InvalidPatch);
    }
    good := Validate(b);
    if !good {
      return Err(InvalidPatch);
    }
    var path := new Path();
    r := MergeAt(a, b, path);
    if r.Err? {
      assert r.error.path[0..] == r.error.path;
    }
  }

  lemma ViewBlank(p: Patch<Value>)
    requires PatchSound(p)
    ensures Blank(View(p)) <==> Blank(p)
  {
    forall k
      ensures k in p.create <==> k in View(p).create
      ensures k in p.update <==> k in View(p).update
    {
    }
    SameDomains(p.create, View(p).create);
    SameDomains(p.update, View(p).update);
  }

  lemma SameDomains<V, W>(m: map<Key, V>, n: map<Key, W>)
    requires forall k :: k in m <==> k in n
    ensures m == map[] <==> n == map[]
  {
    if m == map[] {
      forall k
        ensures k !in n
      {
      }
    }
    if n == map[] {
      forall k
        ensures k !in m
      {
      }
    }
  }

  lemma ViewShared(a: Patch<Value>, b: Patch<Value>, k: Key)
    requires PatchSound(a) && PatchSound(b)
    ensures Touches(a, k) <==> Touches(View(a), k)
    ensures Touches(b, k) <==> Touches(View(b), k)
    ensures SharedNests(a, b, k) <==> SharedNests(View(a), View(b), k)
    ensures SharedNests(a, b, k) ==>
      && PatchSound(a.update[k].patch) && PatchSound(b.update[k].patch)
      && View(a).update[k].patch == View(a.update[k].patch) && View(b).update[k].patch == View(b.update[k].patch)
  {
  }

  /** Patches over values merge exactly when what they say merges, and the merge
      says the same. */
  lemma {:induction false} ViewMerged(a: Patch<Value>, b: Patch<Value>)
    requires PatchSound(a) && PatchSound(b)
    ensures Mergeable(a, b) <==> Mergeable(View(a), View(b))
    ensures Mergeable(a, b) ==> PatchSound(Merged(a, b)) && View(Merged(a, b)) == Merged(View(a), View(b))
    decreases a, 1
  {
    hide View, PatchSound, Merged, Touches, Blank;
    ViewBlank(a);
    ViewBlank(b);
    forall k
      ensures Touches(a, k) <==> Touches(View(a), k)
      ensures Touches(b, k) <==> Touches(View(b), k)
      ensures SharedNests(a, b, k) <==> SharedNests(View(a), View(b), k)
      ensures SharedNests(a, b, k) ==>
        (Mergeable(a.update[k].patch, b.update[k].patch) <==>
        Mergeable(View(a).update[k].patch, View(b).update[k].patch))
    {
      ViewShared(a, b, k);
      if SharedNests(a, b, k) {
        Sides(a, b, k);
        ViewMerged(a.update[k].patch, b.update[k].patch);
      }
    }
    if Mergeable(a, b) {
      hide Mergeable;
      if Blank(a) || Blank(b) {
        BlankMerged(a, b);
        BlankMerged(View(a), View(b));
      } else {
        ViewBoth(a, b);
      }
    }
  }

  lemma BlankMerged<V>(a: Patch<V>, b: Patch<V>)
    requires Mergeable(a, b) && (Blank(a) || Blank(b))
    ensures Merged(a, b) == if Blank(a) then b else a
  {
  }

  lemma ViewBoth(a: Patch<Value>, b: Patch<Value>)
    requires PatchSound(a) && PatchSound(b) && Mergeable(a, b) && Mergeable(View(a), View(b)) && !Blank(a) && !Blank(b)
    requires !Blank(View(a)) && !Blank(View(b))
    ensures PatchSound(Merged(a, b)) && View(Merged(a, b)) == Merged(View(a), View(b))
    decreases a, 0
  {
    hide View, PatchSound, Merged, Mergeable, AllSound, Doc, Docs;
    var m := Merged(a, b);
    forall k
      ensures k in m.create ==> Sound(m.create[k])
      ensures k in m.update ==> UpdateSound(m.update[k])
    {
      ViewOne(a, b, k);
    }
    SoundFrom(m);
    var n := Merged(View(a), View(b));
    forall k
      ensures k in View(m).create <==> k in n.create
      ensures k in View(m).create ==> View(m).create[k] == n.create[k]
      ensures k in View(m).update <==> k in n.update
      ensures k in View(m).update ==> View(m).update[k] == n.update[k]
    {
      ViewOne(a, b, k);
      ViewParts(m, k);
      if k in m.create {
        ViewCreate(m, k);
      }
    }
    DeletesViewed(a, b);
    SamePatch(View(m), n);
  }

  lemma DeletesViewed(a: Patch<Value>, b: Patch<Value>)
    requires PatchSound(a) && PatchSound(b) && Mergeable(a, b) && Mergeable(View(a), View(b)) && !Blank(a) && !Blank(b)
    requires !Blank(View(a)) && !Blank(View(b)) && PatchSound(Merged(a, b))
    ensures View(Merged(a, b)).delete == Merged(View(a), View(b)).delete
  {
    hide *;
    ViewParts(a, 0);
    ViewParts(b, 0);
    ViewParts(Merged(a, b), 0);
    MergedDeletes(a, b);
    MergedDeletes(View(a), View(b));
  }

  lemma SoundFrom(m: Patch<Value>)
    requires forall k :: (k in m.create ==> Sound(m.create[k])) && (k in m.update ==> UpdateSound(m.update[k]))
    ensures PatchSound(m)
  {
    hide Sound, UpdateSound;
  }

  /** What the merge does to one key. */
  lemma MergedSides<V>(a: Patch<V>, b: Patch<V>, k: Key)
    requires Mergeable(a, b) && !Blank(a) && !Blank(b)
    ensures
      var m := Merged(a, b);
      && (k in m.create <==> k in a.create || k in b.create)
      && (k in m.create ==> m.create[k] == if k in b.create then b.create[k] else a.create[k])
      && (k in m.update <==> k in a.update || k in b.update)
      && (k in a.update && k !in b.update ==> m.update[k] == a.update[k])
      && (k !in a.update && k in b.update ==> m.update[k] == b.update[k])
      && (k in a.update && k in b.update ==>
            && SharedNests(a, b, k) && Mergeable(a.update[k].patch, b.update[k].patch)
            && m.update[k] == Nested(Merged(a.update[k].patch, b.update[k].patch)))
  {
    assert Touches(a, k) && Touches(b, k) ==> SharedNests(a, b, k);
  }

  lemma ViewOne(a: Patch<Value>, b: Patch<Value>, k: Key)
    requires PatchSound(a) && PatchSound(b) && Mergeable(a, b) && Mergeable(View(a), View(b)) && !Blank(a) && !Blank(b)
    requires !Blank(View(a)) && !Blank(View(b))
    ensures
      var m, n := Merged(a, b), Merged(View(a), View(b));
      && (k in m.create <==> k in n.create) && (k in m.update <==> k in n.update)
      && (k in m.create ==> Sound(m.create[k]) && Doc(m.create[k]) == n.create[k])
      && (k in m.update ==> UpdateSound(m.update[k]) && ViewUpdate(m.update[k]) == n.update[k])
    decreases a, 0, 0
  {
    hide View, PatchSound, Merged, Mergeable, AllSound, Doc, Docs, Sound, Blank;
    ViewParts(a, k);
    ViewParts(b, k);
    MergedSides(a, b, k);
    MergedSides(View(a), View(b), k);
    if k in a.create {
      ViewCreate(a, k);
    }
    if k in b.create {
      ViewCreate(b, k);
    }
    if k in a.update && k in b.update {
      ViewMerged(a.update[k].patch, b.update[k].patch);
    }
  }
}
