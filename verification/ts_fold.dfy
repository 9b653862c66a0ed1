/** The other fold: objects mutated in place, over a deep copy of the document. */
module InPlaceFold {
  import opened Common
  import opened Avl
  import opened Values
  import opened Patches
  import opened PatchCode

  datatype JsValue = Plain(leaf: Leaf) | Obj(obj: JsObject)

  class JsObject {
    var props: map<Key, JsValue>
    /** This object and everything under it. */
    ghost var repr: set<JsObject>

    constructor ()
      ensures props == map[] && repr == {this}
    {
      props, repr := map[], {this};
    }
  }

  /** No object lies under itself. */
  ghost predicate Acyclic(o: JsObject)
    reads o, o.repr
    decreases o.repr
  {
    && o in o.repr
    && forall k :: k in o.props && o.props[k].Obj? ==>
      && o.props[k].obj in o.repr && o.props[k].obj.repr <= o.repr - {o} && Acyclic(o.props[k].obj)
  }

  /** No object lies under two places. */
  ghost predicate Unshared(o: JsObject)
    requires Acyclic(o)
    reads o, o.repr
    decreases o.repr
  {
    && (forall k :: k in o.props && o.props[k].Obj? ==> Unshared(o.props[k].obj))
    && forall j, k :: j in o.props && k in o.props && j != k && o.props[j].Obj? && o.props[k].Obj? ==>
      o.props[j].obj.repr !! o.props[k].obj.repr
  }

  ghost predicate Tree(o: JsObject)
    ensures Tree(o) ==> Acyclic(o)
    reads o, o.repr
  {
    Acyclic(o) && Unshared(o)
  }

  /** The document an object stands for. */
  ghost function DocOf(o: JsObject): Json
    requires Acyclic(o)
    reads o, o.repr
    decreases o.repr
  {
    Object(map k | k in o.props :: if o.props[k].Plain? then Atom(o.props[k].leaf) else DocOf(o.props[k].obj))
  }

  /** Its fields. */
  ghost function Docs(o: JsObject): map<Key, Json>
    requires Acyclic(o)
    ensures DocOf(o) == Object(Docs(o))
    reads o, o.repr
  {
    DocOf(o).fields
  }

  ghost predicate ValueTree(v: JsValue)
    ensures ValueTree(v) && v.Obj? ==> Acyclic(v.obj)
    reads if v.Obj? then {v.obj} + v.obj.repr else {}
  {
    v.Obj? ==> Tree(v.obj)
  }

  ghost function Under(v: JsValue): set<JsObject>
    reads if v.Obj? then {v.obj} else {}
  {
    if v.Obj? then v.obj.repr else {}
  }

  ghost function DocV(v: JsValue): Json
    requires v.Obj? ==> Acyclic(v.obj)
    reads if v.Obj? then {v.obj} + v.obj.repr else {}
  {
    if v.Plain? then Atom(v.leaf) else DocOf(v.obj)
  }

  /** Set a property to a value that shares nothing with the object. */
  method Define(target: JsObject, key: Key, v: JsValue)
    requires Tree(target) && ValueTree(v) && Under(v) !! target.repr
    modifies target
    ensures Tree(target) && target.repr == old(target.repr) + old(Under(v))
    ensures Docs(target) == old(Docs(target))[key := old(DocV(v))]
    ensures target.props == old(target.props)[key := v]
  {
    ghost var was := target.props;
    ghost var doc := DocOf(target);
    target.props := target.props[key := v];
    target.repr := target.repr + Under(v);
    forall k | k in was && k != key
      ensures k in DocOf(target).fields && DocOf(target).fields[k] == doc.fields[k]
    {
      assert was[k].Obj? ==> DocOf(was[k].obj) == old(DocOf(was[k].obj));
    }
    assert DocOf(target).fields == doc.fields[key := old(DocV(v))];
  }

  // ---- copying --------------------------------------------------------------

  lemma EmptyTree(o: JsObject)
    requires o.props == map[] && o.repr == {o}
    ensures Tree(o) && DocOf(o) == Object(map[])
  {
  }

  lemma Wrapped(o: JsObject)
    requires Tree(o)
    ensures Acyclic(o) && Unshared(o)
    ensures ValueTree(Obj(o)) && Under(Obj(o)) == o.repr && DocV(Obj(o)) == DocOf(o)
  {
  }

  lemma TreeParts(o: JsObject)
    requires Tree(o)
    ensures Acyclic(o) && Unshared(o) && o in o.repr
  {
  }

  /** A fresh value for a document. */
  method Build(j: Json) returns (v: JsValue)
    ensures ValueTree(v) && fresh(Under(v)) && DocV(v) == j
    decreases j, 1
  {
    if j.Atom? {
      return Plain(j.leaf);
    }
    hide *;
    var o := BuildObject(j);
    Wrapped(o);
    v := Obj(o);
  }

  method BuildObject(j: Json) returns (o: JsObject)
    requires j.Object?
    ensures Tree(o) && fresh(o.repr) && DocOf(o) == j
    decreases j, 0
  {
    hide *;
    o := new JsObject();
    EmptyTree(o);
    var left := j.fields.Keys;
    Undone(j.fields);
    while left != {}
      invariant Tree(o) && fresh(o.repr) && left <= j.fields.Keys && Docs(o) == Less(j.fields, left)
      decreases |left|
    {
      var key := Pick(left);
      var child := Build(j.fields[key]);
      OneMore(j.fields, left, key);
      Define(o, key, child);
      left := left - {key};
    }
  }

  lemma ChildOf(o: JsObject, k: Key)
    requires Acyclic(o) && k in o.props
    ensures k in DocOf(o).fields && DocOf(o).fields[k] == DocV(o.props[k])
    ensures DocOf(o).fields[k].Object? <==> o.props[k].Obj?
    ensures o.props[k].Obj? ==> o.props[k].obj != o && Acyclic(o.props[k].obj) && o.props[k].obj.repr < o.repr
    ensures o.props[k].Obj? && Unshared(o) ==> Unshared(o.props[k].obj)
  {
  }

  lemma SameKeys(o: JsObject)
    requires Acyclic(o)
    ensures DocOf(o).Object? && DocOf(o).fields.Keys == o.props.Keys
  {
  }

  /** A deep copy shares nothing with the original. */
  method CloneObject(o: JsObject) returns (c: JsObject)
    requires Acyclic(o)
    ensures Tree(c) && fresh(c.repr) && DocOf(c) == DocOf(o)
    decreases o.repr, 2
  {
    hide *;
    c := new JsObject();
    EmptyTree(c);
    var left := o.props.Keys;
    ghost var doc := DocOf(o);
    SameKeys(o);
    Undone(doc.fields);
    while left != {}
      invariant Tree(c) && fresh(c.repr) && left <= o.props.Keys && Docs(c) == Less(doc.fields, left)
      decreases |left|
    {
      var key := Pick(left);
      OneMore(doc.fields, left, key);
      CloneInto(c, o, key);
      left := left - {key};
    }
  }

  method CloneInto(c: JsObject, o: JsObject, key: Key)
    requires Acyclic(o) && Tree(c) && c !in o.repr && c != o && key in o.props
    modifies c
    ensures key in DocOf(o).fields && DocOf(o) == old(DocOf(o))
    ensures Tree(c) && Docs(c) == old(Docs(c))[key := DocOf(o).fields[key]] && fresh(c.repr - old(c.repr))
    decreases o.repr, 1
  {
    hide *;
    ghost var doc := DocOf(o);
    var child := CloneAt(o, key);
    Define(c, key, child);
    assert DocOf(o) == doc;
  }

  method CloneAt(o: JsObject, key: Key) returns (v: JsValue)
    requires Acyclic(o) && key in o.props
    ensures key in DocOf(o).fields
    ensures ValueTree(v) && fresh(Under(v)) && DocV(v) == DocOf(o).fields[key]
    decreases o.repr, 0
  {
    ChildOf(o, key);
    v := o.props[key];
    if v.Obj? {
      hide Acyclic, Unshared, DocOf, Tree;
      var copy := CloneObject(v.obj);
      Wrapped(copy);
      v := Obj(copy);
    }
  }

  // ---- the three loops on a document -----------------------------------------

  ghost predicate CanCreate(f: map<Key, Json>, p: Patch<Json>) {
    forall k :: k in p.create ==> k !in f
  }

  ghost predicate CanUpdateAt(f: map<Key, Json>, p: Patch<Json>, k: Key) {
    k in p.update && k in f && Admits(p.update[k], f[k])
  }

  ghost predicate CanUpdateAll(f: map<Key, Json>, p: Patch<Json>) {
    forall k :: k in p.update ==> CanUpdateAt(f, p, k)
  }

  ghost predicate CanDelete(f: map<Key, Json>, p: Patch<Json>) {
    forall k :: k in p.delete ==> k in f
  }

  ghost predicate Outcomes(f: map<Key, Json>, p: Patch<Json>, news: map<Key, Json>) {
    && (forall k :: k in news <==> k in p.update)
    && forall k :: k in news ==> CanUpdateAt(f, p, k) && news[k] == Outcome(p.update[k], f[k])
  }

  ghost function Ended(f: map<Key, Json>, p: Patch<Json>, news: map<Key, Json>): map<Key, Json> {
    (f + p.create + news) - KeySet(p.delete)
  }

  /** One key after the three loops. */
  lemma EndedAt(f: map<Key, Json>, p: Patch<Json>, news: map<Key, Json>, k: Key)
    requires WellFormed(p) && CanCreate(f, p) && Outcomes(f + p.create, p, news) && CanDelete(f + p.create + news, p)
    ensures Allows(p, k, At(Object(f), k))
    ensures At(Object(Ended(f, p, news)), k) == After(p, k, At(Object(f), k))
  {
    hide WellFormed, Applies, Applied;
    WellFormedAt(p, k);
  }

  /** The three loops do what the patch means. */
  lemma EndedMeans(f: map<Key, Json>, p: Patch<Json>, news: map<Key, Json>)
    requires WellFormed(p) && CanCreate(f, p) && Outcomes(f + p.create, p, news) && CanDelete(f + p.create + news, p)
    ensures Applies(p, Object(f)) && Applied(p, Object(f)) == Object(Ended(f, p, news))
  {
    hide WellFormed, Applied, Ended, Allows, After, At, CanCreate, Outcomes, CanDelete;
    var j := Object(f);
    forall k
      ensures Allows(p, k, At(j, k))
    {
      EndedAt(f, p, news, k);
    }
    assert Applies(p, j);
    hide Applies;
    forall k
      ensures At(Applied(p, j), k) == At(Object(Ended(f, p, news)), k)
    {
      EndedAt(f, p, news, k);
      AppliedAt(p, j, k);
    }
    AppliedAt(p, j, 0);
    SameObject(Applied(p, j), Object(Ended(f, p, news)));
  }

  lemma StopsAt(f: map<Key, Json>, p: Patch<Json>, k: Key, path: seq<Key>)
    requires
      || (k in p.create && k in f && path == []) || (k in p.delete && k !in f && path == [])
      || (k in p.update && k !in f && path == []) || (k in p.update && k in f && UpdateFails(p.update[k], f[k], path))
    ensures !Applies(p, Object(f)) && FailsAt(p, Object(f), [k] + path)
  {
    assert ([k] + path)[0] == k && ([k] + path)[1..] == path;
    hide Applies;
    FailureIsReal(p, Object(f), [k] + path);
  }

  /** A patch in the wire form: an object under Update is always a nested patch. */
  ghost predicate Untagged(p: Patch<Json>) {
    forall k :: k in p.update ==>
      match p.update[k]
      case Nested(q) => Untagged(q)
      case Replace(v) => v.Atom?
  }

  // ---- folding in place ---------------------------------------------------------

  /** Remove a property. */
  method Undefine(target: JsObject, key: Key)
    requires Tree(target)
    modifies target
    ensures Tree(target) && target.repr == old(target.repr)
    ensures Docs(target) == old(Docs(target)) - {key}
  {
    ghost var was := target.props;
    ghost var doc := DocOf(target);
    target.props := target.props - {key};
    forall k | k in was && k != key
      ensures k in DocOf(target).fields && DocOf(target).fields[k] == doc.fields[k]
    {
      assert was[k].Obj? ==> DocOf(was[k].obj) == old(DocOf(was[k].obj));
    }
    assert DocOf(target).fields == doc.fields - {key};
  }

  method Has(o: JsObject, key: Key) returns (yes: bool)
    requires Acyclic(o)
    ensures yes <==> key in Docs(o)
  {
    SameKeys(o);
    yes := key in o.props;
  }

  ghost predicate ClearOf(f: map<Key, Json>, create: map<Key, Json>, left: set<Key>) {
    forall k :: k in create && k !in left ==> k !in f
  }

  lemma ClearNext(f: map<Key, Json>, create: map<Key, Json>, left: set<Key>, k: Key)
    requires ClearOf(f, create, left) && k in left && k in create
    ensures k in f + (create - left) <==> k in f
    ensures k !in f ==> ClearOf(f, create, left - {k})
    ensures create - (left - {k}) == (create - left)[k := create[k]]
    ensures f + (create - left)[k := create[k]] == (f + (create - left))[k := create[k]]
  {
  }

  lemma ClearEnds(f: map<Key, Json>, p: Patch<Json>)
    ensures ClearOf(f, p.create, p.create.Keys) && f + (p.create - p.create.Keys) == f
    ensures f + (p.create - {}) == f + p.create
    ensures ClearOf(f, p.create, {}) <==> CanCreate(f, p)
  {
    assert p.create - p.create.Keys == map[];
    assert p.create - {} == p.create;
  }

  lemma NotClear(f: map<Key, Json>, p: Patch<Json>, k: Key)
    requires k in p.create && k in f
    ensures !CanCreate(f, p)
  {
  }

  method CreateProps(target: JsObject, p: Patch<Json>, path: seq<Key>) returns (r: Option<seq<Key>>)
    requires Tree(target)
    modifies target
    ensures r.None? <==> CanCreate(old(Docs(target)), p)
    ensures r.None? ==>
      Tree(target) && Docs(target) == old(Docs(target)) + p.create && fresh(target.repr - old(target.repr))
      && old(target.repr) <= target.repr
    ensures r.Some? ==> exists k :: k in p.create && k in old(Docs(target)) && r.value == path + [k]
  {
    hide *;
    ghost var f := Docs(target);
    var left := p.create.Keys;
    ClearEnds(f, p);
    while left != {}
      invariant Tree(target) && Docs(target) == f + (p.create - left) && left <= p.create.Keys
      invariant fresh(target.repr - old(target.repr)) && old(target.repr) <= target.repr
      invariant ClearOf(f, p.create, left)
      decreases |left|
    {
      var key := Pick(left);
      ClearNext(f, p.create, left, key);
      var has := Has(target, key);
      if has {
        NotClear(f, p, key);
        return Some(path + [key]);
      }
      var child := Build(p.create[key]);
      Define(target, key, child);
      left := left - {key};
    }
    r := None;
  }

  lemma Undeletable(f: map<Key, Json>, p: Patch<Json>, k: Key)
    requires k in p.delete && k !in f
    ensures !CanDelete(f, p)
  {
  }

  ghost predicate HoldsTo(f: map<Key, Json>, keys: seq<Key>, i: nat)
    requires i <= |keys|
  {
    forall j :: 0 <= j < i ==> keys[j] in f
  }

  lemma HoldsNext(f: map<Key, Json>, keys: seq<Key>, i: nat)
    requires i < |keys| && HoldsTo(f, keys, i) && keys[i] in f
    ensures HoldsTo(f, keys, i + 1)
  {
  }

  lemma HoldsEnds(f: map<Key, Json>, p: Patch<Json>)
    ensures HoldsTo(f, p.delete, 0)
    ensures HoldsTo(f, p.delete, |p.delete|) ==> CanDelete(f, p)
  {
  }

  method DeleteProps(target: JsObject, p: Patch<Json>, path: seq<Key>) returns (r: Option<seq<Key>>)
    requires Tree(target) && NoRepeats(p.delete)
    modifies target
    ensures r.None? <==> CanDelete(old(Docs(target)), p)
    ensures r.None? ==>
      Tree(target) && Docs(target) == old(Docs(target)) - KeySet(p.delete) && target.repr == old(target.repr)
    ensures r.Some? ==> exists k :: k in p.delete && k !in old(Docs(target)) && r.value == path + [k]
  {
    hide *;
    ghost var f := Docs(target);
    KeySetEnds(p.delete);
    CutNone(f);
    HoldsEnds(f, p);
    for i := 0 to |p.delete|
      invariant Tree(target) && target.repr == old(target.repr) && Docs(target) == f - KeySet(p.delete[..i])
      invariant HoldsTo(f, p.delete, i)
    {
      var key := p.delete[i];
      KeySetNext(p.delete, i);
      CutMore(f, KeySet(p.delete[..i]), key);
      var has := Has(target, key);
      if !has {
        Undeletable(f, p, key);
        return Some(path + [key]);
      }
      HoldsNext(f, p.delete, i);
      Undefine(target, key);
    }
    r := None;
  }

  ghost predicate OutcomesTo(f: map<Key, Json>, p: Patch<Json>, news: map<Key, Json>, left: set<Key>) {
    && (forall k :: k in news <==> k in p.update && k !in left)
    && forall k :: k in news ==> CanUpdateAt(f, p, k) && news[k] == Outcome(p.update[k], f[k])
  }

  lemma OutcomesNext(f: map<Key, Json>, p: Patch<Json>, news: map<Key, Json>, left: set<Key>, k: Key)
    requires OutcomesTo(f, p, news, left) && k in left && k in p.update
    ensures k in f + news <==> k in f
    ensures k in f ==> (f + news)[k] == f[k]
    ensures CanUpdateAt(f, p, k) ==> OutcomesTo(f, p, news[k := Outcome(p.update[k], f[k])], left - {k})
  {
    hide Admits, Outcome;
  }

  lemma OutcomesEnds(f: map<Key, Json>, p: Patch<Json>, news: map<Key, Json>)
    ensures OutcomesTo(f, p, map[], p.update.Keys) && f + map[] == f
    ensures OutcomesTo(f, p, news, {}) ==> CanUpdateAll(f, p) && Outcomes(f, p, news)
  {
    hide Admits, Outcome;
  }

  lemma CannotUpdate(f: map<Key, Json>, p: Patch<Json>, k: Key)
    requires k in p.update && !CanUpdateAt(f, p, k)
    ensures !CanUpdateAll(f, p)
  {
  }

  lemma CanUpdateIs(f: map<Key, Json>, p: Patch<Json>, k: Key)
    requires k in p.update
    ensures CanUpdateAt(f, p, k) <==> k in f && Admits(p.update[k], f[k])
  {
  }

  /** Update every listed property in place. */
  method UpdateProps(target: JsObject, p: Patch<Json>, path: seq<Key>)
    returns (r: Option<seq<Key>>, ghost news: map<Key, Json>)
    requires Tree(target) && WellFormed(p)
    modifies target.repr
    ensures r.None? <==> CanUpdateAll(old(Docs(target)), p)
    ensures r.None? ==>
      && Outcomes(old(Docs(target)), p, news) && Tree(target) && Docs(target) == old(Docs(target)) + news
      && fresh(target.repr - old(target.repr)) && old(target.repr) <= target.repr
    ensures r.Some? ==>
      && |path| < |r.value| && r.value[..|path|] == path
      && StopsIn(old(Docs(target)), p, r.value[|path|], r.value[|path| + 1..])
    decreases p, 0
  {
    hide *;
    ghost var f := Docs(target);
    var left := p.update.Keys;
    news := map[];
    OutcomesEnds(f, p, news);
    while left != {}
      invariant Tree(target) && Docs(target) == f + news && left <= p.update.Keys
      invariant fresh(target.repr - old(target.repr)) && old(target.repr) <= target.repr
      invariant OutcomesTo(f, p, news, left)
      decreases |left|
    {
      var key := Pick(left);
      OutcomesNext(f, p, news, left, key);
      CanUpdateIs(f, p, key);
      WellFormedUpdateAt(p, key);
      r := UpdateProp(target, key, p.update[key], path);
      if r.Some? {
        CannotUpdate(f, p, key);
        StopsInside(f, p, key, r.value[|path| + 1..]);
        return;
      }
      PutTaken(f, news, key, Outcome(p.update[key], f[key]));
      news := news[key := Outcome(p.update[key], f[key])];
      left := left - {key};
    }
    OutcomesEnds(f, p, news);
    r := None;
  }

  /** Where an update loop over fields stops. */
  ghost predicate StopsIn(f: map<Key, Json>, p: Patch<Json>, k: Key, path: seq<Key>) {
    k in p.update && if k in f then UpdateFails(p.update[k], f[k], path) else path == []
  }

  lemma StopsInside(f: map<Key, Json>, p: Patch<Json>, k: Key, path: seq<Key>)
    requires k in p.update && (if k in f then UpdateFails(p.update[k], f[k], path) else path == [])
    ensures StopsIn(f, p, k, path)
  {
  }

  lemma WellFormedUpdateAt(p: Patch<Json>, k: Key)
    requires WellFormed(p) && k in p.update
    ensures GoodUpdate(p.update[k])
  {
  }

  /** Update one property: fold into an object where it stands, or replace a leaf. */
  method UpdateProp(target: JsObject, key: Key, u: Update<Json>, path: seq<Key>) returns (r: Option<seq<Key>>)
    requires Tree(target) && GoodUpdate(u)
    modifies target.repr
    ensures r.None? <==> key in old(Docs(target)) && Admits(u, old(Docs(target))[key])
    ensures r.None? ==>
      && Tree(target) && Docs(target) == old(Docs(target))[key := Outcome(u, old(Docs(target))[key])]
      && fresh(target.repr - old(target.repr)) && old(target.repr) <= target.repr
    ensures r.Some? ==>
      && |path| < |r.value| && r.value[..|path|] == path && r.value[|path|] == key
      && (if key in old(Docs(target)) then UpdateFails(u, old(Docs(target))[key], r.value[|path| + 1..])
          else r.value[|path| + 1..] == [])
    decreases u, 1
  {
    hide *;
    TreeParts(target);
    var has := Has(target, key);
    assert (path + [key])[|path| + 1..] == [];
    if !has {
      return Some(path + [key]);
    }
    SameKeys(target);
    ChildOf(target, key);
    var current := target.props[key];
    UpdateCases(u, Docs(target)[key]);
    if u.Nested? {
      if current.Plain? {
        return Some(path + [key]);
      }
      r := FoldBelow(target, key, u.patch, path);
    } else {
      if current.Obj? {
        return Some(path + [key]);
      }
      var child := Build(u.value);
      Define(target, key, child);
      r := None;
    }
  }

  lemma UpdateCases(u: Update<Json>, j: Json)
    requires GoodUpdate(u)
    ensures u.Nested? ==>
      && WellFormed(u.patch) && (Admits(u, j) <==> Applies(u.patch, j))
      && (Admits(u, j) ==> Outcome(u, j) == Applied(u.patch, j))
      && (forall path :: UpdateFails(u, j, path) <==> FailsAt(u.patch, j, path))
      && (j.Atom? ==> !Applies(u.patch, j) && FailsAt(u.patch, j, []))
    ensures u.Replace? ==>
      && (Admits(u, j) <==> j.Atom?) && (Admits(u, j) ==> Outcome(u, j) == u.value)
      && (j.Object? ==> UpdateFails(u, j, []))
  {
    hide Applied, WellFormed;
  }

  /** Fold a nested patch into a property's object. */
  method FoldBelow(target: JsObject, key: Key, q: Patch<Json>, path: seq<Key>) returns (r: Option<seq<Key>>)
    requires Tree(target) && key in target.props && target.props[key].Obj? && WellFormed(q)
    modifies target.repr
    ensures old(key in Docs(target))
    ensures r.None? <==> Applies(q, old(Docs(target)[key]))
    ensures r.None? ==>
      && Tree(target) && Docs(target) == old(Docs(target))[key := Applied(q, old(Docs(target)[key]))]
      && fresh(target.repr - old(target.repr)) && old(target.repr) <= target.repr
    ensures r.Some? ==>
      && |path| < |r.value| && r.value[..|path|] == path && r.value[|path|] == key
      && FailsAt(q, old(Docs(target)[key]), r.value[|path| + 1..])
    decreases q, 2
  {
    hide Acyclic, Unshared, DocOf, Tree, Applies, Applied, FailsAt, WellFormed, UpdateFails;
    TreeParts(target);
    SameKeys(target);
    ChildOf(target, key);
    ghost var props, repr, fields := target.props, target.repr, Docs(target);
    var c := target.props[key].obj;
    ChildTree(target, key);
    Siblings(target, key);
    r := ApplyAt(c, q, path + [key]);
    if r.Some? {
      assert r.value[..|path|] == r.value[..|path| + 1][..|path|];
      assert r.value[|path|] == r.value[..|path| + 1][|path|];
      return;
    }
    target.repr := target.repr + c.repr;
    forall k | k in props && k != key && props[k].Obj?
      ensures Tree(props[k].obj) && props[k].obj.repr == old(props[k].obj.repr)
      ensures DocOf(props[k].obj) == old(DocOf(props[k].obj))
    {
    }
    assert Parts(target);
    Assembled(target);
    forall k
      ensures k in Docs(target) <==> k in fields
      ensures k in fields && k != key ==> Docs(target)[k] == fields[k]
    {
      SameKeys(target);
      if k in props {
        ChildOf(target, k);
      }
    }
    ChildOf(target, key);
    assert Docs(target) == fields[key := Applied(q, fields[key])];
  }

  /** The other properties of an object, and the objects under them. */
  lemma Siblings(o: JsObject, key: Key)
    requires Tree(o) && key in o.props && o.props[key].Obj?
    ensures Parts(o)
    ensures forall k :: k in o.props && k != key && o.props[k].Obj? ==>
      o.props[k].obj in o.props[k].obj.repr && o.props[k].obj.repr !! o.props[key].obj.repr
    ensures forall k :: k in o.props ==> k in Docs(o) && Docs(o)[k] == DocV(o.props[k])
  {
    hide DocOf;
    forall k | k in o.props
      ensures k in Docs(o) && Docs(o)[k] == DocV(o.props[k])
      ensures o.props[k].Obj? ==> o.props[k].obj in o.props[k].obj.repr && Tree(o.props[k].obj)
      ensures o.props[k].Obj? ==> o.props[k].obj in o.repr && o.props[k].obj.repr <= o.repr - {o}
    {
      hide Acyclic, Unshared, Tree;
      TreeParts(o);
      ChildOf(o, k);
      ChildTree(o, k);
    }
    TreeParts(o);
  }

  lemma Assembled(o: JsObject)
    requires Parts(o)
    ensures Tree(o)
  {
  }

  lemma ChildTree(o: JsObject, k: Key)
    requires Tree(o) && k in o.props
    ensures ValueTree(o.props[k]) && Under(o.props[k]) <= o.repr - {o}
    ensures o.props[k].Obj? ==>
      Tree(o.props[k].obj) && o.props[k].obj in o.repr && o.props[k].obj.repr == Under(o.props[k])
    ensures o.props[k].Obj? ==> o.props[k].obj in o.props[k].obj.repr
  {
  }

  ghost predicate Parts(o: JsObject)
    reads o, o.repr
  {
    && o in o.repr
    && (forall k :: k in o.props && o.props[k].Obj? ==>
          o.props[k].obj in o.repr && o.props[k].obj.repr <= o.repr - {o} && Tree(o.props[k].obj))
    && forall j, k :: j in o.props && k in o.props && j != k && o.props[j].Obj? && o.props[k].Obj? ==>
      o.props[j].obj.repr !! o.props[k].obj.repr
  }

  method ApplyAt(target: JsObject, p: Patch<Json>, path: seq<Key>) returns (r: Option<seq<Key>>)
    requires Tree(target) && WellFormed(p)
    modifies target.repr
    ensures r.None? <==> Applies(p, old(DocOf(target)))
    ensures r.None? ==>
      && Tree(target) && DocOf(target) == Applied(p, old(DocOf(target)))
      && fresh(target.repr - old(target.repr)) && old(target.repr) <= target.repr
    ensures r.Some? ==>
      |path| <= |r.value| && r.value[..|path|] == path && FailsAt(p, old(DocOf(target)), r.value[|path|..])
    decreases p, 1
  {
    hide *;
    TreeParts(target);
    ghost var f := Docs(target);
    var created := CreateProps(target, p, path);
    if created.Some? {
      ghost var k :| k in p.create && k in f && created.value == path + [k];
      StopsAt(f, p, k, []);
      assert created.value[|path|..] == [k] + [];
      return created;
    }
    ghost var f1 := Docs(target);
    var updated, news := UpdateProps(target, p, path);
    if updated.Some? {
      ghost var k, rest := updated.value[|path|], updated.value[|path| + 1..];
      StopsLater(f, p, k, rest);
      assert updated.value[|path|..] == [k] + rest;
      return updated;
    }
    WellFormedAt(p, 0);
    DistinctRepeats(p);
    var deleted := DeleteProps(target, p, path);
    if deleted.Some? {
      ghost var k :| k in p.delete && k !in f + p.create + news && deleted.value == path + [k];
      assert k !in f;
      StopsAt(f, p, k, []);
      assert deleted.value[|path|..] == [k] + [];
      return deleted;
    }
    EndedMeans(f, p, news);
    EndedIs(f, p, news);
    r := None;
  }

  lemma DistinctRepeats(p: Patch<Json>)
    requires Distinct(p)
    ensures NoRepeats(p.delete)
  {
  }

  lemma EndedIs(f: map<Key, Json>, p: Patch<Json>, news: map<Key, Json>)
    ensures Ended(f, p, news) == (f + p.create + news) - KeySet(p.delete)
  {
  }

  lemma StopsLater(f: map<Key, Json>, p: Patch<Json>, k: Key, path: seq<Key>)
    requires WellFormed(p) && StopsIn(f + p.create, p, k, path)
    ensures !Applies(p, Object(f)) && FailsAt(p, Object(f), [k] + path)
  {
    hide WellFormed, Applies, FailsAt, UpdateFails;
    WellFormedAt(p, k);
    StopsAt(f, p, k, path);
  }

  // ---- the whole fold -------------------------------------------------------------

  /** Each key named once, at every depth. */
  method ValidatePatch(p: Patch<Json>) returns (ok: bool)
    requires Untagged(p)
    ensures ok <==> WellFormed(p)
    decreases p
  {
    hide *;
    var keys := p.create.Keys;
    var left := p.update.Keys;
    CheckedNone(p);
    while left != {}
      invariant left <= p.update.Keys && keys == Named(p, left) && CheckedTo(p, left)
      decreases |left|
    {
      var key := Pick(left);
      UntaggedAt(p, key);
      NamedNext(p, left, key);
      if key in keys {
        NamedTwice(p, key);
        return false;
      }
      if p.update[key].Nested? {
        var good := ValidatePatch(p.update[key].patch);
        if !good {
          BadNest(p, key);
          return false;
        }
      }
      CheckedNext(p, left, key);
      keys := keys + {key};
      left := left - {key};
    }
    DeletedNone(p);
    for i := 0 to |p.delete|
      invariant keys == NamedTo(p, i) && DeletesTo(p, i)
    {
      if p.delete[i] in keys {
        DeletedTwice(p, i);
        return false;
      }
      DeletesNext(p, i);
      keys := keys + {p.delete[i]};
    }
    AllChecked(p);
    ok := true;
  }

  /** The keys that creates and the updates looked at so far name. */
  ghost function Named(p: Patch<Json>, left: set<Key>): set<Key> {
    p.create.Keys + (p.update.Keys - left)
  }

  /** Those of creates, updates and the first deletes. */
  ghost function NamedTo(p: Patch<Json>, i: nat): set<Key>
    requires i <= |p.delete|
  {
    p.create.Keys + p.update.Keys + KeySet(p.delete[..i])
  }

  lemma NamedNext(p: Patch<Json>, left: set<Key>, k: Key)
    requires k in left && left <= p.update.Keys
    ensures k in Named(p, left) <==> k in p.create
    ensures Named(p, left - {k}) == Named(p, left) + {k}
  {
  }

  lemma DeletedNone(p: Patch<Json>)
    ensures Named(p, {}) == NamedTo(p, 0)
  {
    assert p.delete[..0] == [];
  }

  /** Updates looked at so far share no key with a create and are well formed. */
  ghost predicate CheckedTo(p: Patch<Json>, left: set<Key>) {
    forall k :: k in p.update && k !in left ==> k !in p.create && GoodUpdate(p.update[k])
  }

  /** Deletes looked at so far name keys nothing else names. */
  ghost predicate DeletesTo(p: Patch<Json>, i: nat) {
    && i <= |p.delete| && NoRepeats(p.delete[..i])
    && forall k :: k in p.delete[..i] ==> k !in p.create && k !in p.update
  }

  lemma CheckedNone(p: Patch<Json>)
    ensures CheckedTo(p, p.update.Keys) && p.create.Keys == Named(p, p.update.Keys)
    ensures DeletesTo(p, 0)
  {
  }

  lemma UntaggedAt(p: Patch<Json>, k: Key)
    requires Untagged(p) && k in p.update
    ensures p.update[k].Nested? ==> Untagged(p.update[k].patch)
    ensures p.update[k].Replace? ==> p.update[k].value.Atom?
  {
  }

  lemma NamedTwice(p: Patch<Json>, k: Key)
    requires k in p.update && k in p.create
    ensures !WellFormed(p)
  {
  }

  lemma BadNest(p: Patch<Json>, k: Key)
    requires k in p.update && p.update[k].Nested? && !WellFormed(p.update[k].patch)
    ensures !WellFormed(p)
  {
  }

  lemma CheckedNext(p: Patch<Json>, left: set<Key>, k: Key)
    requires CheckedTo(p, left) && k in left && k in p.update && k !in p.create
    requires p.update[k].Nested? ==> WellFormed(p.update[k].patch)
    requires p.update[k].Replace? ==> p.update[k].value.Atom?
    ensures CheckedTo(p, left - {k})
  {
    hide WellFormed;
  }

  lemma DeletedTwice(p: Patch<Json>, i: nat)
    requires i < |p.delete| && p.delete[i] in NamedTo(p, i)
    ensures !WellFormed(p)
  {
    var k := p.delete[i];
    assert k in p.delete;
    if k in KeySet(p.delete[..i]) {
      var j :| 0 <= j < i && p.delete[..i][j] == k;
      assert p.delete[j] == p.delete[i];
    }
  }

  lemma DeletesNext(p: Patch<Json>, i: nat)
    requires i < |p.delete| && DeletesTo(p, i) && p.delete[i] !in NamedTo(p, i)
    ensures DeletesTo(p, i + 1)
    ensures NamedTo(p, i + 1) == NamedTo(p, i) + {p.delete[i]}
  {
    assert p.delete[..i + 1] == p.delete[..i] + [p.delete[i]];
  }

  lemma AllChecked(p: Patch<Json>)
    requires CheckedTo(p, {}) && DeletesTo(p, |p.delete|)
    ensures WellFormed(p)
  {
    assert p.delete[..|p.delete|] == p.delete;
    forall k
      ensures k in p.create ==> k !in p.update
      ensures k in p.update && p.update[k].Nested? ==> WellFormed(p.update[k].patch)
      ensures k in p.update && p.update[k].Replace? ==> p.update[k].value.Atom?
    {
    }
    WellFormedFrom(p);
  }

  datatype Folded = Next(made: JsObject) | Invalid | Refused(path: seq<Key>)

  /** Validate, copy, fold the copy. Nothing that existed before is written, even
      when the fold stops half way. */
  method ApplyPatch(value: JsObject, p: Patch<Json>) returns (r: Folded)
    requires Acyclic(value) && Untagged(p)
    ensures Acyclic(value) && DocOf(value) == old(DocOf(value))
    ensures r.Next? <==> WellFormed(p) && Applies(p, DocOf(value))
    ensures r.Next? ==> Tree(r.made) && fresh(r.made.repr) && DocOf(r.made) == Applied(p, DocOf(value))
    ensures r.Invalid? <==> !WellFormed(p)
    ensures r.Refused? ==> FailsAt(p, DocOf(value), r.path)
  {
    hide *;
    var ok := ValidatePatch(p);
    if !ok {
      return Invalid;
    }
    var next := CloneObject(value);
    var failed := ApplyAt(next, p, []);
    if failed.Some? {
      assert failed.value[0..] == failed.value;
      return Refused(failed.value);
    }
    r := Next(next);
  }

  /** The two folds agree: on the same document they take the same patches and give
      the same document. */
  method BothFolds(v: Value, o: JsObject, p: Patch<Value>, q: Patch<Json>) returns (a: Result<Value>, b: Folded)
    requires Sound(v) && Acyclic(o) && Doc(v) == DocOf(o) && PatchSound(p) && View(p) == q && Untagged(q)
    ensures a.Ok? <==> b.Next?
    ensures a.Ok? ==> Sound(a.value) && Tree(b.made) && Doc(a.value) == DocOf(b.made)
    ensures Doc(v) == DocOf(o)
  {
    hide *;
    a := PatchCode.Apply(p, v);
    b := ApplyPatch(o, q);
  }
}
