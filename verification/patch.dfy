/** The recursive patch language: what a patch does to a document, and what
    merging two independent patches means. */
module Patches {
  import opened Common
  import opened Avl
  import opened Values

  /** Edits of one object. Create needs an absent key, Update an existing one,
      Delete removes a key with its subtree. */
  datatype Patch<V> = Patch(create: map<Key, V>, update: map<Key, Update<V>>, delete: seq<Key>)

  /** Edits inside an existing object, or a new value for an existing leaf. */
  datatype Update<V> = Nested(patch: Patch<V>) | Replace(value: V)

  predicate Blank<V>(p: Patch<V>) {
    p.create == map[] && p.update == map[] && p.delete == []
  }

  predicate Touches<V>(p: Patch<V>, k: Key) {
    k in p.create || k in p.update || k in p.delete
  }

  ghost predicate NoRepeats(s: seq<Key>) {
    forall i, j :: 0 <= i < j < |s| ==> s[i] != s[j]
  }

  /** One operation for each key. */
  ghost predicate Distinct<V>(p: Patch<V>) {
    && (forall k :: k in p.create ==> k !in p.update)
    && (forall k :: k in p.delete ==> k !in p.create && k !in p.update)
    && NoRepeats(p.delete)
  }

  /** A patch that names each key once and never replaces a leaf by an object. */
  ghost predicate WellFormed(p: Patch<Json>) {
    && Distinct(p)
    && forall k :: k in p.update ==>
      match p.update[k]
      case Nested(q) => WellFormed(q)
      case Replace(v) => v.Atom?
  }

  // ---- meaning ------------------------------------------------------------

  /** What a document holds under a key. */
  function At(j: Json, k: Key): Option<Json> {
    if j.Object? && k in j.fields then Some(j.fields[k]) else None
  }

  /** Whether every operation on a key meets its precondition there. */
  ghost predicate Allows(p: Patch<Json>, k: Key, held: Option<Json>)
    decreases p, 0
  {
    && (k in p.create ==> held.None?)
    && (k in p.update ==> held.Some?)
    && (k in p.update && p.update[k].Nested? ==> Applies(p.update[k].patch, held.value))
    && (k in p.update && p.update[k].Replace? ==> held.value.Atom?)
    && (k in p.delete ==> held.Some?)
  }

  /** What a key holds afterwards. */
  ghost function After(p: Patch<Json>, k: Key, held: Option<Json>): Option<Json>
    requires Allows(p, k, held)
    decreases p, 0
  {
    if k in p.delete then None
    else if k in p.create then Some(p.create[k])
    else if k in p.update then
      match p.update[k]
      case Nested(q) => Some(Applied(q, held.value))
      case Replace(v) => Some(v)
    else held
  }

  /** A patch applies to an object all of whose keys allow it. */
  ghost predicate Applies(p: Patch<Json>, j: Json)
    decreases p, 1
  {
    j.Object? && forall k :: Allows(p, k, At(j, k))
  }

  /** Each key changes on its own. */
  ghost function Applied(p: Patch<Json>, j: Json): Json
    requires Applies(p, j)
    decreases p, 1
  {
    Object(map k | k in p.create.Keys + j.fields.Keys && After(p, k, At(j, k)).Some? :: After(p, k, At(j, k)).value)
  }

  lemma AppliedAt(p: Patch<Json>, j: Json, k: Key)
    requires Applies(p, j)
    ensures Applied(p, j).Object? && Allows(p, k, At(j, k)) && At(Applied(p, j), k) == After(p, k, At(j, k))
  {
    assert Allows(p, k, At(j, k));
    if At(j, k).None? && k !in p.create {
      assert k !in p.update && After(p, k, At(j, k)) == None;
    }
  }

  lemma SameObject(a: Json, b: Json)
    requires a.Object? && b.Object? && forall k :: At(a, k) == At(b, k)
    ensures a == b
  {
    forall k
      ensures k in a.fields <==> k in b.fields
      ensures k in a.fields ==> a.fields[k] == b.fields[k]
    {
      assert At(a, k) == At(b, k);
    }
  }

  lemma BlankApplies(p: Patch<Json>, j: Json)
    requires Blank(p)
    ensures Applies(p, j) <==> j.Object?
    ensures Applies(p, j) ==> Applied(p, j) == j
  {
    if j.Object? {
      forall k
        ensures Allows(p, k, At(j, k)) && After(p, k, At(j, k)) == At(j, k)
      {
      }
      forall k
        ensures At(Applied(p, j), k) == At(j, k)
      {
        AppliedAt(p, j, k);
      }
      SameObject(Applied(p, j), j);
    }
  }

  /** Where a patch stops: the path of one operation whose precondition fails,
      or of an update that looks for an object and finds a leaf. */
  ghost predicate FailsAt(p: Patch<Json>, j: Json, path: seq<Key>)
    decreases p
  {
    if j.Atom? then path == []
    else
      && path != []
      && var k := path[0];
        if path[1..] == [] && (
          || (k in p.create && At(j, k).Some?)
          || (k in p.delete && At(j, k).None?)
          || (k in p.update && (At(j, k).None? || (p.update[k].Replace? && At(j, k).value.Object?)))) then true
        else
          && k in p.update && p.update[k].Nested? && At(j, k).Some?
          && FailsAt(p.update[k].patch, At(j, k).value, path[1..])
  }

  /** A failure is real. */
  lemma {:induction false} FailureIsReal(p: Patch<Json>, j: Json, path: seq<Key>)
    requires FailsAt(p, j, path)
    ensures !Applies(p, j)
    decreases p
  {
    if j.Object? && Applies(p, j) {
      var k := path[0];
      assert Allows(p, k, At(j, k));
      if
        && k in p.update && p.update[k].Nested? && At(j, k).Some?
        && FailsAt(p.update[k].patch, At(j, k).value, path[1..])
      {
        FailureIsReal(p.update[k].patch, At(j, k).value, path[1..]);
      }
    }
  }

  // ---- merging --------------------------------------------------------------

  function Inserted(x: Key, s: seq<Key>): seq<Key> {
    if s == [] || x <= s[0] then [x] + s else [s[0]] + Inserted(x, s[1..])
  }

  function Sort(s: seq<Key>): seq<Key> {
    if s == [] then [] else Inserted(s[0], Sort(s[1..]))
  }

  /** Two patches merge when the only keys they share are nested in both, and
      those merge in turn. */
  ghost predicate Mergeable<V>(a: Patch<V>, b: Patch<V>) {
    || Blank(a) || Blank(b)
    || forall k :: Touches(a, k) && Touches(b, k) ==>
      SharedNests(a, b, k) && Mergeable(a.update[k].patch, b.update[k].patch)
  }

  predicate SharedNests<V>(a: Patch<V>, b: Patch<V>, k: Key) {
    k in a.update && k in b.update && a.update[k].Nested? && b.update[k].Nested?
  }

  ghost function Merged<V>(a: Patch<V>, b: Patch<V>): Patch<V>
    requires Mergeable(a, b)
  {
    if Blank(a) then b
    else if Blank(b) then a
    else
      Patch(
        a.create + b.create,
        map k | k in a.update.Keys + b.update.Keys ::
          if k !in b.update then a.update[k]
          else if k !in a.update then b.update[k]
          else assert Touches(a, k) && Touches(b, k); Nested(Merged(a.update[k].patch, b.update[k].patch)),
        Sort(a.delete + b.delete))
  }

  /** Where two patches collide. */
  ghost predicate ConflictAt<V>(a: Patch<V>, b: Patch<V>, path: seq<Key>)
    decreases a
  {
    && path != []
    && var k := path[0];
      && Touches(a, k) && Touches(b, k)
      && if SharedNests(a, b, k) then ConflictAt(a.update[k].patch, b.update[k].patch, path[1..]) else path[1..] == []
  }

  /** What the merge of two patches, neither blank, does to one key. */
  lemma MergedAt<V>(a: Patch<V>, b: Patch<V>, k: Key)
    requires Mergeable(a, b) && !Blank(a) && !Blank(b) && Distinct(a) && Distinct(b)
    ensures
      var m := Merged(a, b);
      && (k in m.create <==> k in a.create || k in b.create)
      && (k in m.update <==> k in a.update || k in b.update)
      && (k in m.delete <==> k in a.delete || k in b.delete)
      && (!Touches(b, k) ==>
          (k in a.create ==> m.create[k] == a.create[k]) && (k in a.update ==> m.update[k] == a.update[k]))
      && (!Touches(a, k) ==>
          (k in b.create ==> m.create[k] == b.create[k]) && (k in b.update ==> m.update[k] == b.update[k]))
      && (Touches(a, k) && Touches(b, k) ==>
            && SharedNests(a, b, k) && Mergeable(a.update[k].patch, b.update[k].patch)
            && m.update[k] == Nested(Merged(a.update[k].patch, b.update[k].patch)))
  {
    SortKeeps(a.delete + b.delete, k);
  }

  lemma {:induction false} InsertKeeps(x: Key, s: seq<Key>)
    ensures multiset(Inserted(x, s)) == multiset(s) + multiset{x}
  {
    if s != [] && x > s[0] {
      InsertKeeps(x, s[1..]);
      assert s == [s[0]] + s[1..];
    }
  }

  lemma {:induction false} SortMultiset(s: seq<Key>)
    ensures multiset(Sort(s)) == multiset(s)
  {
    if s != [] {
      SortMultiset(s[1..]);
      InsertKeeps(s[0], Sort(s[1..]));
      assert s == [s[0]] + s[1..];
    }
  }

  lemma SortKeeps(s: seq<Key>, k: Key)
    ensures k in Sort(s) <==> k in s
  {
    SortMultiset(s);
    assert k in Sort(s) <==> k in multiset(Sort(s));
    assert k in s <==> k in multiset(s);
  }

  ghost predicate Sorted(s: seq<Key>) {
    forall i, j :: 0 <= i < j < |s| ==> s[i] <= s[j]
  }

  lemma {:induction false} InsertSorted(x: Key, s: seq<Key>)
    requires Sorted(s)
    ensures Sorted(Inserted(x, s))
  {
    if s != [] && x > s[0] {
      InsertSorted(x, s[1..]);
      InsertKeeps(x, s[1..]);
      var t := Inserted(x, s[1..]);
      forall i | 0 <= i < |t|
        ensures s[0] <= t[i]
      {
        assert t[i] in multiset(t);
        assert t[i] == x || t[i] in s[1..];
      }
    }
  }

  lemma {:induction false} SortSorted(s: seq<Key>)
    ensures Sorted(Sort(s))
  {
    if s != [] {
      SortSorted(s[1..]);
      InsertSorted(s[0], Sort(s[1..]));
    }
  }

  /** A multiset has one sorted listing. */
  lemma {:induction false} SortedUnique(a: seq<Key>, b: seq<Key>)
    requires Sorted(a) && Sorted(b) && multiset(a) == multiset(b)
    ensures a == b
  {
    hide Sorted;
    SameLength(a, b);
    if a != [] {
      LeastFirst(a, b[0]);
      LeastFirst(b, a[0]);
      Headless(a);
      Headless(b);
      SortedUnique(a[1..], b[1..]);
      HeadAndRest(a, b);
    }
  }

  lemma SameLength<T>(a: seq<T>, b: seq<T>)
    requires multiset(a) == multiset(b)
    ensures |a| == |b|
    ensures a != [] ==> a[0] in multiset(b) && b[0] in multiset(a)
  {
    assert |a| == |multiset(a)| == |multiset(b)| == |b|;
  }

  lemma HeadAndRest<T>(a: seq<T>, b: seq<T>)
    requires a != [] && b != [] && a[0] == b[0] && a[1..] == b[1..]
    ensures a == b
  {
    assert [a[0]] + a[1..] == a && [b[0]] + b[1..] == b;
  }

  lemma LeastFirst(s: seq<Key>, x: Key)
    requires Sorted(s) && x in multiset(s)
    ensures s != [] && s[0] <= x && Sorted(s[1..])
  {
    assert x in s;
  }

  lemma Headless(s: seq<Key>)
    requires s != []
    ensures multiset(s[1..]) == multiset(s) - multiset{s[0]}
  {
    assert [s[0]] + s[1..] == s;
  }

  lemma SortUnique(a: seq<Key>, b: seq<Key>)
    requires multiset(a) == multiset(b)
    ensures Sort(a) == Sort(b)
  {
    SortMultiset(a);
    SortMultiset(b);
    SortSorted(a);
    SortSorted(b);
    SortedUnique(Sort(a), Sort(b));
  }

  // ---- laws ---------------------------------------------------------------

  /** Conflict is symmetric. */
  lemma {:induction false} MergeableSymmetric<V>(a: Patch<V>, b: Patch<V>)
    ensures Mergeable(a, b) <==> Mergeable(b, a)
    decreases a
  {
    forall k | SharedNests(a, b, k)
      ensures Mergeable(a.update[k].patch, b.update[k].patch) <==> Mergeable(b.update[k].patch, a.update[k].patch)
    {
      MergeableSymmetric(a.update[k].patch, b.update[k].patch);
    }
  }

  /** A reported conflict is real. */
  lemma {:induction false} ConflictIsReal<V>(a: Patch<V>, b: Patch<V>, path: seq<Key>)
    requires ConflictAt(a, b, path)
    ensures !Mergeable(a, b)
    decreases a
  {
    var k := path[0];
    assert Touches(a, k) && Touches(b, k);
    if SharedNests(a, b, k) {
      ConflictIsReal(a.update[k].patch, b.update[k].patch, path[1..]);
    }
  }

  lemma DistinctAt<V>(p: Patch<V>, k: Key)
    requires Distinct(p)
    ensures k in p.create ==> k !in p.update && k !in p.delete
    ensures k in p.update ==> k !in p.create && k !in p.delete
    ensures k in p.delete ==> k !in p.create && k !in p.update
  {
  }

  /** Merging is commutative. */
  lemma {:induction false} MergeCommutes(a: Patch<Json>, b: Patch<Json>)
    requires WellFormed(a) && WellFormed(b) && Mergeable(a, b)
    ensures Mergeable(b, a) && Merged(a, b) == Merged(b, a)
    decreases a
  {
    MergeableSymmetric(a, b);
    if !Blank(a) && !Blank(b) {
      SortUnique(a.delete + b.delete, b.delete + a.delete);
      var m, n := Merged(a, b), Merged(b, a);
      forall k
        ensures k in m.create <==> k in n.create
        ensures k in m.create ==> m.create[k] == n.create[k]
        ensures k in m.update <==> k in n.update
        ensures k in m.update ==> m.update[k] == n.update[k]
      {
        hide Merged, Mergeable;
        CommutesAt(a, b, k);
      }
      SamePatch(m, n);
    }
  }

  lemma SamePatch<V>(m: Patch<V>, n: Patch<V>)
    requires forall k :: k in m.create <==> k in n.create
    requires forall k :: k in m.create ==> m.create[k] == n.create[k]
    requires forall k :: k in m.update <==> k in n.update
    requires forall k :: k in m.update ==> m.update[k] == n.update[k]
    requires m.delete == n.delete
    ensures m == n
  {
    forall k
      ensures k in m.create <==> k in n.create
      ensures k in m.create ==> m.create[k] == n.create[k]
      ensures k in m.update <==> k in n.update
      ensures k in m.update ==> m.update[k] == n.update[k]
    {
    }
    assert m.create == n.create;
    assert m.update == n.update;
  }

  lemma CommutesAt(a: Patch<Json>, b: Patch<Json>, k: Key)
    requires WellFormed(a) && WellFormed(b) && Mergeable(a, b) && Mergeable(b, a) && !Blank(a) && !Blank(b)
    ensures
      var m, n := Merged(a, b), Merged(b, a);
      && (k in m.create <==> k in n.create) && (k in m.create ==> m.create[k] == n.create[k])
      && (k in m.update <==> k in n.update) && (k in m.update ==> m.update[k] == n.update[k])
    decreases a, 0
  {
    hide Merged, Mergeable, Distinct;
    MergedAt(a, b, k);
    MergedAt(b, a, k);
    DistinctAt(a, k);
    DistinctAt(b, k);
    if Touches(a, k) && Touches(b, k) {
      MergeCommutes(a.update[k].patch, b.update[k].patch);
    }
  }

  lemma RepeatsCounted(s: seq<Key>)
    ensures NoRepeats(s) <==> forall k :: multiset(s)[k] <= 1
  {
    if s != [] {
      var rest := s[1..];
      RepeatsCounted(rest);
      assert s == [s[0]] + rest;
      assert NoRepeats(s) <==> NoRepeats(rest) && s[0] !in rest by {
        if NoRepeats(rest) && s[0] !in rest {
          forall i, j | 0 <= i < j < |s|
            ensures s[i] != s[j]
          {
            assert s[j] == rest[j - 1];
            if i > 0 {
              assert s[i] == rest[i - 1];
            }
          }
        }
        if NoRepeats(s) {
          forall i, j | 0 <= i < j < |rest|
            ensures rest[i] != rest[j]
          {
            assert s[i + 1] == rest[i] && s[j + 1] == rest[j];
          }
          forall i | 0 <= i < |rest|
            ensures rest[i] != s[0]
          {
            assert s[i + 1] == rest[i];
          }
        }
      }
      assert s[0] in rest <==> multiset(rest)[s[0]] >= 1;
      forall k
        ensures multiset(s)[k] == multiset(rest)[k] + if k == s[0] then 1 else 0
      {
      }
    }
  }

  lemma DeletesApart(a: seq<Key>, b: seq<Key>)
    requires NoRepeats(a) && NoRepeats(b) && forall k :: k in a ==> k !in b
    ensures NoRepeats(Sort(a + b))
  {
    hide *;
    RepeatsCounted(a);
    RepeatsCounted(b);
    RepeatsCounted(Sort(a + b));
    SortMultiset(a + b);
    forall k
      ensures multiset(a + b)[k] <= 1
    {
      assert k in a <==> k in multiset(a);
      assert k in b <==> k in multiset(b);
    }
  }

  lemma WellFormedAt(p: Patch<Json>, k: Key)
    requires WellFormed(p)
    ensures Distinct(p)
    ensures k in p.create ==> k !in p.update && k !in p.delete
    ensures k in p.update ==> k !in p.create && k !in p.delete
    ensures k in p.delete ==> k !in p.create && k !in p.update
    ensures k in p.update && p.update[k].Nested? ==> WellFormed(p.update[k].patch)
    ensures k in p.update && p.update[k].Replace? ==> p.update[k].value.Atom?
  {
  }

  lemma WellFormedFrom(p: Patch<Json>)
    requires forall k :: k in p.create ==> k !in p.update
    requires forall k :: k in p.delete ==> k !in p.create && k !in p.update
    requires NoRepeats(p.delete)
    requires forall k :: k in p.update && p.update[k].Nested? ==> WellFormed(p.update[k].patch)
    requires forall k :: k in p.update && p.update[k].Replace? ==> p.update[k].value.Atom?
    ensures WellFormed(p)
  {
  }

  /** What merging returns validates. */
  lemma {:induction false} MergedWellFormed(a: Patch<Json>, b: Patch<Json>)
    requires WellFormed(a) && WellFormed(b) && Mergeable(a, b)
    ensures WellFormed(Merged(a, b))
    decreases a
  {
    if !Blank(a) && !Blank(b) {
      var m := Merged(a, b);
      assert m.delete == Sort(a.delete + b.delete);
      forall k
        ensures k in m.create ==> k !in m.update
        ensures k in m.delete ==> k !in m.create && k !in m.update
        ensures k in a.delete ==> k !in b.delete
        ensures k in m.update && m.update[k].Nested? ==> WellFormed(m.update[k].patch)
        ensures k in m.update && m.update[k].Replace? ==> m.update[k].value.Atom?
      {
        hide Merged, Mergeable, Distinct, WellFormed;
        WellFormedAt(a, k);
        WellFormedAt(b, k);
        MergedAt(a, b, k);
        if Touches(a, k) && Touches(b, k) {
          MergedWellFormed(a.update[k].patch, b.update[k].patch);
        }
      }
      hide Merged, Mergeable, WellFormed;
      WellFormedAt(a, 0);
      WellFormedAt(b, 0);
      DeletesApart(a.delete, b.delete);
      WellFormedFrom(m);
    }
  }

  lemma MergedNotBlank<V>(a: Patch<V>, b: Patch<V>)
    requires Mergeable(a, b) && !Blank(a) && !Blank(b)
    ensures !Blank(Merged(a, b))
  {
    var m := Merged(a, b);
    if a.delete != [] {
      SortKeeps(a.delete + b.delete, a.delete[0]);
      assert a.delete[0] in m.delete;
    }
    forall k
      ensures k in a.create ==> k in m.create
      ensures k in a.update ==> k in m.update
    {
    }
    NotBlankAt(a, m);
  }

  lemma NotBlankAt<V>(a: Patch<V>, m: Patch<V>)
    requires !Blank(a) && (a.delete != [] ==> m.delete != [])
    requires forall k :: (k in a.create ==> k in m.create) && (k in a.update ==> k in m.update)
    ensures !Blank(m)
  {
    if m.create == map[] {
      forall k
        ensures k !in a.create
      {
      }
    }
    if m.update == map[] {
      forall k
        ensures k !in a.update
      {
      }
    }
  }

  /** Merging is associative. */
  lemma {:induction false} MergeAssociates(a: Patch<Json>, b: Patch<Json>, c: Patch<Json>)
    requires WellFormed(a) && WellFormed(b) && WellFormed(c)
    requires Mergeable(a, b) && Mergeable(Merged(a, b), c)
    ensures Mergeable(b, c) && Mergeable(a, Merged(b, c)) && Merged(Merged(a, b), c) == Merged(a, Merged(b, c))
    decreases a, 2
  {
    if !Blank(a) && !Blank(b) && !Blank(c) {
      hide Merged, WellFormed, Sort, Distinct;
      MergedNotBlank(a, b);
      MergedWellFormed(a, b);
      forall k | Touches(b, k) && Touches(c, k)
        ensures SharedNests(b, c, k) && Mergeable(b.update[k].patch, c.update[k].patch)
      {
        hide Mergeable;
        RightMerges(a, b, c, k);
      }
      MergedNotBlank(b, c);
      MergedWellFormed(b, c);
      var bc := Merged(b, c);
      forall k | Touches(a, k) && Touches(bc, k)
        ensures SharedNests(a, bc, k) && Mergeable(a.update[k].patch, bc.update[k].patch)
      {
        hide Mergeable;
        OuterMerges(a, b, c, k);
      }
      AssociateAll(a, b, c);
    }
  }

  /** One grouping merges exactly when the other does. */
  lemma GroupingIsFree(a: Patch<Json>, b: Patch<Json>, c: Patch<Json>)
    requires WellFormed(a) && WellFormed(b) && WellFormed(c)
    ensures Mergeable(a, b) && Mergeable(Merged(a, b), c) <==> Mergeable(b, c) && Mergeable(a, Merged(b, c))
  {
    hide *;
    if Mergeable(a, b) && Mergeable(Merged(a, b), c) {
      MergeAssociates(a, b, c);
    }
    if Mergeable(b, c) && Mergeable(a, Merged(b, c)) {
      MergeCommutes(b, c);
      MergeableSymmetric(a, Merged(b, c));
      MergeAssociates(c, b, a);
      MergeCommutes(b, a);
      MergeableSymmetric(c, Merged(b, a));
    }
  }

  lemma RightMerges(a: Patch<Json>, b: Patch<Json>, c: Patch<Json>, k: Key)
    requires WellFormed(a) && WellFormed(b) && WellFormed(c) && !Blank(a) && !Blank(b) && !Blank(c)
    requires Mergeable(a, b) && WellFormed(Merged(a, b)) && !Blank(Merged(a, b)) && Mergeable(Merged(a, b), c)
    requires Touches(b, k) && Touches(c, k)
    ensures SharedNests(b, c, k) && Mergeable(b.update[k].patch, c.update[k].patch)
    decreases a, 0
  {
    hide Merged, Mergeable, WellFormed, Distinct;
    WellFormedAt(a, k);
    WellFormedAt(b, k);
    WellFormedAt(c, k);
    WellFormedAt(Merged(a, b), k);
    MergedAt(a, b, k);
    MergedAt(Merged(a, b), c, k);
    if Touches(a, k) {
      MergeAssociates(a.update[k].patch, b.update[k].patch, c.update[k].patch);
    }
  }

  lemma OuterMerges(a: Patch<Json>, b: Patch<Json>, c: Patch<Json>, k: Key)
    requires WellFormed(a) && WellFormed(b) && WellFormed(c) && !Blank(a) && !Blank(b) && !Blank(c)
    requires Mergeable(a, b) && WellFormed(Merged(a, b)) && !Blank(Merged(a, b)) && Mergeable(Merged(a, b), c)
    requires Mergeable(b, c) && WellFormed(Merged(b, c)) && !Blank(Merged(b, c))
    requires Touches(a, k) && Touches(Merged(b, c), k)
    ensures SharedNests(a, Merged(b, c), k) && Mergeable(a.update[k].patch, Merged(b, c).update[k].patch)
    decreases a, 0
  {
    hide Merged, Mergeable, WellFormed, Distinct;
    WellFormedAt(a, k);
    WellFormedAt(b, k);
    WellFormedAt(c, k);
    WellFormedAt(Merged(a, b), k);
    MergedAt(a, b, k);
    MergedAt(b, c, k);
    MergedAt(Merged(a, b), c, k);
    if Touches(b, k) && Touches(c, k) {
      MergeAssociates(a.update[k].patch, b.update[k].patch, c.update[k].patch);
    }
  }

  lemma AssociateAll(a: Patch<Json>, b: Patch<Json>, c: Patch<Json>)
    requires WellFormed(a) && WellFormed(b) && WellFormed(c) && !Blank(a) && !Blank(b) && !Blank(c)
    requires Mergeable(a, b) && WellFormed(Merged(a, b)) && !Blank(Merged(a, b)) && Mergeable(Merged(a, b), c)
    requires Mergeable(b, c) && WellFormed(Merged(b, c)) && !Blank(Merged(b, c)) && Mergeable(a, Merged(b, c))
    ensures Merged(Merged(a, b), c) == Merged(a, Merged(b, c))
    decreases a, 1
  {
    hide Merged, Mergeable, WellFormed, Distinct;
    var m, n := Merged(Merged(a, b), c), Merged(a, Merged(b, c));
    forall k
      ensures k in m.create <==> k in n.create
      ensures k in m.create ==> m.create[k] == n.create[k]
      ensures k in m.update <==> k in n.update
      ensures k in m.update ==> m.update[k] == n.update[k]
    {
      AssociatesAt(a, b, c, k);
    }
    SortedTwice(a, b, c);
    SamePatch(m, n);
  }

  lemma MergedDeletes<V>(a: Patch<V>, b: Patch<V>)
    requires Mergeable(a, b) && !Blank(a) && !Blank(b)
    ensures Merged(a, b).delete == Sort(a.delete + b.delete)
  {
  }

  lemma SortedTwice<V>(a: Patch<V>, b: Patch<V>, c: Patch<V>)
    requires !Blank(a) && !Blank(b) && !Blank(c)
    requires Mergeable(a, b) && !Blank(Merged(a, b)) && Mergeable(Merged(a, b), c)
    requires Mergeable(b, c) && !Blank(Merged(b, c)) && Mergeable(a, Merged(b, c))
    ensures Merged(Merged(a, b), c).delete == Merged(a, Merged(b, c)).delete
  {
    hide *;
    MergedDeletes(a, b);
    MergedDeletes(b, c);
    MergedDeletes(Merged(a, b), c);
    MergedDeletes(a, Merged(b, c));
    SortMultiset(a.delete + b.delete);
    SortMultiset(b.delete + c.delete);
    SortUnique(Sort(a.delete + b.delete) + c.delete, a.delete + Sort(b.delete + c.delete));
  }

  lemma AssociatesAt(a: Patch<Json>, b: Patch<Json>, c: Patch<Json>, k: Key)
    requires WellFormed(a) && WellFormed(b) && WellFormed(c) && !Blank(a) && !Blank(b) && !Blank(c)
    requires Mergeable(a, b) && WellFormed(Merged(a, b)) && !Blank(Merged(a, b)) && Mergeable(Merged(a, b), c)
    requires Mergeable(b, c) && WellFormed(Merged(b, c)) && !Blank(Merged(b, c)) && Mergeable(a, Merged(b, c))
    ensures
      var m, n := Merged(Merged(a, b), c), Merged(a, Merged(b, c));
      && (k in m.create <==> k in n.create) && (k in m.create ==> m.create[k] == n.create[k])
      && (k in m.update <==> k in n.update) && (k in m.update ==> m.update[k] == n.update[k])
    decreases a, 0
  {
    hide Merged, Mergeable, WellFormed, Distinct;
    WellFormedAt(a, k);
    WellFormedAt(b, k);
    WellFormedAt(c, k);
    WellFormedAt(Merged(a, b), k);
    WellFormedAt(Merged(b, c), k);
    MergedAt(a, b, k);
    MergedAt(b, c, k);
    MergedAt(Merged(a, b), c, k);
    MergedAt(a, Merged(b, c), k);
    if Touches(a, k) && Touches(b, k) && Touches(c, k) {
      MergeAssociates(a.update[k].patch, b.update[k].patch, c.update[k].patch);
    }
  }

  /** The merge of two patches does to any document what doing one and then the
      other does, and fails exactly when that fails. */
  lemma {:induction false} MergedApplies(a: Patch<Json>, b: Patch<Json>, j: Json)
    requires WellFormed(a) && WellFormed(b) && Mergeable(a, b)
    ensures Applies(Merged(a, b), j) <==> Applies(a, j) && Applies(b, Applied(a, j))
    ensures Applies(Merged(a, b), j) ==> Applied(Merged(a, b), j) == Applied(b, Applied(a, j))
    decreases a, 1
  {
    if Blank(a) || Blank(b) || j.Atom? {
      BlankMerge(a, b, j);
    } else {
      hide Merged, Mergeable, WellFormed, Distinct, Allows, After, Applied;
      var m := Merged(a, b);
      if Applies(m, j) {
        forall k
          ensures Allows(a, k, At(j, k)) && Allows(b, k, After(a, k, At(j, k)))
        {
          assert Allows(m, k, At(j, k));
          MergedActs(a, b, k, At(j, k));
        }
        assert Applies(a, j);
        forall k
          ensures Allows(b, k, At(Applied(a, j), k))
        {
          AppliedAt(a, j, k);
        }
        AppliedAt(a, j, 0);
        MergedResult(a, b, j);
      }
      if Applies(a, j) && Applies(b, Applied(a, j)) {
        forall k
          ensures Allows(m, k, At(j, k))
        {
          AppliedAt(a, j, k);
          AppliedAt(b, Applied(a, j), k);
          MergedActs(a, b, k, At(j, k));
        }
      }
    }
  }

  lemma BlankMerge(a: Patch<Json>, b: Patch<Json>, j: Json)
    requires Mergeable(a, b) && (Blank(a) || Blank(b) || j.Atom?)
    ensures Applies(Merged(a, b), j) <==> Applies(a, j) && Applies(b, Applied(a, j))
    ensures Applies(Merged(a, b), j) ==> Applied(Merged(a, b), j) == Applied(b, Applied(a, j))
  {
    if Blank(a) {
      BlankApplies(a, j);
    } else if Blank(b) && Applies(a, j) {
      BlankApplies(b, Applied(a, j));
    }
  }

  lemma MergedResult(a: Patch<Json>, b: Patch<Json>, j: Json)
    requires WellFormed(a) && WellFormed(b) && Mergeable(a, b) && !Blank(a) && !Blank(b)
    requires Applies(Merged(a, b), j) && Applies(a, j) && Applies(b, Applied(a, j))
    ensures Applied(Merged(a, b), j) == Applied(b, Applied(a, j))
    decreases a, 0, 1
  {
    hide *;
    var m := Merged(a, b);
    forall k
      ensures At(Applied(m, j), k) == At(Applied(b, Applied(a, j)), k)
    {
      AppliedAt(m, j, k);
      AppliedAt(a, j, k);
      AppliedAt(b, Applied(a, j), k);
      MergedActs(a, b, k, At(j, k));
    }
    AppliedAt(m, j, 0);
    AppliedAt(b, Applied(a, j), 0);
    SameObject(Applied(m, j), Applied(b, Applied(a, j)));
  }

  lemma MergedActs(a: Patch<Json>, b: Patch<Json>, k: Key, held: Option<Json>)
    requires WellFormed(a) && WellFormed(b) && Mergeable(a, b) && !Blank(a) && !Blank(b)
    ensures Allows(Merged(a, b), k, held) <==> Allows(a, k, held) && Allows(b, k, After(a, k, held))
    ensures Allows(Merged(a, b), k, held) ==> After(Merged(a, b), k, held) == After(b, k, After(a, k, held))
    decreases a, 0, 0
  {
    hide Merged, Mergeable, WellFormed, Distinct, Applies, Applied;
    WellFormedAt(a, k);
    WellFormedAt(b, k);
    MergedAt(a, b, k);
    if Touches(a, k) && Touches(b, k) && held.Some? {
      MergedApplies(a.update[k].patch, b.update[k].patch, held.value);
    }
  }
}
