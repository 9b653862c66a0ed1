/** The versioned store as the structure a log folds into. */
module StoreReducible {
  import opened Common
  import opened Avl
  import opened Values
  import opened Patches
  import opened PatchCode
  import opened Mvcc
  import Logs

  /** What a patch does to a document, as the log sees it. */
  ghost function FoldPatch(j: Json, p: Patch<Value>): Logs.Fold<Json> {
    if !PatchSound(p) || !WellFormed(View(p)) || !Applies(View(p), j) then Logs.Reject
    else if Applied(View(p), j) == j then Logs.Same
    else Logs.New(Applied(View(p), j))
  }

  /** The documents a store keeps, oldest first. */
  ghost function Kept(snapshots: seq<Snapshot>): seq<Json>
    requires AllRooted(snapshots)
  {
    seq(|snapshots|, i requires 0 <= i < |snapshots| => State(snapshots[i]))
  }

  lemma KeptMore(snapshots: seq<Snapshot>, s: Snapshot)
    requires AllRooted(snapshots) && Rooted(s)
    ensures AllRooted(snapshots + [s]) && Kept(snapshots + [s]) == Kept(snapshots) + [State(s)]
  {
    hide Rooted;
  }

  /** Resume from a snapshot: the store keeps what the log's structure keeps when it
      is built on a view. */
  method Resume(s: Snapshot) returns (store: Store)
    requires Rooted(s) && s.version <= MAX_VERSION
    ensures fresh(store) && store.Valid() && store.Faithful() && AllRooted(store.snapshots)
    ensures store.base == s.version && Kept(store.snapshots) == [State(s)]
    ensures Shown(store.snapshots) == Logs.View(s.version, State(s))
  {
    store := new Store(s);
    hide Chain, Replays, Rooted;
    AreRooted(store);
  }

  lemma AreRooted(store: Store)
    requires store.Valid()
    ensures AllRooted(store.snapshots) && store.snapshots != [] && Rooted(Last(store.snapshots))
    ensures |store.snapshots| == |store.log| + 1
    ensures forall i :: 0 <= i < |store.snapshots| ==> store.snapshots[i].version == store.base + i
  {
    hide Rooted, AllPatchSound;
  }

  /** Look up a version: the store retains the views the log's structure retains. */
  method ViewAt(store: Store, version: nat) returns (r: Option<Snapshot>)
    requires store.Valid()
    ensures AllRooted(store.snapshots)
    ensures
      match Logs.Retained(store.base, Kept(store.snapshots), version)
      case None => r.None?
      case Some(view) => r.Some? && Rooted(r.value) && r.value.version == view.version && State(r.value) == view.state
  {
    AreRooted(store);
    r := store.SnapshotAt(version);
    hide Chain, Rooted, State;
    if r.Some? {
      var i :| 0 <= i < |store.snapshots| && store.snapshots[i] == r.value;
      assert i == version - store.base && Rooted(store.snapshots[i]);
    }
  }

  /** Make an earlier version current again: the store keeps what the log's structure
      keeps. */
  method Truncate(store: Store, version: nat)
    requires store.Valid() && store.Faithful()
    modifies store
    ensures store.Valid() && store.Faithful() && old(AllRooted(store.snapshots)) && AllRooted(store.snapshots)
    ensures Kept(store.snapshots) == Logs.Truncated(store.base, old(Kept(store.snapshots)), version)
  {
    AreRooted(store);
    ghost var were, base := store.snapshots, store.base;
    store.Truncate(version);
    AreRooted(store);
    hide Chain, Replays, Rooted, State;
    KeptCut(were, if base <= version < base + |were| then version - base + 1 else |were|);
    assert were[..|were|] == were;
  }

  lemma KeptCut(snapshots: seq<Snapshot>, n: nat)
    requires AllRooted(snapshots) && n <= |snapshots|
    ensures AllRooted(snapshots[..n]) && Kept(snapshots[..n]) == Kept(snapshots)[..n]
  {
    hide Rooted;
  }

  ghost function Shown(snapshots: seq<Snapshot>): Logs.View<Json>
    requires snapshots != [] && Rooted(Last(snapshots))
  {
    Logs.View(Last(snapshots).version, State(Last(snapshots)))
  }

  /** Stage one patch and commit it. The store meets the contract of the log's
      structure: it takes exactly the patches that validate and apply, and mints a
      version exactly when the document changes. */
  method Commit(store: Store, p: Patch<Value>) returns (r: Outcome<Option<Snapshot>>)
    requires store.Valid() && store.Faithful() && PatchSound(p)
    modifies store
    ensures store.Valid() && store.Faithful()
    ensures old(store.snapshots) != [] && Rooted(old(Last(store.snapshots)))
    ensures store.snapshots != [] && Rooted(Last(store.snapshots))
    ensures
      var v := old(Shown(store.snapshots));
      && (r.Failed? <==> !Logs.Takes(FoldPatch, v, p))
      && (r.Failed? ==> store.snapshots == old(store.snapshots) && store.log == old(store.log))
      && (r.Done? ==>
            && Shown(store.snapshots) == Logs.Next(FoldPatch, v, p)
            && (r.value.Some? <==> FoldPatch(v.state, p).New?)
            && (r.value.Some? ==>
                  r.value.value == Last(store.snapshots) && store.snapshots == old(store.snapshots) + [r.value.value])
            && (r.value.None? ==> store.snapshots == old(store.snapshots)))
  {
    CurrentVersion(store.base, store.snapshots, store.log);
    var batch := store.BeginBatch();
    hide Chain, Replays, Mvcc.Takes, Sound, Doc, AllPatchSound, WellFormed, View, Applies, Applied, PatchSound;
    var staged := batch.Apply(p);
    if staged.Failed? {
      return Failed(staged.fault);
    }
    r := Finish(store, batch, p);
  }

  method Finish(store: Store, batch: Batch, ghost p: Patch<Value>) returns (r: Outcome<Option<Snapshot>>)
    requires store.Valid() && store.Faithful() && batch.Valid() && store.snapshots != []
    requires Rooted(Last(store.snapshots))
    requires batch.owner == store.owner && batch.base == Last(store.snapshots)
    requires
      var j := State(Last(store.snapshots));
      && PatchSound(p) && WellFormed(View(p)) && Applies(View(p), j) && Doc(batch.working) == Applied(View(p), j)
      && (Doc(batch.working) == j <==> batch.patches == [])
    modifies store
    ensures store.Valid() && store.Faithful()
    ensures store.snapshots != [] && Rooted(Last(store.snapshots))
    ensures
      var v := old(Shown(store.snapshots));
      && (r.Failed? <==> !Logs.Takes(FoldPatch, v, p))
      && (r.Failed? ==> store.snapshots == old(store.snapshots) && store.log == old(store.log))
      && (r.Done? ==>
            && Shown(store.snapshots) == Logs.Next(FoldPatch, v, p)
            && (r.value.Some? <==> FoldPatch(v.state, p).New?)
            && (r.value.Some? ==>
                  r.value.value == Last(store.snapshots) && store.snapshots == old(store.snapshots) + [r.value.value])
            && (r.value.None? ==> store.snapshots == old(store.snapshots)))
  {
    CurrentVersion(store.base, store.snapshots, store.log);
    ghost var j := State(Last(store.snapshots));
    FoldCases(j, p);
    hide Chain, Replays, Mvcc.Takes, Sound, Doc, AllPatchSound, WellFormed, View, Applies, Applied, PatchSound,
      Effective, Folded, FoldPatch;
    if batch.patches == [] {
      r := Idle(store, batch);
    } else {
      r := Mint(store, batch);
    }
  }

  lemma FoldCases(j: Json, p: Patch<Value>)
    requires PatchSound(p) && WellFormed(View(p)) && Applies(View(p), j)
    ensures FoldPatch(j, p) == if Applied(View(p), j) == j then Logs.Same else Logs.New(Applied(View(p), j))
  {
  }

  method Idle(store: Store, batch: Batch) returns (r: Outcome<Option<Snapshot>>)
    requires store.Valid() && store.Faithful() && batch.Valid() && store.snapshots != [] && batch.patches == []
    requires batch.owner == store.owner && batch.base == Last(store.snapshots)
    modifies store
    ensures store.Valid() && store.Faithful() && r == Done(None)
    ensures store.snapshots == old(store.snapshots) && store.log == old(store.log)
  {
    CurrentVersion(store.base, store.snapshots, store.log);
    hide Chain, Replays, Mvcc.Takes, Sound, Doc, AllPatchSound, WellFormed, View, Applies, Applied, PatchSound,
      Effective, Folded;
    var published := store.ApplyBatch(batch);
    r := Done(None);
  }

  method Mint(store: Store, batch: Batch) returns (r: Outcome<Option<Snapshot>>)
    requires store.Valid() && store.Faithful() && batch.Valid() && store.snapshots != [] && batch.patches != []
    requires batch.owner == store.owner && batch.base == Last(store.snapshots)
    modifies store
    ensures store.Valid() && store.Faithful() && store.snapshots != [] && Rooted(Last(store.snapshots))
    ensures r.Failed? <==> old(Last(store.snapshots)).version == MAX_VERSION
    ensures r.Failed? ==> store.snapshots == old(store.snapshots) && store.log == old(store.log)
    ensures r.Done? ==>
      && Last(store.snapshots).version == old(Last(store.snapshots)).version + 1
      && State(Last(store.snapshots)) == Doc(batch.working) && r.value == Some(Last(store.snapshots))
      && store.snapshots == old(store.snapshots) + [Last(store.snapshots)]
  {
    CurrentVersion(store.base, store.snapshots, store.log);
    hide Chain, Replays, Mvcc.Takes, Sound, Doc, AllPatchSound, WellFormed, View, Applies, Applied, PatchSound,
      Effective, Folded;
    var published := store.ApplyBatch(batch);
    CurrentVersion(store.base, store.snapshots, store.log);
    if published.Failed? {
      return Failed(published.fault);
    }
    r := Done(Some(published.value.snapshot));
  }

  /** Fold one patch: the store keeps what the log's structure keeps. */
  method Apply(store: Store, p: Patch<Value>) returns (r: Outcome<Option<Snapshot>>)
    requires store.Valid() && store.Faithful() && PatchSound(p)
    modifies store
    ensures store.Valid() && store.Faithful() && old(AllRooted(store.snapshots)) && AllRooted(store.snapshots)
    ensures old(store.snapshots) != [] && Rooted(old(Last(store.snapshots)))
    ensures
      var v, kept := old(Shown(store.snapshots)), old(Kept(store.snapshots));
      var published := Logs.Takes(FoldPatch, v, p) && FoldPatch(v.state, p).New?;
      && (r.Failed? <==> !Logs.Takes(FoldPatch, v, p))
      && Kept(store.snapshots) == kept + if published then [Logs.Next(FoldPatch, v, p).state] else []
  {
    AreRooted(store);
    ghost var were := store.snapshots;
    r := Commit(store, p);
    AreRooted(store);
    hide Chain, Replays, Rooted, State, FoldPatch;
    assert Kept(were) + [] == Kept(were);
    if r.Done? && r.value.Some? {
      KeptMore(were, r.value.value);
    }
  }
}
