/** The versioned store: private batches, publication under a strict version
    check, truncation, and replay of the patch log. */
module Mvcc {
  import opened Common
  import opened Avl
  import opened Values
  import opened Patches
  import opened PatchCode

  datatype Snapshot = Snapshot(version: nat, root: Value)

  /** One published batch, in application order. */
  datatype Commit = Commit(version: nat, patches: seq<Patch<Value>>)

  datatype Fault =
    | ForeignBatch
    | Conflict(expected: nat, actual: nat)
    | VersionOverflow
    | InvalidVersion(expected: nat, actual: nat)
    | RootMustBeObject
    | EmptyBatch
    | IdentityPatch
    | Rejected(why: Error)

  datatype Outcome<T> = Done(value: T) | Failed(fault: Fault)

  datatype Published = Published(snapshot: Snapshot, record: Option<Commit>)

  /** Why a patch is refused: it is malformed, or fails at the path named. */
  ghost predicate Refused(why: Error, p: Patch<Value>, j: Json) {
    && PatchSound(p)
    && match why
       case InvalidPatch => !WellFormed(View(p))
       case Precondition(path) => WellFormed(View(p)) && FailsAt(View(p), j, path)
       case MergeConflict(_) => false
  }

  // ---- what a log means -----------------------------------------------------

  /** Every patch validates, applies and changes the document. */
  ghost predicate Effective(ps: seq<Patch<Value>>, j: Json)
    decreases |ps|, 0
  {
    ps == [] ||
    (Effective(Init(ps), j) && Changes(Last(ps), Folded(Init(ps), j)))
  }

  ghost predicate Changes(p: Patch<Value>, j: Json) {
    PatchSound(p) && WellFormed(View(p)) && Applies(View(p), j) && Applied(View(p), j) != j
  }

  ghost function Folded(ps: seq<Patch<Value>>, j: Json): Json
    requires Effective(ps, j)
    decreases |ps|, 1
  {
    if ps == [] then j else Applied(View(Last(ps)), Folded(Init(ps), j))
  }

  ghost predicate AllPatchSound(ps: seq<Patch<Value>>) {
    forall i :: 0 <= i < |ps| ==> PatchSound(ps[i])
  }

  /** The patches take one document to another, none of them idle. */
  ghost predicate Takes(j: Json, ps: seq<Patch<Value>>, k: Json) {
    Effective(ps, j) && Folded(ps, j) == k
  }

  ghost predicate Rooted(s: Snapshot) {
    Sound(s.root) && s.root.kind.Tree?
  }

  ghost function State(s: Snapshot): Json
    requires Rooted(s)
  {
    Doc(s.root)
  }

  ghost predicate AllRooted(snapshots: seq<Snapshot>) {
    forall i :: 0 <= i < |snapshots| ==> Rooted(snapshots[i])
  }

  /** Consecutive versions, and one record between each two snapshots. */
  ghost predicate Chain(base: nat, snapshots: seq<Snapshot>, log: seq<Commit>) {
    && |snapshots| == |log| + 1
    && base + |log| <= MAX_VERSION
    && AllRooted(snapshots)
    && (forall i :: 0 <= i < |snapshots| ==> snapshots[i].version == base + i)
    && (forall i :: 0 <= i < |log| ==>
        log[i].version == base + i + 1 && log[i].patches != [] && AllPatchSound(log[i].patches))
  }

  /** Each record takes the snapshot below it to the one above. */
  ghost predicate Replays(snapshots: seq<Snapshot>, log: seq<Commit>)
    requires |snapshots| == |log| + 1 && AllRooted(snapshots)
  {
    forall i :: 0 <= i < |log| ==> Takes(State(snapshots[i]), log[i].patches, State(snapshots[i + 1]))
  }

  /** Records that rebuild a state from a document: versions from one, no batch
      empty, no patch idle. */
  ghost predicate Rebuilds(records: seq<Commit>, j: Json)
    decreases |records|, 0
  {
    records == [] ||
    (var r := Last(records);
     && Rebuilds(Init(records), j)
     && r.version == |records| <= MAX_VERSION && r.patches != []
     && Effective(r.patches, Rebuilt(Init(records), j)))
  }

  ghost function Rebuilt(records: seq<Commit>, j: Json): Json
    requires Rebuilds(records, j)
    decreases |records|, 1
  {
    if records == [] then j else Folded(Last(records).patches, Rebuilt(Init(records), j))
  }

  lemma {:induction false} RebuildsPrefix(records: seq<Commit>, j: Json, i: nat)
    requires Rebuilds(records, j) && i <= |records|
    ensures Rebuilds(records[..i], j)
    decreases |records|
  {
    if i < |records| {
      RebuildsPrefix(Init(records), j, i);
      assert Init(records)[..i] == records[..i];
    } else {
      assert records[..i] == records;
    }
  }

  /** A store's own log rebuilds the store's own snapshots. */
  lemma {:induction false} OwnLogRebuilds(snapshots: seq<Snapshot>, log: seq<Commit>, n: nat)
    requires Chain(0, snapshots, log) && Replays(snapshots, log) && n <= |log|
    ensures Rebuilds(log[..n], State(snapshots[0]))
    ensures Rebuilt(log[..n], State(snapshots[0])) == State(snapshots[n])
    decreases n
  {
    if n > 0 {
      hide Effective, Folded, Doc, Sound, AllPatchSound;
      OwnLogRebuilds(snapshots, log, n - 1);
      assert Init(log[..n]) == log[..n - 1];
      assert Takes(State(snapshots[n - 1]), log[n - 1].patches, State(snapshots[n]));
    }
  }

  // ---- batches --------------------------------------------------------------

  /** Identifies one store; compared by reference. */
  class Owner {
    constructor () {}
  }

  class Batch {
    const owner: Owner
    const base: Snapshot
    var working: Value
    var patches: seq<Patch<Value>>

    ghost predicate Valid()
      reads this
    {
      && Rooted(base) && Sound(working) && working.kind.Tree?
      && AllPatchSound(patches)
      && Takes(State(base), patches, Doc(working))
    }

    constructor (owner: Owner, base: Snapshot)
      requires Rooted(base)
      ensures Valid() && this.owner == owner && this.base == base && working == base.root && patches == []
    {
      this.owner, this.base, working, patches := owner, base, base.root, [];
    }

    /** A patch that fails leaves the batch alone; one that changes nothing is not
        recorded. */
    method Apply(patch: Patch<Value>) returns (r: Outcome<()>)
      requires Valid() && PatchSound(patch)
      modifies this
      ensures Valid()
      ensures r.Done? <==> WellFormed(View(patch)) && Applies(View(patch), old(Doc(working)))
      ensures r.Failed? ==> working == old(working) && patches == old(patches) && r.fault.Rejected?
      ensures r.Failed? ==> Refused(r.fault.why, patch, old(Doc(working)))
      ensures r.Done? ==>
        && Doc(working) == Applied(View(patch), old(Doc(working)))
        && if Doc(working) == old(Doc(working)) then working == old(working) && patches == old(patches)
           else patches == old(patches) + [patch]
    {
      hide Sound, Doc, Takes, Effective, Folded, AllPatchSound, PatchSound, WellFormed, View, Applies, Applied;
      ghost var j := Doc(working);
      var next := PatchCode.Apply(patch, working);
      if next.Err? {
        return Failed(Rejected(next.error));
      }
      if next.value != working {
        EffectiveMore(State(base), patches, j, patch);
        StaysObject(patch, working, next.value);
        patches := patches + [patch];
        working := next.value;
      }
      r := Done(());
    }
  }

  lemma EffectiveMore(from: Json, ps: seq<Patch<Value>>, j: Json, p: Patch<Value>)
    requires Takes(from, ps, j) && AllPatchSound(ps) && Changes(p, j)
    ensures Takes(from, ps + [p], Applied(View(p), j)) && AllPatchSound(ps + [p])
  {
    hide Changes, WellFormed, Applies, Applied, View, PatchSound;
    ChangesParts(p, j);
    assert Init(ps + [p]) == ps && Last(ps + [p]) == p;
  }

  lemma ChangesParts(p: Patch<Value>, j: Json)
    requires Changes(p, j)
    ensures PatchSound(p) && WellFormed(View(p)) && Applies(View(p), j) && Applied(View(p), j) != j
  {
    hide WellFormed, Applies, Applied, View, PatchSound;
  }

  lemma StaysObject(p: Patch<Value>, v: Value, next: Value)
    requires PatchSound(p) && Sound(v) && Sound(next) && Applies(View(p), Doc(v))
    requires Doc(next) == Applied(View(p), Doc(v))
    ensures next.kind.Tree?
  {
    AppliedAt(View(p), Doc(v), 0);
    hide View, Applies, Applied;
  }

  // ---- the store --------------------------------------------------------------

  lemma ChainMore(base: nat, snapshots: seq<Snapshot>, log: seq<Commit>, next: Snapshot, record: Commit)
    requires Chain(base, snapshots, log) && next.version == record.version == base + |log| + 1 <= MAX_VERSION
    requires Rooted(next) && record.patches != [] && AllPatchSound(record.patches)
    ensures snapshots != [] && Rooted(Last(snapshots))
    ensures Chain(base, snapshots + [next], log + [record])
    ensures Replays(snapshots + [next], log + [record]) <==>
      Replays(snapshots, log) && Takes(State(Last(snapshots)), record.patches, State(next))
  {
    hide Rooted, State, Takes, AllPatchSound;
    var more, records := snapshots + [next], log + [record];
    assert forall i :: 0 <= i < |snapshots| ==> more[i] == snapshots[i];
    assert forall i :: 0 <= i < |log| ==> records[i] == log[i];
    if Replays(more, records) {
      forall i | 0 <= i < |log|
        ensures Takes(State(snapshots[i]), log[i].patches, State(snapshots[i + 1]))
      {
        assert Takes(State(more[i]), records[i].patches, State(more[i + 1]));
      }
      assert Takes(State(more[|log|]), records[|log|].patches, State(more[|log| + 1]));
    }
  }

  lemma ChainLess(base: nat, snapshots: seq<Snapshot>, log: seq<Commit>, keep: nat)
    requires Chain(base, snapshots, log) && keep <= |log|
    ensures Chain(base, snapshots[..keep + 1], log[..keep])
    ensures Replays(snapshots, log) ==> Replays(snapshots[..keep + 1], log[..keep])
  {
    hide Sound, Doc, Takes, AllPatchSound;
    if Replays(snapshots, log) {
      forall i | 0 <= i < keep
        ensures Takes(State(snapshots[..keep + 1][i]), log[..keep][i].patches, State(snapshots[..keep + 1][i + 1]))
      {
        assert Takes(State(snapshots[i]), log[i].patches, State(snapshots[i + 1]));
      }
    }
  }

  lemma CurrentVersion(base: nat, snapshots: seq<Snapshot>, log: seq<Commit>)
    requires Chain(base, snapshots, log)
    ensures snapshots != [] && Rooted(Last(snapshots)) && Last(snapshots).version == base + |log|
  {
    hide Sound, Takes, AllPatchSound;
  }

  lemma OnlyRoot(base: nat, s: Snapshot)
    requires Rooted(s) && s.version == base <= MAX_VERSION
    ensures Chain(base, [s], []) && Replays([s], [])
  {
  }

  class Store {
    const owner: Owner
    const base: nat
    var snapshots: seq<Snapshot>
    var log: seq<Commit>

    ghost predicate Valid()
      reads this
    {
      Chain(base, snapshots, log)
    }

    /** Every record of the log takes its snapshot to the next. */
    ghost predicate Faithful()
      requires Valid()
      reads this
    {
      Replays(snapshots, log)
    }

    /** Resume from a snapshot, which becomes the base. */
    constructor (s: Snapshot)
      requires Rooted(s) && s.version <= MAX_VERSION
      ensures Valid() && Faithful() && base == s.version && snapshots == [s] && log == []
      ensures fresh(owner)
    {
      var o := new Owner();
      owner, base, snapshots, log := o, s.version, [s], [];
      OnlyRoot(s.version, s);
    }

    static method FromValue(root: Value) returns (r: Outcome<Store>)
      requires Sound(root)
      ensures r.Done? <==> root.kind.Tree?
      ensures r.Failed? ==> r.fault == RootMustBeObject
      ensures r.Done? ==>
        && fresh(r.value) && fresh(r.value.owner) && r.value.Valid() && r.value.Faithful()
        && r.value.base == 0 && r.value.snapshots == [Snapshot(0, root)] && r.value.log == []
    {
      hide Chain, Replays, Sound;
      if root.kind.Scalar? {
        return Failed(RootMustBeObject);
      }
      var s := new Store(Snapshot(0, root));
      r := Done(s);
    }

    method SnapshotAt(version: nat) returns (r: Option<Snapshot>)
      requires Valid()
      ensures r.Some? <==> base <= version <= base + |log|
      ensures r.Some? ==> r.value.version == version && r.value in snapshots
    {
      if version < base || version - base >= |snapshots| {
        return None;
      }
      r := Some(snapshots[version - base]);
    }

    /** The records of the versions above `after`, up to `through`. */
    method PatchesBetween(after: nat, through: nat) returns (r: Option<seq<Commit>>)
      requires Valid()
      ensures r.Some? <==> base <= after <= through <= base + |log|
      ensures r.Some? ==> |r.value| == through - after && forall i :: 0 <= i < |r.value| ==>
        r.value[i].version == after + 1 + i && r.value[i] == log[after + i - base]
    {
      if after > through || after < base || through - base > |log| {
        return None;
      }
      r := Some(log[after - base..through - base]);
    }

    /** Make an earlier version current again. */
    method Truncate(version: nat)
      requires Valid()
      modifies this
      ensures Valid() && (old(Faithful()) ==> Faithful())
      ensures base <= version < base + old(|log|) ==>
        snapshots == old(snapshots)[..version - base + 1] && log == old(log)[..version - base]
      ensures !(base <= version < base + old(|log|)) ==> snapshots == old(snapshots) && log == old(log)
    {
      if version < base {
        return;
      }
      var keep := version - base;
      if keep + 1 >= |snapshots| {
        return;
      }
      ChainLess(base, snapshots, log, keep);
      hide Chain, Replays;
      snapshots := snapshots[..keep + 1];
      log := log[..keep];
    }

    method BeginBatch() returns (b: Batch)
      requires Valid()
      ensures snapshots != [] && fresh(b) && b.Valid()
      ensures b.owner == owner && b.base == Last(snapshots) && b.working == b.base.root && b.patches == []
    {
      CurrentVersion(base, snapshots, log);
      hide Chain, Replays;
      b := new Batch(owner, snapshots[|snapshots| - 1]);
    }

    /** Publish a batch. Nothing changes unless it is the store's own, stands on
        the current version and changed something. */
    method ApplyBatch(batch: Batch) returns (r: Outcome<Published>)
      requires Valid() && batch.Valid()
      modifies this
      ensures Valid() && old(snapshots) != []
      ensures batch.owner != owner ==> r == Failed(ForeignBatch)
      ensures batch.owner == owner && batch.base.version != base + old(|log|) ==>
        r == Failed(Conflict(batch.base.version, base + old(|log|)))
      ensures batch.owner == owner && batch.base.version == base + old(|log|) ==>
        if batch.patches == [] then r == Done(Published(old(Last(snapshots)), None))
        else if base + old(|log|) == MAX_VERSION then r == Failed(VersionOverflow)
        else
          var record, next :=
            Commit(base + old(|log|) + 1, batch.patches), Snapshot(base + old(|log|) + 1, batch.working);
          && r == Done(Published(next, Some(record)))
          && snapshots == old(snapshots) + [next] && log == old(log) + [record]
      ensures r.Failed? || r.value.record.None? ==> snapshots == old(snapshots) && log == old(log)
      ensures r.Done? && r.value.record.Some? ==>
        (Faithful() <==> old(Faithful()) && Takes(old(State(Last(snapshots))), batch.patches, Doc(batch.working)))
      ensures old(Faithful()) && State(batch.base) == old(State(Last(snapshots))) ==> Faithful()
    {
      CurrentVersion(base, snapshots, log);
      hide Chain, Replays, Takes, Sound, Doc, AllPatchSound, Effective, Folded, PatchSound, WellFormed, View, Applies,
        Applied;
      if batch.owner != owner {
        return Failed(ForeignBatch);
      }
      var current := snapshots[|snapshots| - 1];
      if current.version != batch.base.version {
        return Failed(Conflict(batch.base.version, current.version));
      }
      if batch.patches == [] {
        return Done(Published(current, None));
      }
      if current.version == MAX_VERSION {
        return Failed(VersionOverflow);
      }
      var record := Commit(current.version + 1, batch.patches);
      var next := Snapshot(current.version + 1, batch.working);
      Push(next, record);
      r := Done(Published(next, Some(record)));
    }

    method Push(next: Snapshot, record: Commit)
      requires Valid() && Rooted(next) && record.patches != [] && AllPatchSound(record.patches)
      requires next.version == record.version == base + |log| + 1 <= MAX_VERSION
      modifies this
      ensures Valid() && old(snapshots) != [] && Rooted(old(Last(snapshots)))
      ensures snapshots == old(snapshots) + [next] && log == old(log) + [record]
      ensures Faithful() <==> old(Faithful()) && Takes(old(State(Last(snapshots))), record.patches, State(next))
    {
      ChainMore(base, snapshots, log, next, record);
      hide Chain, Replays, Takes, Rooted, State, AllPatchSound;
      log := log + [record];
      snapshots := snapshots + [next];
    }
  }

  // ---- replay ---------------------------------------------------------------

  lemma {:induction false} EffectivePrefix(ps: seq<Patch<Value>>, j: Json, k: nat)
    requires Effective(ps, j) && k <= |ps|
    ensures Effective(ps[..k], j)
    ensures k < |ps| ==> Changes(ps[k], Folded(ps[..k], j))
    decreases |ps|
  {
    hide Changes;
    if k < |ps| {
      assert Init(ps)[..k] == ps[..k];
      if k < |ps| - 1 {
        EffectivePrefix(Init(ps), j, k);
        assert Init(ps)[k] == ps[k];
      }
      assert Init(ps)[..|ps| - 1] == Init(ps);
    } else {
      assert ps[..k] == ps;
    }
  }

  /** What the next record of a log must be. */
  ghost predicate Follows(record: Commit, version: nat, j: Json) {
    record.version == version <= MAX_VERSION && record.patches != [] && Effective(record.patches, j)
  }

  lemma Idle(ps: seq<Patch<Value>>, j: Json, k: nat, now: Json)
    requires k < |ps| && Takes(j, ps[..k], now) && PatchSound(ps[k])
    requires !(WellFormed(View(ps[k])) && Applies(View(ps[k]), now) && Applied(View(ps[k]), now) != now)
    ensures !Effective(ps, j)
  {
    if Effective(ps, j) {
      EffectivePrefix(ps, j, k);
      TakesOnce(ps[..k], j, now);
      hide *;
      ChangesParts(ps[k], now);
    }
  }

  lemma TakesOnce(ps: seq<Patch<Value>>, j: Json, now: Json)
    requires Takes(j, ps, now)
    ensures Effective(ps, j) && Folded(ps, j) == now
  {
    hide Effective, Folded;
  }

  /** Why patches are no batch: the first of them that is refused, or that changes
      nothing. */
  ghost predicate Ineffective(fault: Fault, patches: seq<Patch<Value>>, j: Json) {
    exists k: nat :: k < |patches| && IneffectiveAt(fault, patches, j, k)
  }

  ghost predicate IneffectiveAt(fault: Fault, patches: seq<Patch<Value>>, j: Json, k: nat)
    requires k < |patches|
  {
    && Effective(patches[..k], j) && PatchSound(patches[k])
    && match fault
       case IdentityPatch =>
         var now := Folded(patches[..k], j);
         WellFormed(View(patches[k])) && Applies(View(patches[k]), now) && Applied(View(patches[k]), now) == now
       case Rejected(why) => Refused(why, patches[k], Folded(patches[..k], j))
       case _ => false
  }

  /** Why a record does not follow. */
  ghost predicate WhyNot(fault: Fault, record: Commit, version: nat, j: Json) {
    if version > MAX_VERSION then fault == VersionOverflow
    else if record.version != version then fault == InvalidVersion(version, record.version)
    else if record.patches == [] then fault == EmptyBatch
    else Ineffective(fault, record.patches, j)
  }

  /** Build the batch of one record; every patch must change something. */
  method Refill(batch: Batch, patches: seq<Patch<Value>>) returns (r: Outcome<()>)
    requires batch.Valid() && batch.patches == [] && AllPatchSound(patches)
    modifies batch
    ensures batch.Valid()
    ensures r.Done? <==> Effective(patches, State(batch.base))
    ensures r.Failed? ==> Ineffective(r.fault, patches, State(batch.base))
    ensures r.Done? ==> batch.patches == patches
  {
    hide Sound, Doc, Takes, Effective, Folded, AllPatchSound, PatchSound, WellFormed, View, Applies, Applied;
    for i := 0 to |patches|
      invariant batch.Valid() && batch.patches == patches[..i]
    {
      r := RefillOne(batch, patches, i);
      if r.Failed? {
        return;
      }
    }
    assert patches[..|patches|] == patches;
    TakesOnce(patches, State(batch.base), Doc(batch.working));
    r := Done(());
  }

  method RefillOne(batch: Batch, patches: seq<Patch<Value>>, i: nat) returns (r: Outcome<()>)
    requires batch.Valid() && i < |patches| && batch.patches == patches[..i] && AllPatchSound(patches)
    modifies batch
    ensures batch.Valid()
    ensures r.Failed? ==>
      !Effective(patches, State(batch.base)) && IneffectiveAt(r.fault, patches, State(batch.base), i)
    ensures r.Done? ==> batch.patches == patches[..i + 1]
  {
    hide Sound, Doc, Takes, Effective, Folded, AllPatchSound, PatchSound, WellFormed, View, Applies, Applied, Refused;
    ghost var now := Doc(batch.working);
    TakesOnce(patches[..i], State(batch.base), now);
    SoundPatchAt(patches, i);
    var before := |batch.patches|;
    r := batch.Apply(patches[i]);
    if r.Failed? {
      Idle(patches, State(batch.base), i, now);
      return;
    }
    if |batch.patches| == before {
      Idle(patches, State(batch.base), i, now);
      return Failed(IdentityPatch);
    }
    assert patches[..i + 1] == patches[..i] + [patches[i]];
  }

  lemma SoundPatchAt(ps: seq<Patch<Value>>, i: nat)
    requires AllPatchSound(ps) && i < |ps|
    ensures PatchSound(ps[i])
  {
  }

  method ReplayOne(store: Store, record: Commit) returns (r: Outcome<()>)
    requires store.Valid() && store.Faithful() && store.base == 0 && AllPatchSound(record.patches)
    modifies store
    ensures store.Valid() && store.Faithful() && old(store.snapshots) != [] && store.snapshots != []
    ensures r.Done? <==> Follows(record, old(|store.log|) + 1, old(State(Last(store.snapshots))))
    ensures r.Failed? ==> WhyNot(r.fault, record, old(|store.log|) + 1, old(State(Last(store.snapshots))))
    ensures r.Done? ==> store.log == old(store.log) + [record] && store.snapshots[0] == old(store.snapshots[0])
  {
    CurrentVersion(0, store.snapshots, store.log);
    hide Chain, Replays, Takes, Sound, Doc, AllPatchSound, Effective, Ineffective;
    var current := store.snapshots[|store.snapshots| - 1];
    if current.version == MAX_VERSION {
      return Failed(VersionOverflow);
    }
    if record.version != current.version + 1 {
      return Failed(InvalidVersion(current.version + 1, record.version));
    }
    if record.patches == [] {
      return Failed(EmptyBatch);
    }
    var batch := store.BeginBatch();
    r := Refill(batch, record.patches);
    if r.Failed? {
      return;
    }
    PublishRecord(store, batch, record);
  }

  method PublishRecord(store: Store, batch: Batch, record: Commit)
    requires store.Valid() && store.Faithful() && store.base == 0 && batch.Valid() && store.snapshots != []
    requires batch.owner == store.owner && batch.base == Last(store.snapshots) && batch.patches == record.patches != []
    requires record.version == |store.log| + 1 <= MAX_VERSION
    modifies store
    ensures store.Valid() && store.Faithful()
    ensures store.log == old(store.log) + [record] && store.snapshots != []
    ensures store.snapshots[0] == old(store.snapshots[0])
  {
    CurrentVersion(0, store.snapshots, store.log);
    hide Chain, Replays, Takes, Sound, Doc, AllPatchSound, Effective;
    var published := store.ApplyBatch(batch);
    assert record == Commit(record.version, batch.patches);
  }

  lemma NotRebuilt(records: seq<Commit>, j: Json, i: nat)
    requires i < |records| && Rebuilds(records[..i], j) && !Follows(records[i], i + 1, Rebuilt(records[..i], j))
    ensures !Rebuilds(records, j)
  {
    hide *;
    if Rebuilds(records, j) {
      RebuildsPrefix(records, j, i + 1);
      LastFollows(records[..i + 1], j);
      LastOfPrefix(records, i);
    }
  }

  lemma LastOfPrefix<T>(s: seq<T>, i: nat)
    requires i < |s|
    ensures Init(s[..i + 1]) == s[..i] && Last(s[..i + 1]) == s[i]
  {
  }

  lemma LastFollows(records: seq<Commit>, j: Json)
    requires Rebuilds(records, j) && records != []
    ensures Rebuilds(Init(records), j) && Follows(Last(records), |records|, Rebuilt(Init(records), j))
  {
    hide Effective, Folded;
  }

  /** The first record that does not follow those before it, and why. */
  ghost predicate StopsAt(fault: Fault, records: seq<Commit>, j: Json, i: nat) {
    i < |records| && Rebuilds(records[..i], j) && WhyNot(fault, records[i], i + 1, Rebuilt(records[..i], j))
  }

  /** Rebuild a store from an initial document and contiguous records. */
  method Replay(initial: Value, records: seq<Commit>) returns (r: Outcome<Store>)
    requires Sound(initial) && forall i :: 0 <= i < |records| ==> AllPatchSound(records[i].patches)
    ensures r.Done? <==> initial.kind.Tree? && Rebuilds(records, Doc(initial))
    ensures r.Failed? ==> if initial.kind.Scalar? then r.fault == RootMustBeObject
      else exists i: nat :: StopsAt(r.fault, records, Doc(initial), i)
    ensures r.Done? ==>
      && fresh(r.value) && r.value.Valid() && r.value.Faithful() && r.value.base == 0
      && r.value.log == records && r.value.snapshots != [] && r.value.snapshots[0] == Snapshot(0, initial)
  {
    hide Chain, Replays, Sound, Doc, AllPatchSound, Follows, Rebuilds, Rebuilt, WhyNot;
    var made := Store.FromValue(initial);
    if made.Failed? {
      return made;
    }
    var store := made.value;
    for i := 0 to |records|
      invariant fresh(store) && store.Valid() && store.Faithful() && store.base == 0
      invariant store.log == records[..i]
      invariant store.snapshots != [] && store.snapshots[0] == Snapshot(0, initial)
    {
      OwnState(store.snapshots, store.log);
      assert records[..i + 1] == records[..i] + [records[i]];
      var one := ReplayOne(store, records[i]);
      if one.Failed? {
        NotRebuilt(records, Doc(initial), i);
        assert StopsAt(one.fault, records, Doc(initial), i);
        return Failed(one.fault);
      }
    }
    OwnState(store.snapshots, store.log);
    assert records[..|records|] == records;
    r := Done(store);
  }

  lemma OwnState(snapshots: seq<Snapshot>, log: seq<Commit>)
    requires Chain(0, snapshots, log) && Replays(snapshots, log)
    ensures snapshots != [] && Rooted(snapshots[0]) && Rooted(Last(snapshots))
    ensures Rebuilds(log, State(snapshots[0])) && Rebuilt(log, State(snapshots[0])) == State(Last(snapshots))
  {
    OwnLogRebuilds(snapshots, log, |log|);
    assert log[..|log|] == log;
    hide Rebuilds, Rebuilt, Sound, Doc, Effective, AllPatchSound, Takes;
  }

  /** Replaying a store's own log from its initial value succeeds and gives equal
      snapshots at every version. */
  method ReplayOwn(s: Store) returns (t: Store)
    requires s.Valid() && s.Faithful() && s.base == 0
    ensures t.Valid() && t.Faithful() && t.base == 0 && t.log == s.log && |t.snapshots| == |s.snapshots|
    ensures forall i :: 0 <= i < |s.snapshots| ==>
      && Rooted(s.snapshots[i]) && Rooted(t.snapshots[i])
      && t.snapshots[i].version == s.snapshots[i].version && State(t.snapshots[i]) == State(s.snapshots[i])
  {
    OwnState(s.snapshots, s.log);
    LogSound(s.snapshots, s.log);
    hide Replays, Sound, Doc, AllPatchSound, Rebuilds, Rebuilt, Chain;
    var r := Replay(s.snapshots[0].root, s.log);
    t := r.value;
    SameSnapshots(s.snapshots, t.snapshots, s.log);
  }

  lemma LogSound(snapshots: seq<Snapshot>, log: seq<Commit>)
    requires Chain(0, snapshots, log)
    ensures forall i :: 0 <= i < |log| ==> AllPatchSound(log[i].patches)
    ensures snapshots != [] && snapshots[0].version == 0
  {
    hide AllPatchSound, Sound;
  }

  lemma SameSnapshots(a: seq<Snapshot>, b: seq<Snapshot>, log: seq<Commit>)
    requires Chain(0, a, log) && Chain(0, b, log) && Replays(a, log) && Replays(b, log)
    requires a != [] && b != [] && Rooted(a[0]) && Rooted(b[0]) && State(a[0]) == State(b[0])
    ensures |a| == |b|
    ensures forall i :: 0 <= i < |a| ==>
      Rooted(a[i]) && Rooted(b[i]) && b[i].version == a[i].version && State(b[i]) == State(a[i])
  {
    hide Sound, Doc, AllPatchSound, Takes, Rebuilds, Rebuilt;
    forall i | 0 <= i < |a|
      ensures State(b[i]) == State(a[i])
    {
      OwnLogRebuilds(a, log, i);
      OwnLogRebuilds(b, log, i);
    }
  }

  // ---- a batch held across a truncation -----------------------------------

  /** The patch that creates one key. */
  function Creating(k: Key, v: Value): Patch<Value> {
    Patch(map[k := v], map[], [])
  }

  lemma CreatingChanges(k: Key, v: Value, j: Json)
    requires Sound(v) && j.Object?
    ensures PatchSound(Creating(k, v)) && WellFormed(View(Creating(k, v)))
    ensures k !in j.fields ==>
      Applies(View(Creating(k, v)), j) && Applied(View(Creating(k, v)), j) == Object(j.fields[k := Doc(v)])
  {
    var p := Creating(k, v);
    var q := View(p);
    assert q.create == map[k := Doc(v)] && q.update == map[] && q.delete == [];
    if k !in j.fields {
      forall x
        ensures Allows(q, x, At(j, x))
        ensures After(q, x, At(j, x)) == At(Object(j.fields[k := Doc(v)]), x)
      {
      }
      forall x
        ensures At(Applied(q, j), x) == At(Object(j.fields[k := Doc(v)]), x)
      {
        AppliedAt(q, j, x);
      }
      AppliedAt(q, j, 0);
      SameObject(Applied(q, j), Object(j.fields[k := Doc(v)]));
    }
  }

  /** Publish one created key. */
  method Mint(s: Store, k: Key, v: Value)
    requires s.Valid() && s.Faithful() && s.base + |s.log| < MAX_VERSION && Sound(v)
    requires s.snapshots != [] && Rooted(Last(s.snapshots)) && k !in State(Last(s.snapshots)).fields
    modifies s
    ensures s.Valid() && s.Faithful() && |s.snapshots| == old(|s.snapshots|) + 1
    ensures s.snapshots[..old(|s.snapshots|)] == old(s.snapshots)
    ensures |s.log| == old(|s.log|) + 1
    ensures State(Last(s.snapshots)) == Object(old(State(Last(s.snapshots))).fields[k := Doc(v)])
  {
    CurrentVersion(s.base, s.snapshots, s.log);
    ghost var j := State(Last(s.snapshots));
    CreatingChanges(k, v, j);
    var b := s.BeginBatch();
    hide Chain, Replays, Takes, Sound, Doc, AllPatchSound, PatchSound, WellFormed, View, Applies, Applied;
    var applied := b.Apply(Creating(k, v));
    assert k in Object(j.fields[k := Doc(v)]).fields;
    var r := s.ApplyBatch(b);
    CurrentVersion(s.base, s.snapshots, s.log);
  }

  /** A batch begun at a version that is then truncated and minted again still
      passes the version check, though the snapshot it is based on is gone, and the
      log no longer leads from snapshot to snapshot. */
  method HeldAcrossTruncate()
    returns (s: Store, held: Batch, ghost before: seq<Snapshot>, ghost faithful: bool, r: Outcome<Published>)
    ensures s.Valid() && held.Valid() && held.owner == s.owner && held.patches != []
    ensures faithful && before != [] && held.base !in before && held.base.version == Last(before).version
    ensures r.Done? && r.value.record.Some? && s.snapshots == before + [r.value.snapshot]
    ensures r.value.snapshot.root == held.working
    ensures !s.Faithful()
  {
    hide Chain, Replays, Takes, Sound, Doc, AllPatchSound, PatchSound, WellFormed, View, Applies, Applied, Rebuilds,
      Rebuilt;
    var root := FromJson(Object(map[]));
    ObjectIsTree(root);
    var leaf := MakeLeaf(0);
    var made := Store.FromValue(root);
    s := made.value;
    CurrentVersion(s.base, s.snapshots, s.log);
    Mint(s, 1, leaf);
    CurrentVersion(s.base, s.snapshots, s.log);
    held := s.BeginBatch();
    CreatingChanges(2, leaf, State(Last(s.snapshots)));
    var applied := held.Apply(Creating(2, leaf));
    assert 1 in Doc(held.working).fields && 2 in Doc(held.working).fields;
    s.Truncate(0);
    CurrentVersion(s.base, s.snapshots, s.log);
    assert Last(s.snapshots) == Snapshot(0, root) && State(Last(s.snapshots)) == Object(map[]);
    Mint(s, 3, leaf);
    CurrentVersion(s.base, s.snapshots, s.log);
    ghost var now := State(Last(s.snapshots));
    assert [] + [Creating(2, leaf)] == [Creating(2, leaf)];
    before, faithful := s.snapshots, s.Faithful();
    r := s.ApplyBatch(held);
    assert 1 !in now.fields;
    if Takes(now, [Creating(2, leaf)], Doc(held.working)) {
      OneTakes(now, leaf, Doc(held.working));
    }
  }

  lemma ObjectIsTree(v: Value)
    requires Sound(v) && Doc(v).Object?
    ensures v.kind.Tree?
  {
  }

  lemma OneTakes(j: Json, leaf: Value, k: Json)
    requires Sound(leaf) && j.Object? && 2 !in j.fields && Takes(j, [Creating(2, leaf)], k)
    ensures k == Object(j.fields[2 := Doc(leaf)])
  {
    var ps := [Creating(2, leaf)];
    assert Init(ps) == [] && Last(ps) == Creating(2, leaf);
    CreatingChanges(2, leaf, j);
    hide View, Applies, Applied, WellFormed, PatchSound;
    assert Effective([], j) && Folded([], j) == j;
    assert Folded(ps, j) == Applied(View(Last(ps)), Folded(Init(ps), j));
  }
}
