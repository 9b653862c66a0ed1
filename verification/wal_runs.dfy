/** Whole runs of a store: appends that work, fail or cannot be cleaned up,
    flushes, checkpoints, reclamation, restarts and power cuts, in any order. */
module WalRuns {
  import opened Common
  import opened Bytes
  import opened Format
  import opened Sys
  import opened Wal
  import S = SegmentStore

  /** The header, the first version still stored or the next to be, what is on disk
      in some form, what of it a scan would find now, what of that the store stands
      by, and what of that no power cut can take. */
  datatype State = State(header: nat, origin: nat, all: seq<Record>, found: seq<Record>, accepted: seq<Record>,
    durable: seq<Record>, poisoned: bool)

  datatype Event =
    | Append(records: seq<Record>)
    | Sync
    | Publish(version: nat)
    | Reclaim
    | Restart
    | PowerCut

  ghost predicate Step(s: State, e: Event, t: State) {
    match e
    case Append(records) =>
      && t.header == s.header && t.origin == s.origin && s.durable <= t.durable
      && (if s.poisoned then t == s
          else
            || (t.accepted == t.found == t.all == s.accepted + records && !t.poisoned)
            || (t.accepted == t.found == t.all == s.accepted && !t.poisoned)
            || (t.accepted == s.accepted && t.all == s.accepted + records && t.poisoned
                && exists k: nat :: k <= |records| && t.found == s.accepted + records[..k]))
    case Sync =>
      t == s.(durable := t.durable) && (t.durable == s.durable || t.durable == s.accepted)
    case Publish(version) =>
      && t == s.(header := version, origin := t.origin) && s.header <= version && s.durable == s.accepted
      && s.origin <= t.origin && (s.all != [] ==> t.origin == s.origin)
    case Reclaim =>
      exists dropped: seq<Record> ::
        && (forall r :: r in dropped ==> r.version <= s.header)
        && s.all == dropped + t.all && s.accepted == dropped + t.accepted && s.durable == dropped + t.durable
        && s.found == dropped + t.found
        && t.header == s.header && t.origin == s.origin + |dropped| && t.poisoned == s.poisoned
    case Restart =>
      && t.header == s.header && t.origin == s.origin && !t.poisoned
      && s.durable <= t.durable && s.accepted <= t.accepted == t.all == t.found == s.found
    case PowerCut =>
      && t.header == s.header && t.origin == s.origin && !t.poisoned
      && s.durable <= t.durable <= t.accepted == t.found == t.all <= s.all
  }

  /** What holds of every state of a run. */
  ghost predicate Good(s: State) {
    && s.durable <= s.accepted <= s.found <= s.all
    && (s.poisoned || s.accepted == s.all)
    && Numbered(s.all, s.origin) && 1 <= s.origin <= s.header + 1
  }

  ghost predicate Run(states: seq<State>, events: seq<Event>) {
    && |states| == |events| + 1
    && (forall i :: 0 <= i < |states| ==> Good(states[i]))
    && (forall i :: 0 <= i < |events| ==> Step(states[i], events[i], states[i + 1]))
  }

  // ---- what holds across a whole run ----------------------------------

  /** Once durable, a record stays durable until a header covers it. */
  lemma {:induction false} DurableForever(states: seq<State>, events: seq<Event>, i: nat, j: nat, r: Record)
    requires Run(states, events) && i <= j < |states| && r in states[i].durable
    ensures r in states[j].durable || r.version <= states[j].header
    decreases j
  {
    if i < j {
      DurableForever(states, events, i, j - 1, r);
      assert Step(states[j - 1], events[j - 1], states[j]);
    }
  }

  lemma {:induction false} HeaderGrows(states: seq<State>, events: seq<Event>, i: nat, j: nat)
    requires Run(states, events) && i <= j < |states|
    ensures states[i].header <= states[j].header
    decreases j
  {
    if i < j {
      HeaderGrows(states, events, i, j - 1);
      assert Step(states[j - 1], events[j - 1], states[j]);
    }
  }

  /** Nothing appears that was not there before and not offered since: what a
      failed append was made to erase never comes back. */
  lemma {:induction false} NothingComesBack(states: seq<State>, events: seq<Event>, i: nat, j: nat, r: Record)
    requires Run(states, events) && i <= j < |states|
    requires r in states[j].all
    ensures r in states[i].all || exists k :: i <= k < j && events[k].Append? && r in events[k].records
    decreases j
  {
    if i < j {
      assert Step(states[j - 1], events[j - 1], states[j]);
      if r in states[j - 1].all {
        NothingComesBack(states, events, i, j - 1, r);
      } else {
        assert events[j - 1].Append? && r in events[j - 1].records;
      }
    }
  }

  /** Without a power cut, what was accepted stays accepted until a header
      covers it: restarting the process loses nothing. */
  lemma {:induction false} AcceptedAcrossRestarts(states: seq<State>, events: seq<Event>, i: nat, j: nat, r: Record)
    requires Run(states, events) && i <= j < |states| && r in states[i].accepted
    requires forall k :: i <= k < j ==> !events[k].PowerCut?
    ensures r in states[j].accepted || r.version <= states[j].header
    decreases j
  {
    if i < j {
      AcceptedAcrossRestarts(states, events, i, j - 1, r);
      assert Step(states[j - 1], events[j - 1], states[j]);
    }
  }

  /** A durable record stays durable until its segment goes, and its version is not
      stored again. */
  lemma {:induction false} DurableOrGone(states: seq<State>, events: seq<Event>, i: nat, j: nat, r: Record)
    requires Run(states, events) && i <= j < |states| && r in states[i].durable
    ensures r in states[j].durable || r.version < states[j].origin
    decreases j
  {
    if i < j {
      DurableOrGone(states, events, i, j - 1, r);
      StepKeeps(states[j - 1], events[j - 1], states[j], r);
    }
  }

  lemma StepKeeps(s: State, e: Event, t: State, r: Record)
    requires Good(s) && Step(s, e, t)
    ensures s.origin <= t.origin && (r in s.durable ==> r in t.durable || r.version < t.origin)
  {
    if e.Reclaim? && r in s.durable {
      var dropped: seq<Record> :| s.all == dropped + t.all && s.durable == dropped + t.durable
        && t.origin == s.origin + |dropped|;
      var k :| 0 <= k < |s.durable| && s.durable[k] == r;
      assert s.all[k] == r;
      assert k >= |dropped| ==> t.durable[k - |dropped|] == r;
    }
  }

  /** No state of a run ever holds another record at the version of one that was
      durable before: what is gone is not laid down again either. */
  lemma DurableUnique(states: seq<State>, events: seq<Event>, i: nat, j: nat, r: Record, q: Record)
    requires Run(states, events) && i <= j < |states|
    requires r in states[i].durable && q in states[j].all && r.version == q.version
    ensures r == q
  {
    DurableOrGone(states, events, i, j, r);
    assert Good(states[j]);
    var b :| 0 <= b < |states[j].all| && states[j].all[b] == q;
    assert r in states[j].durable && states[j].durable <= states[j].all;
    var a :| 0 <= a < |states[j].all| && states[j].all[a] == r;
    assert a == b;
  }

  lemma RunExtends(states: seq<State>, events: seq<Event>, e: Event, t: State)
    requires Run(states, events) && Step(states[|events|], e, t) && Good(t)
    ensures Run(states + [t], events + [e]) && |states| == |events| + 1
  {
    hide Step, Good;
  }

  // ---- the machine ----------------------------------------------------

  lemma EmptyDirectory(crc: Crc)
    ensures Chained([]) && OnDisk(crc, map[], [], 0, 0) && HeaderCovers(0, [], 0) && Detectable(crc, map[], [])
  {
    assert Names([]) == {};
  }

  /** Open a store on what is on disk and load it. */
  method Reopen(crc: Crc, disk: Disk, rotateBytes: nat, ghost log: seq<Laid>, ghost flushed: nat, ghost live: nat)
    returns (store: S.SegmentStore, header: Option<nat>, tail: seq<Record>)
    requires Chained(log) && OnDisk(crc, disk.files, log, flushed, live)
    requires HeaderCovers(HeaderVersion(disk.header), log, flushed)
    requires Detectable(crc, disk.files, log)
    modifies disk
    ensures store.Valid() && store.recovered && store.poison == None && fresh(store)
    ensures store.crc == crc && store.disk == disk && header == disk.header == old(disk.header)
    ensures store.headerVersion == HeaderVersion(header)
    ensures store.Accepted() == store.Everything() && tail == Above(store.Accepted(), store.headerVersion)
    ensures log == [] ==> store.log == []
    ensures store.Origin() == if log == [] then store.headerVersion + 1 else log[0].first
    ensures |store.log| == |log| && (log != [] ==> store.log[..|log| - 1] == log[..|log| - 1])
    ensures store.rotateBytes ==
      if rotateBytes < SEG_PROLOGUE + REC_PREFIX then SEG_PROLOGUE + REC_PREFIX else rotateBytes
    ensures Upto(log, flushed) <= store.Durable() && Upto(log, live) <= store.Accepted() <= Join(log)
  {
    hide Join, Upto, OnDisk, Chained, HeaderCovers, Detectable, Above;
    store := new S.SegmentStore.Open(crc, disk, rotateBytes, log, flushed, live);
    var loaded := store.Load();
    header, tail := loaded.value.0, loaded.value.1;
  }

  lemma SettledFiles(left: map<nat, seq<byte>>)
    ensures Settled(left).Keys == left.Keys
    ensures forall n :: n in left ==>
      Settled(left)[n].bytes == left[n] && Settled(left)[n] == Flush(Image(left[n], []))
  {
  }

  /** The power goes, and a new store is opened on what is left. */
  method Cut(store: S.SegmentStore, left: map<nat, seq<byte>>)
    returns (next: S.SegmentStore, header: Option<nat>, tail: seq<Record>)
    requires store.Valid()
    requires left.Keys == store.disk.files.Keys && forall n :: n in left ==> Survives(store.disk.files[n], left[n])
    requires Detectable(store.crc, Settled(left), store.log)
    modifies store.disk
    ensures next.Valid() && next.recovered && next.poison == None && fresh(next) && next.disk == store.disk
    ensures header == store.disk.header == old(store.disk.header)
    ensures next.headerVersion == HeaderVersion(header) == old(store.headerVersion)
    ensures next.Accepted() == next.Everything() && tail == Above(next.Accepted(), next.headerVersion)
    ensures old(store.Durable()) <= next.Durable() && next.Everything() <= old(store.Everything())
    ensures next.Origin() == old(store.Origin()) && next.rotateBytes == store.rotateBytes && next.crc == store.crc
    ensures |next.log| == |store.log| && (store.log != [] ==> next.log[..|next.log| - 1] == store.log[..|next.log| - 1])
  {
    hide Join, Upto, OnDisk, Chained, HeaderCovers, Detectable, Survives, Settled, Above;
    ghost var files := store.disk.files;
    store.disk.PowerCut(left);
    SettledFiles(left);
    CrashOnDisk(store.crc, files, store.log, store.flushed, store.live, store.disk.files);
    next, header, tail := Reopen(store.crc, store.disk, store.rotateBytes, store.log, store.flushed, store.flushed);
  }

  lemma NothingYet(store: S.SegmentStore)
    requires store.Valid() && store.log == []
    ensures store.Everything() == store.Accepted() == store.Durable() == []
    ensures store.NextVersion() == store.headerVersion + 1
  {
  }

  lemma FirstCovered(store: S.SegmentStore)
    requires store.Valid() && store.log != []
    ensures Chained(store.log) && 1 <= store.log[0].first <= store.headerVersion + 1
  {
  }

  /** A load hands back the header and exactly the accepted records above it,
      numbered on from the header without a gap. */
  ghost predicate Resumes(store: S.SegmentStore, header: Option<nat>, tail: seq<Record>)
    reads store, store.disk
  {
    && header == store.disk.header && store.headerVersion == HeaderVersion(header)
    && tail == Above(store.Accepted(), store.headerVersion)
    && Numbered(tail, store.headerVersion + 1)
  }

  lemma TailResumes(store: S.SegmentStore, header: Option<nat>, tail: seq<Record>)
    requires store.Valid() && store.Accepted() == store.Everything()
    requires header == store.disk.header && tail == Above(store.Accepted(), store.headerVersion)
    ensures Resumes(store, header, tail)
  {
    hide Join, Upto, OnDisk, Above;
    if store.log == [] {
      NothingYet(store);
      AboveNone([], store.headerVersion);
    } else {
      JoinNumbered(store.log);
      FirstCovered(store);
      AboveNumbered(store.Everything(), store.log[0].first, store.headerVersion);
    }
  }

  /** Every segment but the last has reached its size. */
  ghost predicate Filled(crc: Crc, log: seq<Laid>, rotateBytes: nat) {
    forall i :: 0 <= i < |log| - 1 ==> |SegmentBytes(crc, log[i].records)| >= rotateBytes
  }

  lemma FilledSame(crc: Crc, log: seq<Laid>, later: seq<Laid>, rotateBytes: nat)
    requires Filled(crc, log, rotateBytes) && |later| == |log| && (log != [] ==> later[..|log| - 1] == log[..|log| - 1])
    ensures Filled(crc, later, rotateBytes)
  {
    forall i | 0 <= i < |later| - 1
      ensures later[i] == log[i]
    {
      assert later[..|log| - 1][i] == log[..|log| - 1][i];
    }
  }

  lemma FilledRest(crc: Crc, log: seq<Laid>, rotateBytes: nat)
    requires Filled(crc, log, rotateBytes)
    ensures log != [] ==> Filled(crc, log[1..], rotateBytes)
  {
    hide SegmentBytes;
  }

  /** In a scanned store, that is what its segments say. */
  lemma FilledWhen(store: S.SegmentStore)
    requires store.Valid() && store.recovered
    ensures |store.segments| == |store.log|
    ensures Filled(store.crc, store.log, store.rotateBytes) <==>
      forall i :: 0 <= i < |store.segments| - 1 ==> store.segments[i].end >= store.rotateBytes
  {
    hide OnDisk, Chained, HeaderCovers, SegmentBytes;
  }

  /** An append closes a segment only once it has reached its size. */
  lemma AppendFills(store: S.SegmentStore, was: seq<S.Info>, records: seq<Record>, r: S.Result<()>)
    requires forall i :: 0 <= i < |was| - 1 ==> was[i].end >= store.rotateBytes
    requires store.Valid() && store.recovered
    requires store.segments == was || (records != [] && store.Placed(was, records, r, store.segments))
    ensures Filled(store.crc, store.log, store.rotateBytes)
  {
    hide *;
    FilledWhen(store);
    if store.segments != was {
      PlacedFills(store, was, records, r, store.segments);
    }
  }

  lemma PlacedFills(store: S.SegmentStore, was: seq<S.Info>, records: seq<Record>, r: S.Result<()>, now: seq<S.Info>)
    requires forall i :: 0 <= i < |was| - 1 ==> was[i].end >= store.rotateBytes
    requires records != [] && store.Placed(was, records, r, now)
    ensures forall i :: 0 <= i < |now| - 1 ==> now[i].end >= store.rotateBytes
  {
    hide Encode;
    forall i | 0 <= i < |now| - 1
      ensures now[i].end >= store.rotateBytes
    {
      assert now[i] == was[i];
    }
  }

  /** A store, replaced by a fresh one after a power cut, and the run so far. */
  class Machine {
    var store: S.SegmentStore
    ghost var states: seq<State>
    ghost var events: seq<Event>

    ghost predicate Valid()
      reads this, store, store.disk
    {
      && store.Valid() && store.recovered
      && Filled(store.crc, store.log, store.rotateBytes)
      && Run(states, events)
      && states[|events|] == Now()
    }

    /** In every state of a run, every segment but the last has reached its size. */
    lemma SegmentsFull()
      requires Valid()
      ensures forall i :: 0 <= i < |store.segments| - 1 ==> store.segments[i].end >= store.rotateBytes
    {
      hide S.SegmentStore.Valid, Run, Filled;
      FilledWhen(store);
    }

    ghost function Now(): State
      reads this, store, store.disk
    {
      State(store.headerVersion, store.Origin(), store.Everything(), store.Recoverable(), store.Accepted(),
        store.Durable(), store.poison.Some?)
    }

    /** An empty directory. */
    constructor (crc: Crc, rotateBytes: nat)
      ensures Valid() && events == [] && states == [State(0, 1, [], [], [], [], false)]
      ensures fresh(store) && fresh(store.disk) && store.crc == crc
      ensures store.disk.header == None && store.poison == None && store.NextVersion() == 1
    {
      hide S.SegmentStore.Valid, S.SegmentStore.Sane, S.SegmentStore.Directory, S.SegmentStore.Stands, Join, Upto,
        OnDisk, Chained, HeaderCovers, Detectable, Good, Above, Intact;
      EmptyDirectory(crc);
      var disk := new Disk();
      var first, header, tail := Reopen(crc, disk, rotateBytes, [], 0, 0);
      store := first;
      new;
      NothingYet(store);
      store.WholeShows();
      NowGood();
      states := [Now()];
      events := [];
    }

    /** Every reachable state is a good one. */
    lemma NowGood()
      requires store.Valid() && store.recovered
      ensures Good(Now())
    {
      hide S.SegmentStore.Valid, S.SegmentStore.Sane, S.SegmentStore.Directory, S.SegmentStore.Stands, Join, Upto,
        OnDisk, Chained, Intact;
      store.AcceptedWithin();
      store.RecoverableWithin();
      if store.poison == None {
        store.WholeShows();
      }
      if store.log == [] {
        NothingYet(store);
      } else {
        FirstCovered(store);
        JoinNumbered(store.log);
      }
    }

    ghost method Note(e: Event, was: State)
      requires store.Valid() && store.recovered && Filled(store.crc, store.log, store.rotateBytes)
      requires Run(states, events) && states[|events|] == was && Step(was, e, Now())
      modifies this`states, this`events
      ensures Valid() && events == old(events) + [e] && states == old(states) + [Now()]
    {
      hide S.SegmentStore.Valid, S.SegmentStore.Sane, S.SegmentStore.Directory, S.SegmentStore.Stands, Run, Step, Good,
        OnDisk, Chained, HeaderCovers, Join, Upto;
      NowGood();
      RunExtends(states, events, e, Now());
      states := states + [Now()];
      events := events + [e];
    }

    /** An append with any faults. One that stops short and cannot be zeroed leaves
        the whole records that landed to be found again. */
    method Append(records: seq<Record>, writes: seq<Fault>, zeroing: seq<Fault>, flushWorks: bool)
      returns (r: S.Result<()>)
      requires Valid()
      modifies this`states, this`events, store, store.disk
      ensures Valid() && store == old(store) && store.disk == old(store.disk)
      ensures store.disk.header == old(store.disk.header)
      ensures events == old(events) + [Event.Append(records)] && states == old(states) + [Now()]
      ensures r.Ok? ==> Now().accepted == old(Now().accepted) + records
      ensures r.Err? ==> Now().accepted == old(Now().accepted)
      ensures old(store.poison) == None && S.Fits(records, old(store.NextVersion())) ==>
        forall j: nat :: S.StopsAfter(store.crc, records, writes, zeroing, j) ==>
          && j < |records| && r == S.Err(S.CleanupFailed) && Now().found == old(Now().accepted) + records[..j]
          && Detectable(store.crc, store.disk.files, store.log)
    {
      hide S.SegmentStore.Valid, S.SegmentStore.Sane, S.SegmentStore.Directory, S.SegmentStore.Stands, Join, Upto,
        OnDisk, Chained, HeaderCovers, Good, Detectable, Intact, S.Fits, S.StopsAfter, Filled,
        S.SegmentStore.Placed, S.Becomes, Fine, Run, Step;
      ghost var was := Now();
      ghost var base;
      GoodNow();
      ghost var segments := store.segments;
      FilledWhen(store);
      r, base := store.Append(records, writes, zeroing, flushWorks);
      AppendFills(store, segments, records, r);
      if store.poison == None {
        store.WholeShows();
      }
      AppendStep(was, records, Now(), if r == S.Err(S.CleanupFailed) then store.Landed(records) else 0);
      forall j: nat | S.StopsAfter(store.crc, records, writes, zeroing, j) && old(store.poison) == None
        && S.Fits(records, old(store.NextVersion()))
        ensures j < |records| && r == S.Err(S.CleanupFailed) && Now().found == was.accepted + records[..j]
        ensures Detectable(store.crc, store.disk.files, store.log)
      {
        SomeStopped(store.crc, records, writes, zeroing, j);
      }
      Note(Event.Append(records), was);
    }

    lemma AppendStep(s: State, records: seq<Record>, t: State, k: nat)
      requires t.header == s.header && t.origin == s.origin && s.durable <= t.durable && k <= |records|
      requires
        if s.poisoned then t == s
        else
          || (t.accepted == t.found == t.all == s.accepted + records && !t.poisoned)
          || (t.accepted == t.found == t.all == s.accepted && !t.poisoned)
          || (t.accepted == s.accepted && t.all == s.accepted + records && t.poisoned
              && t.found == s.accepted + records[..k])
      ensures Step(s, Event.Append(records), t)
    {
    }

    lemma SomeStopped(crc: Crc, records: seq<Record>, writes: seq<Fault>, zeroing: seq<Fault>, j: nat)
      requires S.StopsAfter(crc, records, writes, zeroing, j)
      ensures j < |records|
    {
    }

    /** What is good about the last state, without the numbering. */
    lemma GoodNow()
      requires store.Valid() && store.recovered
      ensures Now().durable <= Now().accepted <= Now().found <= Now().all
      ensures !Now().poisoned ==> Now().accepted == Now().found == Now().all
    {
      hide S.SegmentStore.Valid, S.SegmentStore.Sane, S.SegmentStore.Directory, S.SegmentStore.Stands, Join, Upto,
        OnDisk, Chained, Intact;
      store.AcceptedWithin();
      store.RecoverableWithin();
      if store.poison == None {
        store.WholeShows();
      }
    }

    method Sync(works: bool) returns (ok: bool)
      requires Valid()
      modifies this`states, this`events, store, store.disk
      ensures Valid() && store == old(store) && store.disk == old(store.disk)
      ensures events == old(events) + [Event.Sync] && states == old(states) + [Now()]
      ensures ok ==> Now().durable == Now().accepted == old(Now().accepted)
    {
      hide S.SegmentStore.Valid, S.SegmentStore.Sane, S.SegmentStore.Directory, S.SegmentStore.Stands, Join, Upto,
        OnDisk, Chained, HeaderCovers;
      ghost var was := Now();
      ok := store.Sync(works);
      Note(Event.Sync, was);
    }

    /** The header is published after a flush that worked. */
    method Publish(version: nat)
      requires Valid() && store.flushed == store.live && Now().durable == Now().accepted
      requires store.headerVersion <= version < MAX_VERSION && (store.segments != [] ==> version < store.NextVersion())
      modifies this`states, this`events, store, store.disk
      ensures Valid() && store == old(store) && store.disk == old(store.disk)
      ensures events == old(events) + [Event.Publish(version)] && states == old(states) + [Now()]
      ensures Now() ==
        old(Now()).(header := version, origin := if store.log == [] then version + 1 else old(Now()).origin)
    {
      hide S.SegmentStore.Valid, S.SegmentStore.Sane, S.SegmentStore.Directory, S.SegmentStore.Stands, Join, Upto,
        OnDisk, Chained, HeaderCovers, Run, Good, Filled, Numbered, Intact;
      ghost var was := Now();
      if store.log == [] {
        NothingYet(store);
      }
      store.OldestWithin(0);
      store.CoverableFlushed(version);
      store.PublishHeader(version);
      Note(Event.Publish(version), was);
    }

    method Reclaim() returns (removed: bool)
      requires Valid()
      modifies this`states, this`events, store, store.disk
      ensures Valid() && store == old(store) && store.disk == old(store.disk)
      ensures events == old(events) + [Event.Reclaim] && states == old(states) + [Now()]
    {
      hide S.SegmentStore.Valid, S.SegmentStore.Sane, S.SegmentStore.Directory, S.SegmentStore.Stands, Join, Upto,
        OnDisk, Chained, HeaderCovers, Run, Step, Good, Filled, Numbered, Intact;
      ghost var was := Now();
      ghost var dropped := if store.log != [] then store.log[0].records else [];
      FilledRest(store.crc, store.log, store.rotateBytes);
      store.Saner();
      store.Counted();
      removed := store.ReclaimOne();
      store.Counted();
      if removed {
        ReclaimStep(was, Now(), dropped);
      } else {
        NothingReclaimed(was, Now());
      }
      Note(Event.Reclaim, was);
    }

    lemma ReclaimStep(s: State, t: State, dropped: seq<Record>)
      requires t.header == s.header && t.poisoned == s.poisoned && forall r :: r in dropped ==> r.version <= s.header
      requires t.origin == s.origin + |dropped|
      requires s.all == dropped + t.all && s.found == dropped + t.found
      requires s.accepted == dropped + t.accepted && s.durable == dropped + t.durable
      ensures Step(s, Event.Reclaim, t)
    {
    }

    lemma NothingReclaimed(s: State, t: State)
      requires s == t
      ensures Step(s, Event.Reclaim, t)
    {
      var none: seq<Record> := [];
      assert s.all == none + s.all && s.found == none + s.found && s.accepted == none + s.accepted
        && s.durable == none + s.durable;
    }

    /** The process comes back to what the kernel still has. */
    method Restart() returns (header: Option<nat>, tail: seq<Record>)
      requires Valid() && (store.poison == None || Detectable(store.crc, store.disk.files, store.log))
      modifies this`states, this`events, store, store.disk
      ensures Valid() && store == old(store) && store.disk == old(store.disk)
      ensures store.disk.header == old(store.disk.header)
      ensures events == old(events) + [Event.Restart] && states == old(states) + [Now()]
      ensures Resumes(store, header, tail) && Now().accepted == old(Now().found)
    {
      hide S.SegmentStore.Valid, S.SegmentStore.Sane, S.SegmentStore.Directory, S.SegmentStore.Stands, Join, Upto,
        OnDisk, Chained, HeaderCovers, Detectable, Good, Intact, Above,
        Filled, Run;
      ghost var was, before := Now(), store.log;
      var loaded := store.Load();
      FilledSame(store.crc, before, store.log, store.rotateBytes);
      store.WholeShows();
      header, tail := loaded.value.0, loaded.value.1;
      TailResumes(store, header, tail);
      Note(Event.Restart, was);
    }

    /** The machine stops, each unflushed byte landing as one of the things it
        can be; a new store is opened on what is left. */
    method PowerCut(left: map<nat, seq<byte>>) returns (header: Option<nat>, tail: seq<Record>)
      requires Valid()
      requires left.Keys == store.disk.files.Keys && forall n :: n in left ==> Survives(store.disk.files[n], left[n])
      requires Detectable(store.crc, Settled(left), store.log)
      modifies this, store, store.disk
      ensures Valid() && store.disk == old(store.disk) && fresh(store)
      ensures events == old(events) + [Event.PowerCut] && states == old(states) + [Now()]
      ensures Resumes(store, header, tail)
    {
      hide S.SegmentStore.Valid, S.SegmentStore.Sane, S.SegmentStore.Directory, S.SegmentStore.Stands, Run, Good,
        Resumes, Intact, Join, Upto, OnDisk, Chained, HeaderCovers, Detectable, Survives, Settled, Above;
      ghost var was := Now();
      var next;
      next, header, tail := Cut(store, left);
      FilledSame(store.crc, store.log, next.log, store.rotateBytes);
      store := next;
      store.AcceptedWithin();
      store.WholeShows();
      TailResumes(store, header, tail);
      CutStep(was, Now());
      Note(Event.PowerCut, was);
    }

    lemma CutStep(s: State, t: State)
      requires t.header == s.header && t.origin == s.origin && !t.poisoned
      requires s.durable <= t.durable <= t.accepted && t.accepted == t.found == t.all <= s.all
      ensures Step(s, Event.PowerCut, t)
    {
    }
  }

  /** The storage contract's error case fails: of a batch whose write stopped after
      `j` whole records and that could not be zeroed, a load brings these back. */
  method RefusedReturns(crc: Crc, rotateBytes: nat, records: seq<Record>, zeroing: seq<Fault>, flushWorks: bool, j: nat)
    returns (machine: Machine, r: S.Result<()>, header: Option<nat>, tail: seq<Record>)
    requires j < |records| <= IOV_MAX / 2 && S.Fits(records, 1) && zeroing != [] && zeroing[0].Broken?
    ensures machine.Valid() && machine.events == [Event.Append(records), Event.Restart]
    ensures r == S.Err(S.CleanupFailed) && header == None && tail == records[..j]
  {
    hide Run, Good, Detectable, Above, Encode, Join, Upto, Intact, OnDisk, Chained, HeaderCovers, S.Fits;
    machine := new Machine(crc, rotateBytes);
    var writes := [Take(|Encode(crc, records[..j])|), Fault.Broken];
    assert S.StopsAfter(crc, records, writes, zeroing, j);
    assert machine.Now() == State(0, 1, [], [], [], [], false);
    r := machine.Append(records, writes, zeroing, flushWorks);
    assert machine.Now().found == records[..j];
    header, tail := machine.Restart();
    AllAbove(records, j);
  }

  lemma AllAbove(records: seq<Record>, j: nat)
    requires j <= |records| && S.Fits(records, 1)
    ensures Above(records[..j], 0) == records[..j]
  {
    hide Above;
    AboveAll(records[..j], 0);
  }
}
