/** The segment store keeps the promises a log relies on, but for what a failed
    cleanup leaves to be found again. */
module StorageContract {
  import opened Common
  import opened Bytes
  import opened Format
  import opened Sys
  import opened Wal
  import Logs
  import S = SegmentStore
  import WalRuns

  /** The records as a log reads them. */
  function Decoded<P>(rs: seq<Record>, decode: seq<byte> -> P): (out: seq<Logs.Record<P>>)
    ensures |out| == |rs|
  {
    seq(|rs|, i requires 0 <= i < |rs| => Logs.Record(rs[i].version, decode(rs[i].payload)))
  }

  /** The version of the last of `n` records from `origin` on. */
  function UpTo(origin: nat, n: nat): nat {
    if origin == 0 then n else origin + n - 1
  }

  /** The header of a store as a log sees it; the state it stands for is the one of
      its version. */
  ghost function HeaderOf<St>(header: Option<nat>, views: nat -> St): Option<Logs.View<St>> {
    match header case None => None case Some(v) => Some(Logs.View(v, views(v)))
  }

  /** The store as a log that wrote to it sees it: what it accepted, and how far it
      is flushed. */
  ghost function Held<St, P>(store: S.SegmentStore, decode: seq<byte> -> P, views: nat -> St): Logs.Holding<St, P>
    reads store, store.disk
  {
    Logs.Holding(
      Decoded(store.Accepted(), decode),
      HeaderOf(store.disk.header, views),
      UpTo(store.Origin(), |store.Durable()|),
      UpTo(store.Origin(), |store.Accepted()|))
  }

  /** The store as a load or a read sees it: what a scan would find. */
  ghost function Shown<St, P>(store: S.SegmentStore, decode: seq<byte> -> P, views: nat -> St): Logs.Holding<St, P>
    reads store, store.disk
  {
    Logs.Holding(
      Decoded(store.Recoverable(), decode),
      HeaderOf(store.disk.header, views),
      UpTo(store.Origin(), |store.Durable()|),
      UpTo(store.Origin(), |store.Recoverable()|))
  }

  lemma ShownNumbered(store: S.SegmentStore)
    requires store.Valid()
    ensures Numbered(store.Recoverable(), store.Origin()) && store.Origin() >= 1
    ensures store.Durable() <= store.Accepted() <= store.Recoverable()
  {
    hide S.SegmentStore.Valid, S.SegmentStore.Sane, S.SegmentStore.Directory, S.SegmentStore.Stands, Join, Upto, OnDisk,
      Intact;
    store.RecoverableWithin();
    store.AcceptedWithin();
    store.Counted();
    if store.log == [] {
      WalRuns.NothingYet(store);
    } else {
      WalRuns.FirstCovered(store);
      JoinNumbered(store.log);
    }
  }

  lemma DecodedConcat<P>(a: seq<Record>, b: seq<Record>, decode: seq<byte> -> P)
    ensures Decoded(a + b, decode) == Decoded(a, decode) + Decoded(b, decode)
  {
  }

  lemma DecodedSlice<P>(rs: seq<Record>, i: nat, j: nat, decode: seq<byte> -> P)
    requires i <= j <= |rs|
    ensures Decoded(rs[i..j], decode) == Decoded(rs, decode)[i..j]
  {
  }

  /** What lies above a version, read either way. */
  lemma {:induction false} HigherIsAbove<P>(rs: seq<Record>, first: nat, after: nat, decode: seq<byte> -> P)
    requires Numbered(rs, first)
    ensures Logs.Higher(Decoded(rs, decode), after) == Decoded(Above(rs, after), decode)
    decreases |rs|
  {
    hide Above;
    AboveNumbered(rs, first, after);
    if rs != [] && rs[0].version <= after {
      HigherIsAbove(rs[1..], first + 1, after, decode);
      assert Decoded(rs, decode)[1..] == Decoded(rs[1..], decode);
      AboveNumbered(rs[1..], first + 1, after);
    }
  }

  /** To the log that writes it, a batch is appended whole or not at all. To one
      that loads or reads, it is so exactly unless the write stopped after some whole
      records and could not be cleaned up. */
  method Append<St, P>(store: S.SegmentStore, records: seq<Record>, writes: seq<Fault>, zeroing: seq<Fault>,
          flushWorks: bool, ghost decode: seq<byte> -> P, ghost views: nat -> St)
    returns (r: S.Result<()>)
    requires store.Valid() && (store.recovered || Detectable(store.crc, store.disk.files, store.log))
    modifies store, store.disk
    ensures store.Valid() && (store.recovered || records == [])
    ensures old(store.recovered) ==>
      Logs.Appended(old(Held(store, decode, views)), Decoded(records, decode), r.Ok?, Held(store, decode, views))
    ensures !(r == S.Err(S.CleanupFailed) && store.Landed(records) > 0) <==>
      Logs.Appended(old(Shown(store, decode, views)), Decoded(records, decode), r.Ok?, Shown(store, decode, views))
    ensures records != [] && (r.Ok? || r.error in {S.Io, S.CleanupFailed}) ==>
      forall j: nat :: S.StopsAfter(store.crc, records, writes, zeroing, j) ==>
        r == S.Err(S.CleanupFailed) && store.Landed(records) == j
  {
    hide S.SegmentStore.Valid, S.SegmentStore.Origin, S.SegmentStore.Recoverable, Decoded, Join, Upto, Detectable,
      S.Fits, S.StopsAfter, Intact;
    ghost var base, had, shown, origin := [], store.Accepted(), store.Recoverable(), store.Origin();
    ghost var durable, header := |store.Durable()|, HeaderOf(store.disk.header, views);
    ShownNumbered(store);
    r, base := store.Append(records, writes, zeroing, flushWorks);
    ShownNumbered(store);
    if store.poison == None && records != [] {
      store.WholeShows();
    }
    ghost var landed := if r == S.Err(S.CleanupFailed) then store.Landed(records) else 0;
    NoneOf(had, records);
    NoneOf(shown, records);
    if old(store.recovered) {
      Outcome(had, records, 0, r.Ok?, store.Accepted(), origin, header, durable, |store.Durable()|, decode);
    }
    Outcome(shown, records, landed, r.Ok?, store.Recoverable(), origin, header, durable, |store.Durable()|, decode);
  }

  lemma NoneOf<T>(a: seq<T>, b: seq<T>)
    ensures a + b[..0] == a && a + [] == a
  {
  }

  /** A batch of which some beginning landed was appended whole or not at all exactly
      when it was appended, or none of it landed. */
  lemma Outcome<St, P>(had: seq<Record>, records: seq<Record>, landed: nat, ok: bool, kept: seq<Record>, origin: nat,
          header: Option<Logs.View<St>>, before: nat, after: nat, decode: seq<byte> -> P)
    requires origin >= 1 && before <= after <= |kept| && landed <= |records|
    requires kept == had + if ok then records else records[..landed]
    ensures ok || landed == 0 <==>
      var s := Logs.Holding(Decoded(had, decode), header, UpTo(origin, before), UpTo(origin, |had|));
      var t := Logs.Holding(Decoded(kept, decode), header, UpTo(origin, after), UpTo(origin, |kept|));
      Logs.Appended(s, Decoded(records, decode), ok, t)
  {
    hide Decoded;
    DecodedConcat(had, records, decode);
    NoneOf(had, records);
  }

  lemma DecodedNone<P>(decode: seq<byte> -> P)
    ensures Decoded([], decode) == []
  {
  }

  method Sync<St, P>(store: S.SegmentStore, works: bool, ghost decode: seq<byte> -> P, ghost views: nat -> St)
    returns (ok: bool)
    requires store.Valid() && store.recovered
    modifies store, store.disk
    ensures store.Valid() && store.recovered
    ensures Logs.Synced(old(Held(store, decode, views)), ok, Held(store, decode, views))
  {
    hide S.SegmentStore.Valid, S.SegmentStore.Recoverable, Decoded, Join, Upto;
    ok := store.Sync(works);
  }

  /** A checkpoint at a version that was written. */
  method WriteHeader<St, P>(store: S.SegmentStore, version: nat, works: bool, ghost decode: seq<byte> -> P,
          ghost views: nat -> St)
    returns (r: S.Result<()>, ghost dropped: nat)
    requires store.Valid() && store.recovered && store.headerVersion <= version < MAX_VERSION
    requires version < store.NextVersion()
    modifies store, store.disk
    ensures store.Valid() && store.recovered
    ensures Logs.HeaderWritten(old(Held(store, decode, views)), Logs.View(version, views(version)), r.Ok?, dropped,
      Held(store, decode, views))
  {
    hide S.SegmentStore.Valid, S.SegmentStore.Sane, S.SegmentStore.Coverable, S.SegmentStore.Oldest,
      S.SegmentStore.Origin, S.SegmentStore.NextVersion, S.SegmentStore.Recoverable, Join, Upto;
    store.Counted();
    store.OldestWithin(0);
    ghost var had := store.Accepted();
    r := store.WriteHeader(version, works);
    store.Counted();
    dropped := if r.Ok? then |had| - |store.Accepted()| else 0;
    if r.Ok? {
      ghost var gone: seq<Record> :| had == gone + store.Accepted() && forall r :: r in gone ==> r.version <= version;
      DecodedConcat(gone, store.Accepted(), decode);
      assert forall i :: 0 <= i < |gone| ==> had[i] == gone[i] && gone[i] in gone;
    }
  }

  /** A load gives the header and at least what lies above it, of what a scan would
      find; the store stands by all of that from then on. */
  method Load<St, P>(store: S.SegmentStore, ghost decode: seq<byte> -> P, ghost views: nat -> St)
    returns (header: Option<nat>, tail: seq<Record>, ghost skipped: nat)
    requires store.Valid()
    requires (store.recovered && store.poison == None) || Detectable(store.crc, store.disk.files, store.log)
    modifies store, store.disk
    ensures store.Valid() && store.recovered && store.poison == None
    ensures Logs.Loaded(old(Shown(store, decode, views)), HeaderOf(header, views), Decoded(tail, decode), skipped,
      Held(store, decode, views))
    ensures Held(store, decode, views) == Shown(store, decode, views)
  {
    hide S.SegmentStore.Valid, S.SegmentStore.Origin, S.SegmentStore.NextVersion, S.SegmentStore.Recoverable, Join,
      Upto, Above, Detectable;
    ShownNumbered(store);
    ghost var had, origin, at := store.Recoverable(), store.Origin(), store.headerVersion;
    var loaded := store.Load();
    store.WholeShows();
    store.Counted();
    header, tail := loaded.value.0, loaded.value.1;
    AboveNumbered(had, origin, at);
    skipped := if at < origin then 0 else if at - origin + 1 <= |had| then at - origin + 1 else |had|;
    assert had[0..] == had && had[|had|..] == [];
    DecodedSlice(had, skipped, |had|, decode);
    assert tail == had[skipped..];
  }

  /** A read below the oldest version is refused, and any other gives the first
      records above a version, of what a scan would find. */
  method ReadAfter<P>(store: S.SegmentStore, after: nat, limit: nat, ghost decode: seq<byte> -> P)
    returns (r: S.Result<seq<Record>>)
    requires store.Valid() && after <= MAX_VERSION
    requires (store.recovered && store.poison == None) || Detectable(store.crc, store.disk.files, store.log)
    ensures r.Err? <==> after + 1 < store.Oldest()
    ensures r.Ok? ==>
      Decoded(r.value, decode) == FirstOf(Logs.Higher(Decoded(store.Recoverable(), decode), after), limit)
    ensures store.recovered && store.poison == None ==> store.Recoverable() == store.Accepted()
  {
    hide S.SegmentStore.Valid, S.SegmentStore.Origin, S.SegmentStore.NextVersion, S.SegmentStore.Recoverable,
      S.SegmentStore.Oldest, Join, Upto, Above, Detectable;
    ShownNumbered(store);
    HigherIsAbove(store.Recoverable(), store.Origin(), after, decode);
    r := store.ReadAfter(after, limit);
    ghost var all := Above(store.Recoverable(), after);
    if |all| > limit {
      DecodedSlice(all, 0, limit, decode);
      assert all[..limit] == all[0..limit] && Decoded(all, decode)[..limit] == Decoded(all, decode)[0..limit];
    }
  }

  /** What the store calls its oldest version is the log's floor. */
  lemma OldestIsFloor<St, P>(store: S.SegmentStore, decode: seq<byte> -> P, views: nat -> St)
    requires store.Valid()
    ensures var held := Held(store, decode, views); store.Oldest() == Logs.FloorOf(held.records, held.top)
  {
    hide S.SegmentStore.Valid, S.SegmentStore.Origin, S.SegmentStore.Oldest, Join, Upto;
    store.Counted();
  }

  /** A power cut loses at most what no flush covers, and of a batch that could not
      be cleaned up keeps at most a beginning. */
  method PowerCut<St, P>(store: S.SegmentStore, left: map<nat, seq<byte>>, ghost decode: seq<byte> -> P,
          ghost views: nat -> St)
    returns (next: S.SegmentStore, ghost more: seq<Record>)
    requires store.Valid()
    requires left.Keys == store.disk.files.Keys && forall n :: n in left ==> Survives(store.disk.files[n], left[n])
    requires Detectable(store.crc, Settled(left), store.log)
    modifies store.disk
    ensures next.Valid() && next.recovered && next.poison == None && fresh(next) && next.disk == store.disk
    ensures old(store.Everything()) == old(store.Accepted()) + more
    ensures Logs.Cut(old(Held(store, decode, views)), Decoded(more, decode), Held(next, decode, views))
  {
    hide S.SegmentStore.Valid, S.SegmentStore.Origin, S.SegmentStore.NextVersion, S.SegmentStore.Recoverable, Join,
      Upto, Above, Detectable, Survives, Settled;
    store.Counted();
    store.AcceptedWithin();
    ghost var had, all := store.Accepted(), store.Everything();
    more := all[|had|..];
    assert all == had + more;
    var header, tail;
    next, header, tail := WalRuns.Cut(store, left);
    next.Counted();
    DecodedConcat(had, more, decode);
    ghost var kept := next.Accepted();
    DecodedSlice(all, 0, |kept|, decode);
    assert kept == all[0..|kept|] && Decoded(all, decode)[0..|kept|] == Decoded(all, decode)[..|kept|];
  }
}
