/** What a directory of segments holds, and the store that writes it. */
module Wal {
  import opened Common
  import opened Bytes
  import opened Format
  import opened Sys
  import opened Segment

  /** The records ever laid down in the segment named for `first`. */
  datatype Laid = Laid(first: nat, records: seq<Record>)

  ghost predicate Numbered(rs: seq<Record>, first: nat) {
    forall j :: 0 <= j < |rs| ==> rs[j].version == first + j
  }

  /** Segments follow each other without a gap; only the last may be empty. */
  ghost predicate Chained(log: seq<Laid>) {
    && (forall i :: 0 <= i < |log| ==> log[i].first >= 1 && Numbered(log[i].records, log[i].first))
    && (forall i :: 0 <= i < |log| - 1 ==> log[i].records != [])
    && (forall i, j :: 0 <= i < j < |log| ==> log[i].first < log[j].first)
    && (forall i :: 0 < i < |log| ==> log[i].first == log[i - 1].first + |log[i - 1].records|)
  }

  ghost function Names(log: seq<Laid>): set<nat> {
    set l | l in log :: l.first
  }

  /** Every record of a run of segments, in order. */
  ghost function Join(log: seq<Laid>): seq<Record> {
    if log == [] then [] else Join(log[..|log| - 1]) + log[|log| - 1].records
  }

  /** Closed segments are sealed; the last one holds what was laid down in it. */
  ghost predicate OnDisk(crc: Crc, files: map<nat, Image>, log: seq<Laid>, flushed: nat, live: nat) {
    && files.Keys == Names(log)
    && (forall i :: 0 <= i < |log| - 1 ==> log[i].first in files && Sealed(crc, files[log[i].first], log[i].records))
    && (log == [] ==> flushed == live == 0)
    && (log != [] ==>
          var last := log[|log| - 1];
          && last.first in files
          && flushed <= live
          && Holds(crc, files[last.first], last.records, flushed)
          && Shows(crc, files[last.first], last.records, live))
  }

  /** A header never covers a record that a power cut could take, and never
      leaves a gap below the oldest segment. */
  ghost predicate HeaderCovers(header: nat, log: seq<Laid>, flushed: nat) {
    && header < MAX_VERSION
    && (log != [] ==> log[0].first <= header + 1 && header < log[|log| - 1].first + flushed)
  }

  function HeaderVersion(header: Option<nat>): nat {
    if header.Some? then header.value else 0
  }

  /** The one assumption recovery makes: see `Detects`. */
  ghost predicate Detectable(crc: Crc, files: map<nat, Image>, log: seq<Laid>) {
    log != [] ==>
      && log[|log| - 1].first in files
      && Detects(crc, files[log[|log| - 1].first].bytes, SEG_PROLOGUE, log[|log| - 1].records)
  }

  /** The records with versions above `v`. */
  function Above(rs: seq<Record>, v: int): seq<Record> {
    if rs == [] then []
    else Above(rs[..|rs| - 1], v) + if rs[|rs| - 1].version > v then [rs[|rs| - 1]] else []
  }

  lemma {:induction false} AboveConcat(a: seq<Record>, b: seq<Record>, v: int)
    ensures Above(a + b, v) == Above(a, v) + Above(b, v)
  {
    if b == [] {
      assert a + b == a;
    } else {
      AboveConcat(a, b[..|b| - 1], v);
      assert (a + b)[..|a + b| - 1] == a + b[..|b| - 1];
    }
  }

  lemma {:induction false} AboveAll(rs: seq<Record>, v: int)
    requires forall i :: 0 <= i < |rs| ==> rs[i].version > v
    ensures Above(rs, v) == rs
  {
    if rs != [] {
      AboveAll(rs[..|rs| - 1], v);
    }
  }

  lemma {:induction false} AboveNone(rs: seq<Record>, v: int)
    requires forall i :: 0 <= i < |rs| ==> rs[i].version <= v
    ensures Above(rs, v) == []
  {
    if rs != [] {
      AboveNone(rs[..|rs| - 1], v);
    }
  }

  /** On a contiguous run, what lies above a version is a suffix. */
  lemma AboveNumbered(rs: seq<Record>, first: nat, v: int)
    requires Numbered(rs, first)
    ensures Above(rs, v) == if v < first then rs else if v - first + 1 <= |rs| then rs[v - first + 1..] else []
  {
    hide Above;
    var k := if v < first then 0 else if v - first + 1 <= |rs| then v - first + 1 else |rs|;
    AboveNone(rs[..k], v);
    AboveAll(rs[k..], v);
    AboveConcat(rs[..k], rs[k..], v);
    assert rs[..k] + rs[k..] == rs;
  }

  lemma {:induction false} AbovePrefix(rs: seq<Record>, v: int, k: nat)
    requires k <= |rs|
    ensures Above(rs[..k], v) <= Above(rs, v)
    ensures 0 < k ==> |Above(rs[..k], v)| <= |Above(rs[..k - 1], v)| + 1
  {
    AboveConcat(rs[..k], rs[k..], v);
    assert rs[..k] + rs[k..] == rs;
    if 0 < k {
      assert rs[..k][..k - 1] == rs[..k - 1];
    }
  }

  /** Reading a segment until `limit` records have been collected in all. */
  lemma ReadMore(before: seq<Record>, all: seq<Record>, seen: nat, v: int, limit: nat)
    requires seen <= |all| && |Above(before, v)| < limit
    requires forall k :: 0 < k < seen ==> |Above(before, v)| + |Above(all[..k], v)| < limit
    requires seen == |all| || (seen > 0 && |Above(before, v)| + |Above(all[..seen], v)| >= limit)
    ensures Above(before, v) + Above(all[..seen], v) == FirstOf(Above(before + all, v), limit)
  {
    hide Above;
    AboveConcat(before, all, v);
    AbovePrefix(all, v, seen);
    AboveNone([], v);
    assert all[..0] == [];
    assert |Above(before, v)| + |Above(all[..seen], v)| <= limit;
    if seen == |all| {
      assert all[..seen] == all;
    }
  }

  lemma ReadOn(log: seq<Laid>, i: nat, out: seq<Record>, seen: nat, v: int, limit: nat)
    requires i < |log| && |out| < limit && out == Above(Join(log[..i]), v) && seen <= |log[i].records|
    requires forall k :: 0 < k < seen ==> |out| + |Above(log[i].records[..k], v)| < limit
    requires seen == |log[i].records| || (seen > 0 && |out| + |Above(log[i].records[..seen], v)| >= limit)
    ensures
      var all, more := Above(Join(log[..i + 1]), v), out + Above(log[i].records[..seen], v);
      more == FirstOf(all, limit) && (|more| < limit ==> more == all)
  {
    hide Above, Join;
    ReadMore(Join(log[..i]), log[i].records, seen, v, limit);
    JoinNext(log, i);
  }

  /** Segments below the one that would hold `start` hold nothing from it on. */
  lemma {:induction false} BelowStart(log: seq<Laid>, i: nat, start: int)
    requires Chained(log) && i < |log| && log[i].first <= start
    ensures Above(Join(log[..i]), start - 1) == []
  {
    hide Above;
    if i > 0 {
      ChainedPrefix(log, i);
      JoinNumbered(log[..i]);
      assert log[..i][i - 1] == log[i - 1];
    }
    AboveNone(Join(log[..i]), start - 1);
  }

  /** Enough has been read: the segments after `i` add nothing. */
  lemma EnoughRead(log: seq<Laid>, i: nat, v: int, limit: nat)
    requires i <= |log| && (i < |log| ==> |Above(Join(log[..i]), v)| >= limit)
    ensures FirstOf(Above(Join(log[..i]), v), limit) == FirstOf(Above(Join(log), v), limit)
  {
    hide Above, Join;
    JoinPrefix(log, i);
    var a, b := Join(log[..i]), Join(log);
    AbovePrefix(b, v, |a|);
    assert b[..|a|] == a;
    if i == |log| {
      assert log[..i] == log;
    }
  }

  lemma {:induction false} JoinPrefix(log: seq<Laid>, i: nat)
    requires i <= |log|
    ensures Join(log[..i]) <= Join(log)
    decreases |log|
  {
    if i < |log| {
      JoinPrefix(log[..|log| - 1], i);
      assert log[..|log| - 1][..i] == log[..i];
    } else {
      assert log[..i] == log;
    }
  }

  /** No stored record takes the last version. */
  lemma {:induction false} BelowMax(log: seq<Laid>)
    requires forall j :: 0 <= j < |log| ==> forall r :: r in log[j].records ==> r.version < MAX_VERSION
    ensures Above(Join(log), MAX_VERSION - 1) == Above(Join(log), MAX_VERSION) == []
  {
    if log != [] {
      var init, tail := log[..|log| - 1], log[|log| - 1].records;
      BelowMax(init);
      AboveConcat(Join(init), tail, MAX_VERSION - 1);
      AboveConcat(Join(init), tail, MAX_VERSION);
      AboveNone(tail, MAX_VERSION - 1);
      AboveNone(tail, MAX_VERSION);
    }
  }

  lemma AboveStarts(log: seq<Laid>, header: nat)
    requires Chained(log) && (log != [] ==> log[0].first <= header + 1)
    ensures var tail := Above(Join(log), header); tail == [] || tail[0].version == header + 1
  {
    if log != [] {
      JoinNumbered(log);
      AboveNumbered(Join(log), log[0].first, header);
    }
  }

  lemma {:induction false} JoinNumbered(log: seq<Laid>)
    requires Chained(log) && log != []
    ensures Numbered(Join(log), log[0].first)
    ensures log[0].first + |Join(log)| == log[|log| - 1].first + |log[|log| - 1].records|
  {
    if |log| > 1 {
      ChainedPrefix(log, |log| - 1);
      JoinNumbered(log[..|log| - 1]);
    }
  }

  lemma ChainedDue(log: seq<Laid>, i: nat)
    requires Chained(log) && i + 1 < |log|
    ensures log[i].records != [] && log[i + 1].first == log[i].first + |log[i].records|
  {
  }

  lemma EmptyOnDisk(crc: Crc, files: map<nat, Image>, flushed: nat, live: nat)
    requires OnDisk(crc, files, [], flushed, live)
    ensures flushed == live == 0
  {
  }

  lemma ChainedPrefix(log: seq<Laid>, n: nat)
    requires Chained(log) && n <= |log|
    ensures Chained(log[..n])
  {
  }

  lemma JoinNext(log: seq<Laid>, i: nat)
    requires i < |log|
    ensures Join(log[..i + 1]) == Join(log[..i]) + log[i].records
  {
    assert log[..i + 1][..i] == log[..i];
  }

  lemma {:induction false} JoinDropFirst(log: seq<Laid>)
    requires log != []
    ensures Join(log) == log[0].records + Join(log[1..])
  {
    if |log| > 1 {
      JoinDropFirst(log[..|log| - 1]);
      assert log[..|log| - 1][1..] == log[1..][..|log| - 2];
    }
  }

  /** The closed segments and the first `n` records of the last one. */
  ghost function Upto(log: seq<Laid>, n: nat): seq<Record> {
    if log == [] then []
    else
      var tail := log[|log| - 1].records;
      Join(log[..|log| - 1]) + if n <= |tail| then tail[..n] else tail
  }

  lemma UptoGrows(log: seq<Laid>, n: nat, m: nat)
    requires n <= m
    ensures Upto(log, n) <= Upto(log, m) <= Join(log)
    ensures log != [] && m >= |log[|log| - 1].records| ==> Upto(log, m) == Join(log)
  {
    if log != [] {
      var a, tail := Join(log[..|log| - 1]), log[|log| - 1].records;
      assert Join(log) == a + tail;
    }
  }

  lemma UptoRelaid(log: seq<Laid>, k: nat, n: nat)
    requires log != [] && n <= k <= |log[|log| - 1].records|
    ensures Upto(Relaid(log, log[|log| - 1].records[..k]), n) == Upto(log, n)
  {
    var tail := log[|log| - 1].records;
    var next := Relaid(log, tail[..k]);
    assert next[..|next| - 1] == log[..|log| - 1];
    assert tail[..k][..n] == tail[..n];
  }

  /** A batch laid down above the last segment's records. */
  lemma UptoAppended(log: seq<Laid>, batch: seq<Record>, n: nat)
    requires log != [] && n <= |log[|log| - 1].records|
    ensures var tail := log[|log| - 1].records;
      var next := Relaid(log, tail + batch);
      && Upto(next, n) == Upto(log, n)
      && Upto(next, |tail|) == Join(log) == Upto(log, |tail|)
      && Upto(next, |tail| + |batch|) == Join(next) == Join(log) + batch
      && Relaid(next, tail) == log
  {
    var tail := log[|log| - 1].records;
    var next := Relaid(log, tail + batch);
    assert next[..|next| - 1] == log[..|log| - 1];
    assert (tail + batch)[..n] == tail[..n];
    assert (tail + batch)[..|tail|] == tail == tail[..|tail|];
    assert (tail + batch)[..|tail| + |batch|] == tail + batch;
    var a := Join(log[..|log| - 1]);
    assert a + (tail + batch) == a + tail + batch;
  }

  /** A batch laid down above the last segment's records, of which some are there. */
  lemma UptoPart(log: seq<Laid>, batch: seq<Record>, k: nat)
    requires log != [] && k <= |batch|
    ensures Upto(Relaid(log, log[|log| - 1].records + batch), |log[|log| - 1].records| + k) == Join(log) + batch[..k]
  {
    var tail := log[|log| - 1].records;
    var next := Relaid(log, tail + batch);
    assert next[..|next| - 1] == log[..|log| - 1];
    assert (tail + batch)[..|tail| + k] == tail + batch[..k];
    var a := Join(log[..|log| - 1]);
    assert a + (tail + batch[..k]) == a + tail + batch[..k];
  }

  lemma UptoDropFirst(log: seq<Laid>, n: nat)
    requires |log| > 1
    ensures Upto(log, n) == log[0].records + Upto(log[1..], n)
  {
    JoinDropFirst(log[..|log| - 1]);
    assert log[..|log| - 1][1..] == log[1..][..|log| - 2];
    var tail := log[|log| - 1].records;
    var part := if n <= |tail| then tail[..n] else tail;
    var a, b := log[0].records, Join(log[1..][..|log| - 2]);
    assert a + b + part == a + (b + part);
  }

  /** What a recovery that kept `kept` of the last segment's records preserved. */
  lemma Survived(was: seq<Laid>, now: seq<Laid>, flushedWas: nat, flushedNow: nat, liveWas: nat, kept: nat)
    requires was == [] ==> now == [] && flushedWas == flushedNow == liveWas == kept == 0
    requires was != [] ==>
      var tail := was[|was| - 1].records;
      flushedWas <= flushedNow && flushedWas <= liveWas <= kept <= |tail| && now == Relaid(was, tail[..kept])
    ensures Upto(now, kept) == Join(now) == Upto(was, kept)
    ensures Upto(was, flushedWas) <= Upto(now, flushedNow)
    ensures Upto(was, liveWas) <= Upto(now, kept) <= Join(was)
  {
    hide Upto, Join;
    if was != [] {
      UptoRelaid(was, kept, flushedWas);
      UptoRelaid(was, kept, kept);
      UptoGrows(was, liveWas, kept);
      UptoGrows(now, flushedWas, flushedNow);
      UptoGrows(now, kept, kept);
    } else {
      UptoNothing();
    }
  }

  lemma UptoNothing()
    ensures Upto([], 0) == Join([]) == []
  {
  }

  /** Replacing the records of the last segment. */
  ghost function Relaid(log: seq<Laid>, records: seq<Record>): seq<Laid>
    requires log != []
  {
    log[|log| - 1 := Laid(log[|log| - 1].first, records)]
  }

  lemma RelaidPrefix(log: seq<Laid>, k: nat)
    requires log != [] && Chained(log) && k <= |log[|log| - 1].records|
    ensures Chained(Relaid(log, log[|log| - 1].records[..k]))
    ensures Join(Relaid(log, log[|log| - 1].records[..k])) == Join(log[..|log| - 1]) + log[|log| - 1].records[..k]
  {
    RelaidChained(log, log[|log| - 1].records[..k]);
  }

  lemma RelaidChained(log: seq<Laid>, records: seq<Record>)
    requires log != [] && Chained(log) && Numbered(records, log[|log| - 1].first)
    ensures Chained(Relaid(log, records)) && Names(Relaid(log, records)) == Names(log)
    ensures Join(Relaid(log, records)) == Join(log[..|log| - 1]) + records
  {
    var next := Relaid(log, records);
    assert next[..|next| - 1] == log[..|log| - 1];
    SameNames(log, next);
  }

  lemma SameNames(log: seq<Laid>, next: seq<Laid>)
    requires |log| == |next| && forall i :: 0 <= i < |log| ==> log[i].first == next[i].first
    ensures Names(log) == Names(next)
  {
    forall n | n in Names(log)
      ensures n in Names(next)
    {
      var i :| 0 <= i < |log| && log[i].first == n;
      assert next[i] in next;
    }
    forall n | n in Names(next)
      ensures n in Names(log)
    {
      var i :| 0 <= i < |log| && next[i].first == n;
      assert log[i] in log;
    }
  }

  lemma SnocChained(log: seq<Laid>, first: nat)
    requires Chained(log) && first >= 1
    requires log != [] ==> log[|log| - 1].records != [] && first == log[|log| - 1].first + |log[|log| - 1].records|
    ensures Chained(log + [Laid(first, [])])
    ensures Join(log + [Laid(first, [])]) == Join(log)
    ensures first !in Names(log)
  {
    hide Names;
    var next := log + [Laid(first, [])];
    assert forall i :: 0 <= i < |log| ==> next[i] == log[i];
    assert next[..|next| - 1] == log;
    assert Join(next) == Join(log) + [];
    if first in Names(log) {
      var i := NameIndex(log, first);
    }
  }

  lemma NameIndex(log: seq<Laid>, name: nat) returns (i: nat)
    requires name in Names(log)
    ensures i < |log| && log[i].first == name
  {
    var l :| l in log && l.first == name;
    i :| 0 <= i < |log| && log[i] == l;
  }

  lemma SnocNames(log: seq<Laid>, l: Laid)
    ensures Names(log + [l]) == Names(log) + {l.first}
  {
    forall n | n in Names(log) + {l.first}
      ensures n in Names(log + [l])
    {
      if n in Names(log) {
        var i := NameIndex(log, n);
        assert (log + [l])[i] in log + [l];
      } else {
        assert (log + [l])[|log|] in log + [l];
      }
    }
  }

  /** Of two states of the directory only the file of segment `l` differs, and
      the first `kept` of its records are what it now holds. */
  ghost predicate TailKept(crc: Crc, before: map<nat, Image>, after: map<nat, Image>, l: Laid, kept: nat,
          settled: nat) {
    && settled <= kept <= |l.records|
    && after.Keys == before.Keys && l.first in before
    && (forall n :: n in before && n != l.first ==> after[n] == before[n])
    && Holds(crc, after[l.first], l.records[..kept], settled)
    && Shows(crc, after[l.first], l.records[..kept], kept)
  }

  lemma MakeTailKept(crc: Crc, before: map<nat, Image>, after: map<nat, Image>, l: Laid, kept: nat, settled: nat)
    requires kept <= |l.records| && l.first in before && l.first in after
    requires after == before[l.first := after[l.first]]
    requires Holds(crc, after[l.first], l.records[..kept], settled)
    requires Shows(crc, after[l.first], l.records[..kept], kept)
    ensures TailKept(crc, before, after, l, kept, settled)
  {
    hide SegmentBytes;
  }

  lemma TailKeptOnDisk(crc: Crc, before: map<nat, Image>, after: map<nat, Image>, log: seq<Laid>,
          flushed: nat, live: nat, kept: nat, settled: nat)
    requires Chained(log) && log != [] && OnDisk(crc, before, log, flushed, live)
    requires TailKept(crc, before, after, log[|log| - 1], kept, settled)
    ensures var records := log[|log| - 1].records[..kept];
      && OnDisk(crc, after, Relaid(log, records), settled, kept)
      && Chained(Relaid(log, records))
      && Join(Relaid(log, records)) == Join(log[..|log| - 1]) + records
  {
    hide Holds, Shows, Sealed, Names;
    RelaidPrefix(log, kept);
    TailOnDisk(crc, before, log, flushed, live, after, log[|log| - 1].records[..kept], settled, kept);
  }

  /** Only the last segment's file and contents changed. */
  lemma TailOnDisk(crc: Crc, files: map<nat, Image>, log: seq<Laid>, flushed: nat, live: nat,
          after: map<nat, Image>, records: seq<Record>, settled: nat, showing: nat)
    requires Chained(log) && log != [] && OnDisk(crc, files, log, flushed, live)
    requires after.Keys == files.Keys
    requires forall n :: n in files && n != log[|log| - 1].first ==> after[n] == files[n]
    requires log[|log| - 1].first in files && settled <= showing
    requires Holds(crc, after[log[|log| - 1].first], records, settled)
    requires Shows(crc, after[log[|log| - 1].first], records, showing)
    ensures OnDisk(crc, after, Relaid(log, records), settled, showing)
  {
    hide Holds, Shows, Sealed, Names, Numbered;
    SameNames(log, Relaid(log, records));
  }

  /** A batch, or as much of it as landed, written above the last segment's records. */
  lemma AppendOnDisk(crc: Crc, files: map<nat, Image>, log: seq<Laid>, flushed: nat, live: nat, batch: seq<Record>,
          done: nat)
    requires Chained(log) && log != [] && OnDisk(crc, files, log, flushed, live)
    requires var tail := log[|log| - 1];
      && tail.first in files && |files[tail.first].past| == |files[tail.first].bytes|
      && live == |tail.records|
      && Numbered(batch, tail.first + |tail.records|)
      && |SegmentBytes(crc, tail.records)| + |Encode(crc, batch)| <= |files[tail.first].bytes|
    requires (forall r :: r in batch ==> Encodable(r)) && done <= |Encode(crc, batch)|
    ensures var tail := log[|log| - 1];
      var after := files[tail.first := Write(files[tail.first], |SegmentBytes(crc, tail.records)|,
        Encode(crc, batch)[..done])];
      var next := Relaid(log, tail.records + batch);
      && Chained(next)
      && Join(next) == Join(log) + batch
      && OnDisk(crc, after, next, flushed, live)
      && (done == |Encode(crc, batch)| ==> OnDisk(crc, after, next, flushed, live + |batch|))
  {
    hide Holds, Shows, Sealed, Names, SegmentBytes, Encode, Write, Encodable;
    var tail := log[|log| - 1];
    var g := Write(files[tail.first], |SegmentBytes(crc, tail.records)|, Encode(crc, batch)[..done]);
    var after := files[tail.first := g];
    WriteBatch(crc, files[tail.first], tail.records, flushed, batch, done);
    RelaidChained(log, tail.records + batch);
    TailOnDisk(crc, files, log, flushed, live, after, tail.records + batch, flushed, live);
    if done == |Encode(crc, batch)| {
      TailOnDisk(crc, files, log, flushed, live, after, tail.records + batch, flushed, live + |batch|);
    }
    assert Join(log) == Join(log[..|log| - 1]) + tail.records;
    assert Join(log[..|log| - 1]) + (tail.records + batch) == Join(log[..|log| - 1]) + tail.records + batch;
  }

  /** Zeroing what a failed batch left. If all of it is zeroed and flushed, the
      batch is gone and everything below it is settled. */
  lemma ZeroOnDisk(crc: Crc, files: map<nat, Image>, log: seq<Laid>, records: seq<Record>, flushed: nat,
          batch: seq<Record>, done: nat)
    requires Chained(log) && log != [] && log[|log| - 1].records == records + batch
    requires OnDisk(crc, files, log, flushed, |records|)
    requires done <= |Encode(crc, batch)|
    ensures var name := log[|log| - 1].first;
      && name in files && |files[name].past| == |files[name].bytes|
      && |SegmentBytes(crc, records)| + |Encode(crc, batch)| <= |files[name].bytes|
    ensures var name := log[|log| - 1].first;
      var zeroed := Write(files[name], |SegmentBytes(crc, records)|, Zeros(done));
      && OnDisk(crc, files[name := zeroed], log, flushed, |records|)
      && (done == |Encode(crc, batch)| ==>
            OnDisk(crc, files[name := Flush(zeroed)], Relaid(log, records), |records|, |records|))
    ensures Chained(Relaid(log, records))
  {
    hide Shows, Sealed, Names, SegmentBytes, Encode, Write, Encodable, Flush, Chained, Join;
    assert (records + batch)[..|records|] == records;
    RelaidPrefix(log, |records|);
    var name := log[|log| - 1].first;
    ZeroBatch(crc, files[name], records, flushed, batch, done);
    var zeroed := Write(files[name], |SegmentBytes(crc, records)|, Zeros(done));
    TailOnDisk(crc, files, log, flushed, |records|, files[name := zeroed], records + batch, flushed, |records|);
    RelaidSame(log);
    if done == |Encode(crc, batch)| {
      TailOnDisk(crc, files, log, flushed, |records|, files[name := Flush(zeroed)], records, |records|, |records|);
    }
  }

  /** A flush settles everything the store stands by. */
  lemma FlushOnDisk(crc: Crc, files: map<nat, Image>, log: seq<Laid>, flushed: nat, live: nat)
    requires Chained(log) && log != [] && OnDisk(crc, files, log, flushed, live)
    ensures var name := log[|log| - 1].first;
      name in files && OnDisk(crc, files[name := Flush(files[name])], log, live, live)
  {
    hide Holds, Shows, Sealed, Names, Flush;
    var tail := log[|log| - 1];
    FlushSettles(crc, files[tail.first], tail.records, flushed, live);
    TailOnDisk(crc, files, log, flushed, live, files[tail.first := Flush(files[tail.first])], tail.records, live, live);
    RelaidSame(log);
  }

  /** Dropping the oldest segment. */
  lemma DropOnDisk(crc: Crc, files: map<nat, Image>, log: seq<Laid>, flushed: nat, live: nat)
    requires Chained(log) && |log| > 1 && OnDisk(crc, files, log, flushed, live)
    ensures Chained(log[1..]) && Join(log) == log[0].records + Join(log[1..])
    ensures OnDisk(crc, files - {log[0].first}, log[1..], flushed, live)
    ensures log[|log| - 1].first in files && log[|log| - 1].first != log[0].first
  {
    hide Holds, Shows, Sealed, Join, Names, Chained;
    JoinDropFirst(log);
    DropChained(log);
    DropNames(log);
    var rest, left := log[1..], files - {log[0].first};
    assert left.Keys == files.Keys - {log[0].first};
    assert rest[|rest| - 1] == log[|log| - 1];
    forall i | 0 <= i < |rest|
      ensures rest[i] == log[i + 1]
      ensures (rest[i].first in files ==> rest[i].first in left && left[rest[i].first] == files[rest[i].first])
    {
    }
  }

  lemma DropChained(log: seq<Laid>)
    requires Chained(log) && log != []
    ensures Chained(log[1..])
    ensures forall i :: 0 < i < |log| ==> log[0].first < log[i].first
  {
    hide Numbered;
    var rest := log[1..];
    assert forall i :: 0 <= i < |rest| ==> rest[i] == log[i + 1];
    assert forall i :: 0 < i < |rest| ==> rest[i - 1] == log[i];
  }

  lemma DropNames(log: seq<Laid>)
    requires Chained(log) && log != []
    ensures Names(log[1..]) == Names(log) - {log[0].first}
  {
    forall n | n in Names(log) - {log[0].first}
      ensures n in Names(log[1..])
    {
      var i := NameIndex(log, n);
      assert log[1..][i - 1] == log[i] && log[1..][i - 1] in log[1..];
    }
    forall n | n in Names(log[1..])
      ensures n in Names(log) - {log[0].first}
    {
      var i := NameIndex(log[1..], n);
      assert log[1..][i] == log[i + 1] && log[i + 1] in log && log[0].first < log[i + 1].first;
    }
  }

  /** A power cut leaves a directory of which the same things were true. */
  lemma CrashOnDisk(crc: Crc, files: map<nat, Image>, log: seq<Laid>, flushed: nat, live: nat, after: map<nat, Image>)
    requires OnDisk(crc, files, log, flushed, live)
    requires after.Keys == files.Keys
    requires forall n :: n in files ==>
      Survives(files[n], after[n].bytes) && after[n] == Flush(Image(after[n].bytes, []))
    ensures OnDisk(crc, after, log, flushed, flushed)
  {
    hide Holds, Shows, Sealed, Names, Flush, Survives;
    forall i | 0 <= i < |log| - 1
      ensures log[i].first in after && Sealed(crc, after[log[i].first], log[i].records)
    {
      var name := log[i].first;
      CrashSealed(crc, files[name], log[i].records, after[name].bytes);
    }
    if log != [] {
      var tail := log[|log| - 1];
      CrashHolds(crc, files[tail.first], tail.records, flushed, after[tail.first].bytes);
      FlushedShows(crc, after[tail.first], tail.records, flushed);
    }
  }

  lemma SegmentAt(crc: Crc, files: map<nat, Image>, log: seq<Laid>, flushed: nat, live: nat, i: nat)
    requires i < |log| && OnDisk(crc, files, log, flushed, live) && Detectable(crc, files, log)
    ensures log[i].first in files
    ensures i < |log| - 1 ==> Sealed(crc, files[log[i].first], log[i].records)
    ensures i == |log| - 1 ==>
      && flushed <= live
      && Holds(crc, files[log[i].first], log[i].records, flushed)
      && Shows(crc, files[log[i].first], log[i].records, live)
      && Detects(crc, files[log[i].first].bytes, SEG_PROLOGUE, log[i].records)
  {
    hide Holds, Shows, Sealed, Detects, Names;
  }

  /** Closing the last segment and starting one named for `first`. */
  lemma RotateOnDisk(crc: Crc, files: map<nat, Image>, log: seq<Laid>, flushed: nat, live: nat, first: nat, len: nat)
    requires Chained(log) && OnDisk(crc, files, log, flushed, live)
    requires len >= SEG_PROLOGUE && first >= 1
    requires log != [] ==>
      var tail := log[|log| - 1];
      live == |tail.records| > 0 && first == tail.first + |tail.records|
    ensures log != [] ==>
      log[|log| - 1].first in files && |files[log[|log| - 1].first].past| == |files[log[|log| - 1].first].bytes|
    ensures var next := log + [Laid(first, [])];
      var closed := if log == [] then files else
        var tail := log[|log| - 1];
        files[tail.first := Flush(SetLen(files[tail.first], |SegmentBytes(crc, tail.records)|))];
      var blank := Flush(Write(SetLen(Image([], []), len), 0, PROLOGUE));
      && Chained(next)
      && Join(next) == Join(log)
      && OnDisk(crc, closed[first := blank], next, 0, 0)
      && |blank.bytes| == len
  {
    hide Holds, Shows, Sealed, Names, Join, SegmentBytes, SetLen, Write, Flush, Numbered;
    SnocChained(log, first);
    SnocNames(log, Laid(first, []));
    FreshHolds(crc, len);
    if log != [] {
      var tail := log[|log| - 1];
      TailWellFormed(crc, files, log, flushed, live);
      assert tail in log;
      SealHolds(crc, files[tail.first], tail.records, flushed);
    }
    var next := log + [Laid(first, [])];
    forall i | 0 <= i < |next| - 1
      ensures next[i] == log[i] && next[i].first != first && log[i].first in files
    {
      assert next[i] == log[i];
      assert log[i].first < next[|log|].first;
    }
  }

  /** A scan reads back what was laid down in a closed segment, and what is showing
      of the last one. */
  lemma FoundScan(crc: Crc, files: map<nat, Image>, log: seq<Laid>, flushed: nat, live: nat, showing: nat, i: nat)
    requires i < |log| && OnDisk(crc, files, log, flushed, live) && Detectable(crc, files, log)
    requires log[|log| - 1].first in files
    requires showing == Intact(crc, files[log[|log| - 1].first].bytes, SEG_PROLOGUE, log[|log| - 1].records)
    ensures log[i].first in files
    ensures var b := files[log[i].first].bytes;
      PROLOGUE <= b && ScanFrom(crc, b, SEG_PROLOGUE).records ==
        if i < |log| - 1 then log[i].records else log[i].records[..showing]
  {
    hide OnDisk, Detectable, Holds, Shows, Sealed, Names, Detects, Intact, ScanFrom, SegmentBytes;
    SegmentAt(crc, files, log, flushed, live, i);
    if i < |log| - 1 {
      SealedScan(crc, files[log[i].first], log[i].records);
    } else {
      ScanRecovers(crc, files[log[i].first], log[i].records, flushed, live);
    }
  }

  lemma StoredBelowMax(crc: Crc, files: map<nat, Image>, log: seq<Laid>, flushed: nat, live: nat)
    requires OnDisk(crc, files, log, flushed, live)
    ensures forall j :: 0 <= j < |log| ==> forall r :: r in log[j].records ==> r.version < MAX_VERSION
  {
    hide SegmentBytes, Names, Shows;
    forall j | 0 <= j < |log|
      ensures forall r :: r in log[j].records ==> Encodable(r)
    {
    }
  }

  lemma RelaidLast(log: seq<Laid>, records: seq<Record>)
    requires log != []
    ensures var next := Relaid(log, records);
      && |next| == |log| && next[|log| - 1] == Laid(log[|log| - 1].first, records)
      && forall i :: 0 <= i < |log| - 1 ==> next[i] == log[i]
  {
  }

  lemma RelaidFirst(log: seq<Laid>, records: seq<Record>)
    requires log != []
    ensures |Relaid(log, records)| == |log| && Relaid(log, records)[0].first == log[0].first
  {
  }

  lemma UptoLength(log: seq<Laid>, n: nat)
    requires Chained(log) && log != [] && n <= |log[|log| - 1].records|
    ensures log[0].first + |Upto(log, n)| == log[|log| - 1].first + n
  {
    hide Chained;
    if |log| > 1 {
      ChainedPrefix(log, |log| - 1);
      JoinNumbered(log[..|log| - 1]);
      ChainedDue(log, |log| - 2);
    }
  }

  lemma RelaidSame(log: seq<Laid>)
    requires log != []
    ensures Relaid(log, log[|log| - 1].records) == log
  {
  }

  lemma GrowOnDisk(crc: Crc, files: map<nat, Image>, log: seq<Laid>, flushed: nat, live: nat, len: nat)
    requires Chained(log) && log != [] && OnDisk(crc, files, log, flushed, live)
    requires log[|log| - 1].first in files
    requires len >= |files[log[|log| - 1].first].bytes| == |files[log[|log| - 1].first].past|
    ensures var name := log[|log| - 1].first;
      OnDisk(crc, files[name := SetLen(files[name], len)], log, flushed, live)
  {
    hide Holds, Shows, Sealed, Names, Numbered, SetLen;
    var tail := log[|log| - 1];
    GrowHolds(crc, files[tail.first], tail.records, flushed, live, len);
    TailOnDisk(crc, files, log, flushed, live, files[tail.first := SetLen(files[tail.first], len)], tail.records,
      flushed, live);
    RelaidSame(log);
  }

  lemma TailWellFormed(crc: Crc, files: map<nat, Image>, log: seq<Laid>, flushed: nat, live: nat)
    requires log != [] && OnDisk(crc, files, log, flushed, live)
    ensures var tail := log[|log| - 1];
      && tail.first in files
      && |files[tail.first].past| == |files[tail.first].bytes|
      && flushed <= live <= |tail.records|
      && |SegmentBytes(crc, tail.records[..live])| <= |files[tail.first].bytes|
  {
    hide SegmentBytes, Sealed, Names, Numbered;
  }

  lemma TailHolds(crc: Crc, files: map<nat, Image>, log: seq<Laid>, flushed: nat, live: nat)
    requires log != [] && OnDisk(crc, files, log, flushed, live)
    ensures var tail := log[|log| - 1];
      && tail.first in files && flushed <= live
      && Holds(crc, files[tail.first], tail.records, flushed)
      && Shows(crc, files[tail.first], tail.records, live)
  {
    hide Holds, Shows, Sealed, Names;
  }

  // ---- directory listing ----------------------------------------------

  ghost predicate Ascending(s: seq<nat>) {
    forall i, j :: 0 <= i < j < |s| ==> s[i] < s[j]
  }

  lemma {:induction false} Least(names: set<nat>, x: nat) returns (m: nat)
    requires x in names
    ensures m in names && forall n :: n in names ==> m <= n
    decreases x
  {
    if y :| y in names && y < x {
      m := Least(names, y);
    } else {
      m := x;
    }
  }

  /** The names in a directory, in ascending order. */
  method Sorted(names: set<nat>) returns (s: seq<nat>)
    ensures Ascending(s)
    ensures forall n :: n in s <==> n in names
  {
    s := [];
    var rest := names;
    while rest != {}
      invariant rest <= names
      invariant Ascending(s)
      invariant forall n :: n in s <==> n in names && n !in rest
      invariant forall n, m :: n in s && m in rest ==> n < m
      decreases rest
    {
      ghost var some :| some in rest;
      ghost var lowest := Least(rest, some);
      var least :| least in rest && forall n :: n in rest ==> least <= n;
      assert forall i :: 0 <= i < |s| ==> s[i] in s;
      s := s + [least];
      rest := rest - {least};
    }
  }

  lemma LastIsGreatest(a: seq<nat>, n: nat)
    requires Ascending(a) && n in a
    ensures n <= a[|a| - 1]
  {
  }

  lemma AscendingInit(a: seq<nat>, b: seq<nat>, n: nat)
    requires a != [] && b != [] && Ascending(a) && a[|a| - 1] == b[|b| - 1]
    requires forall n :: n in a ==> n in b
    requires n in Init(a)
    ensures n in Init(b)
  {
    var i :| 0 <= i < |Init(a)| && Init(a)[i] == n;
    assert a[i] == n && n < a[|a| - 1];
    assert n in a;
    var j :| 0 <= j < |b| && b[j] == n;
    assert Init(b)[j] == n;
  }

  /** There is only one way to list a set in ascending order. */
  lemma {:induction false} AscendingUnique(a: seq<nat>, b: seq<nat>)
    requires Ascending(a) && Ascending(b)
    requires forall n :: n in a ==> n in b
    requires forall n :: n in b ==> n in a
    ensures a == b
    decreases |a|
  {
    assert a != [] ==> a[0] in a && a[0] in b;
    assert b != [] ==> b[0] in b && b[0] in a;
    if a != [] && b != [] {
      var x, y := a[|a| - 1], b[|b| - 1];
      LastIsGreatest(a, y);
      LastIsGreatest(b, x);
      forall n | n in Init(a)
        ensures n in Init(b)
      {
        AscendingInit(a, b, n);
      }
      forall n | n in Init(b)
        ensures n in Init(a)
      {
        AscendingInit(b, a, n);
      }
      hide Ascending;
      AscendingUnique(Init(a), Init(b));
      assert a == Init(a) + [x] && b == Init(b) + [y];
    }
  }

  /** So the listing of a directory is the order its segments were laid down in. */
  lemma ListingIsLog(names: seq<nat>, log: seq<Laid>)
    requires Chained(log) && Ascending(names)
    requires forall n :: n in names <==> n in Names(log)
    ensures |names| == |log| && forall i :: 0 <= i < |log| ==> names[i] == log[i].first
  {
    var firsts := seq(|log|, i requires 0 <= i < |log| => log[i].first);
    forall n | n in names
      ensures n in firsts
    {
      var i := NameIndex(log, n);
      assert firsts[i] == n;
    }
    forall n | n in firsts
      ensures n in names
    {
      var i :| 0 <= i < |firsts| && firsts[i] == n;
      assert log[i] in log;
      assert n in Names(log);
    }
    AscendingUnique(names, firsts);
  }
}
