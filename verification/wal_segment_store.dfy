/** The store over a directory of segments. */
module SegmentStore {
  import opened Common
  import opened Bytes
  import opened Format
  import opened Sys
  import opened Segment
  import opened Wal

  datatype Error =
    | NotASegment | Gap | Misnamed | TornMidLog | HeaderAhead
    | OutOfOrder | Empty | Oversized | Exhausted
    | Poisoned | Io | CleanupFailed | Reclaimed

  datatype Result<T> = Ok(value: T) | Err(error: Error)

  /** What a segment's name says plus what the last scan or append established. */
  datatype Info = Info(first: nat, end: nat, last: int)

  /** Walk the records of one segment until `stop` says so of those seen. */
  method ScanSegment(crc: Crc, b: seq<byte>, stop: seq<Record> -> bool) returns (r: Result<Scan>)
    ensures r.Ok? <==> |b| >= SEG_PROLOGUE && b[..8] == PROLOGUE[..8]
    ensures r.Err? ==> r.error == NotASegment
    ensures r.Ok? ==>
      var all := ScanFrom(crc, b, SEG_PROLOGUE);
      && r.value.records <= all.records
      && (forall k :: 0 < k < |r.value.records| ==> !stop(all.records[..k]))
      && (if r.value.records != [] && stop(r.value.records) then
            r.value == Scan(r.value.records, SEG_PROLOGUE + |Encode(crc, r.value.records)|, false)
          else r.value == all)
  {
    hide ParseAt, Encode, EncodeRecord;
    EncodeNone(crc);
    if |b| < SEG_PROLOGUE || b[..8] != PROLOGUE[..8] {
      return Err(NotASegment);
    }
    var end, seen := SEG_PROLOGUE, [];
    ghost var all := ScanFrom(crc, b, SEG_PROLOGUE);
    while true
      invariant SEG_PROLOGUE <= end <= |b|
      invariant var rest := ScanFrom(crc, b, end);
        all == Scan(seen + rest.records, rest.end, rest.torn)
      invariant forall k :: 0 < k <= |seen| ==> !stop(all.records[..k])
      invariant seen <= all.records && end == SEG_PROLOGUE + |Encode(crc, seen)|
      decreases |b| - end
    {
      assert all.records[..|seen|] == seen;
      match ParseAt(crc, b, end) {
        case Clean => return Ok(Scan(seen, end, false));
        case Torn => return Ok(Scan(seen, end, true));
        case Found(record) =>
          ghost var rest := ScanFrom(crc, b, end);
          end := end + REC_PREFIX + |record.payload|;
          assert seen + rest.records == (seen + [record]) + ScanFrom(crc, b, end).records;
          EncodeConcat(crc, seen, [record]);
          EncodeSingle(crc, record);
          seen := seen + [record];
          assert all.records[..|seen|] == seen;
          if stop(seen) {
            return Ok(Scan(seen, end, false));
          }
      }
    }
  }

  lemma EncodeSingle(crc: Crc, record: Record)
    ensures |Encode(crc, [record])| == REC_PREFIX + |record.payload|
  {
    assert [record][1..] == [];
  }

  /** Whether a batch is one an append takes: contiguous from `next`, no empty
      or oversized payload, and a version left to name after each record. */
  ghost predicate Fits(records: seq<Record>, next: int) {
    forall i :: 0 <= i < |records| ==>
      && records[i].version == next + i < MAX_VERSION
      && 0 < |records[i].payload| <= MAX_PAYLOAD
  }

  /** What is wrong with the record that is to take version `next`. */
  ghost predicate WrongWith(error: Error, record: Record, next: int) {
    if record.version != next then error == OutOfOrder
    else if record.payload == [] then error == Empty
    else if |record.payload| > MAX_PAYLOAD then error == Oversized
    else next >= MAX_VERSION && error == Exhausted
  }

  /** What is wrong with the first record of a batch that does not fit. */
  ghost predicate Unfit(error: Error, records: seq<Record>, next: int) {
    exists i: nat :: i < |records| && Fits(records[..i], next) && WrongWith(error, records[i], next + i)
  }

  /** The first `j` records of a batch land whole, then the write fails, and so does
      the zeroing after it. */
  ghost predicate StopsAfter(crc: Crc, records: seq<Record>, writes: seq<Fault>, zeroing: seq<Fault>, j: nat) {
    && j < |records| <= IOV_MAX / 2
    && writes == [Take(|Encode(crc, records[..j])|), Fault.Broken] && zeroing != [] && zeroing[0].Broken?
  }

  /** Two buffers a record. */
  ghost function Buffered(crc: Crc, records: seq<Record>): seq<seq<byte>> {
    if records == [] then []
    else Buffered(crc, Init(records)) + [RecordPrefix(crc, Last(records)), Last(records).payload]
  }

  /** What becomes of a batch: written whole; or else zeroed, and the zeros flushed; or
      neither. */
  ghost function Becomes(crc: Crc, records: seq<Record>, writes: seq<Fault>, zeroing: seq<Fault>,
          flushWorks: bool): Result<()> {
    if Goes(Buffered(crc, records), writes).ok then Ok(())
    else if GoesZero(|Encode(crc, records)|, zeroing).0 && flushWorks then Err(Io)
    else Err(CleanupFailed)
  }

  /** Where no write fails or takes nothing a batch is written, and a failed one is
      cleaned up. */
  lemma BecomesBy(crc: Crc, records: seq<Record>, writes: seq<Fault>, zeroing: seq<Fault>, flushWorks: bool)
    requires forall r :: r in records ==> r.payload != []
    ensures
      var r := Becomes(crc, records, writes, zeroing, flushWorks);
      r == Ok(()) || r == Err(Io) || r == Err(CleanupFailed)
    ensures Fine(writes) ==> Becomes(crc, records, writes, zeroing, flushWorks) == Ok(())
    ensures Fine(zeroing) && flushWorks ==> Becomes(crc, records, writes, zeroing, flushWorks) != Err(CleanupFailed)
  {
    hide Goes, GoesZero, Buffered, NoneEmpty, Fine;
    BufferedFull(crc, records);
    if Fine(writes) {
      FineGoes(Buffered(crc, records), writes);
    }
    if Fine(zeroing) {
      FineZero(|Encode(crc, records)|, zeroing);
    }
  }

  lemma {:induction false} BufferedFull(crc: Crc, records: seq<Record>)
    requires forall r :: r in records ==> r.payload != []
    ensures NoneEmpty(Buffered(crc, records))
  {
    hide RecordPrefix;
    if records != [] {
      BufferedFull(crc, Init(records));
      PrefixLong(crc, Last(records));
    }
  }

  lemma PrefixLong(crc: Crc, r: Record)
    ensures RecordPrefix(crc, r) != []
  {
  }

  lemma BufferedNext(crc: Crc, records: seq<Record>, i: nat)
    requires i < |records|
    ensures Buffered(crc, records[..i + 1]) ==
      Buffered(crc, records[..i]) + [RecordPrefix(crc, records[i]), records[i].payload]
  {
    assert Init(records[..i + 1]) == records[..i] && Last(records[..i + 1]) == records[i];
  }

  /** No zeros were written. */
  ghost predicate Untouched(before: map<nat, Image>, after: map<nat, Image>, name: nat, end: nat) {
    && name in before && |before[name].past| == |before[name].bytes| && end <= |before[name].bytes|
    && after == before[name := Write(before[name], end, Zeros(0))]
  }

  lemma Untouching(before: map<nat, Image>, after: map<nat, Image>, name: nat, end: nat)
    requires name in before && |before[name].past| == |before[name].bytes| && end <= |before[name].bytes|
    requires after == before[name := Write(before[name], end, Zeros(0))]
    ensures Untouched(before, after, name, end)
  {
  }

  lemma SameFiles(before: map<nat, Image>, after: map<nat, Image>, name: nat, end: nat)
    requires Untouched(before, after, name, end)
    ensures after == before
  {
    hide Write;
    assert Zeros(0) == [];
    WriteNothing(before[name], end);
  }

  /** The least multiple of `unit` that is at least `n`. */
  function NextMultiple(n: nat, unit: nat): (m: nat)
    requires unit > 0
    ensures n <= m < n + unit && m == (if n % unit == 0 then n / unit else n / unit + 1) * unit
  {
    if n % unit == 0 then n else n + (unit - n % unit)
  }

  class SegmentStore {
    const crc: Crc
    const disk: Disk
    const rotateBytes: nat
    var segments: seq<Info>
    var active: bool
    var capacity: nat
    var headerVersion: nat
    var recovered: bool
    var poison: Option<nat>
    /** What was laid down in each segment, how much of the last one is flushed,
        and how much of it the store stands by. */
    ghost var log: seq<Laid>
    ghost var flushed: nat
    ghost var live: nat

    ghost predicate Valid()
      reads this, disk
    {
      && Directory()
      && (recovered ==> Caught())
      && (!recovered ==> poison == None && !active)
    }

    /** As valid, but for what the header covers. */
    ghost predicate Sane()
      reads this, disk
    {
      && Stands()
      && (recovered ==> Caught())
      && (!recovered ==> poison == None && !active)
    }

    /** What holds of the directory, whether or not it has been scanned. */
    ghost predicate Directory()
      reads this`log, this`flushed, this`live, this`headerVersion, this`segments, disk
    {
      Stands() && HeaderCovers(headerVersion, log, flushed)
    }

    ghost predicate Stands()
      reads this`log, this`flushed, this`live, this`headerVersion, this`segments, disk
    {
      && rotateBytes >= SEG_PROLOGUE + REC_PREFIX
      && Chained(log)
      && OnDisk(crc, disk.files, log, flushed, live)
      && headerVersion == HeaderVersion(disk.header)
      && |segments| == |log|
      && (forall i :: 0 <= i < |log| ==> segments[i].first == log[i].first)
    }

    /** The ends and last versions match what was laid down. */
    ghost predicate Measured()
      reads this`log, this`live, this`segments
    {
      && |segments| == |log| && (log != [] ==> live <= |log[|log| - 1].records|)
      && (forall i :: 0 <= i < |log| - 1 ==>
            segments[i] == Info(log[i].first, |SegmentBytes(crc, log[i].records)|, log[i].first + |log[i].records| - 1))
      && (log != [] ==>
            var tail := log[|log| - 1];
            segments[|log| - 1] == Info(tail.first, |SegmentBytes(crc, tail.records[..live])|, tail.first + live - 1))
    }

    /** What a scan establishes and every append keeps. */
    ghost predicate Caught()
      reads this, disk
    {
      && Measured()
      && (active <==> log != [])
      && (poison.Some? ==> log != [])
      && (log != [] ==>
            var tail := log[|log| - 1];
            && tail.first in disk.files && segments[|log| - 1].end <= capacity <= |disk.files[tail.first].bytes|
            && (poison == None ==> live == |tail.records|))
    }

    /** Everything the bytes on disk could still turn into, and the part of it
        the store has accepted, and the part of that a power cut cannot take. */
    ghost function Everything(): seq<Record>
      reads this`log
    {
      Join(log)
    }

    ghost function Accepted(): seq<Record>
      reads this`log, this`live
    {
      Upto(log, live)
    }

    ghost function Durable(): seq<Record>
      reads this`log, this`flushed
    {
      Upto(log, flushed)
    }

    /** How many of the last segment's records are there byte for byte. */
    ghost function Showing(): nat
      reads this`log, disk`files
    {
      if log == [] || log[|log| - 1].first !in disk.files then 0
      else Intact(crc, disk.files[log[|log| - 1].first].bytes, SEG_PROLOGUE, log[|log| - 1].records)
    }

    /** What a scan would find now. */
    ghost function Recoverable(): seq<Record>
      reads this`log, disk`files
    {
      Upto(log, Showing())
    }

    /** How many records of a batch that could not be cleaned up are still there
        byte for byte above the logical end. */
    ghost function Landed(batch: seq<Record>): (k: nat)
      reads this`log, this`poison, disk`files
      ensures k <= |batch|
    {
      if poison == None || log == [] || log[|log| - 1].first !in disk.files then 0
      else Intact(crc, disk.files[log[|log| - 1].first].bytes, poison.value, batch)
    }

    /** The first version still stored, or the next to be. */
    ghost function Origin(): nat
      reads this`log, this`headerVersion
    {
      if log == [] then headerVersion + 1 else log[0].first
    }

    function NextVersion(): int
      reads this`segments, this`headerVersion
    {
      if segments == [] then headerVersion + 1 else segments[|segments| - 1].last + 1
    }

    function Oldest(): nat
      reads this`segments, this`headerVersion
    {
      if segments == [] then headerVersion + 1 else segments[0].first
    }

    // ---- opening ------------------------------------------------------

    /** A store on a directory some earlier run left behind; nothing is scanned yet. */
    constructor Open(crc: Crc, disk: Disk, rotateBytes: nat, ghost log: seq<Laid>, ghost flushed: nat, ghost live: nat)
      requires Chained(log) && OnDisk(crc, disk.files, log, flushed, live)
      requires HeaderCovers(HeaderVersion(disk.header), log, flushed)
      ensures Valid() && !recovered
      ensures this.crc == crc && this.disk == disk
      ensures this.log == log && this.flushed == flushed && this.live == live
      ensures this.rotateBytes ==
        if rotateBytes < SEG_PROLOGUE + REC_PREFIX then SEG_PROLOGUE + REC_PREFIX else rotateBytes
    {
      hide OnDisk, HeaderCovers, Chained;
      this.crc := crc;
      this.disk := disk;
      this.rotateBytes := if rotateBytes < SEG_PROLOGUE + REC_PREFIX then SEG_PROLOGUE + REC_PREFIX else rotateBytes;
      this.active := false;
      this.capacity := 0;
      this.segments := [];
      this.headerVersion := HeaderVersion(disk.header);
      this.recovered := false;
      this.poison := None;
      this.log := log;
      this.flushed := flushed;
      this.live := live;
      new;
      ListSegments();
    }

    method ListSegments()
      requires Chained(log) && OnDisk(crc, disk.files, log, flushed, live)
      modifies this`segments
      ensures |segments| == |log|
      ensures forall i :: 0 <= i < |log| ==> segments[i] == Info(log[i].first, 0, log[i].first as int - 1)
    {
      hide Sealed, Holds, Shows, Chained, Ascending, Names;
      var names := Sorted(disk.files.Keys);
      ListingIsLog(names, log);
      segments := seq(|names|, i requires 0 <= i < |names| => Info(names[i], 0, names[i] as int - 1));
    }

    // ---- recovery -----------------------------------------------------

    /** Check that a segment's records continue the run, and keep those above the header. */
    method Visit(records: seq<Record>, first: nat, due: Option<int>, collect: bool)
      returns (r: Result<seq<Record>>)
      ensures var start := if due.Some? then due.value else first;
        r.Ok? <==> forall j :: 0 <= j < |records| ==> records[j].version == start + j
      ensures r.Ok? ==> r.value == if collect then Above(records, headerVersion) else []
    {
      var next := due;
      var tail := [];
      ghost var start := if due.Some? then due.value else first;
      for i := 0 to |records|
        invariant forall j :: 0 <= j < i ==> records[j].version == start + j
        invariant next == if i == 0 then due else Some(start + i)
        invariant tail == if collect then Above(records[..i], headerVersion) else []
      {
        var version := records[i].version;
        if next.Some? && version != next.value {
          return Err(Gap);
        }
        if next.None? && version != first {
          return Err(Misnamed);
        }
        next := Some(version + 1);
        assert records[..i + 1][..i] == records[..i];
        if collect && version > headerVersion {
          tail := tail + [records[i]];
        }
      }
      assert records[..|records|] == records;
      return Ok(tail);
    }

    /** The version the scan expects when it comes to a segment. */
    ghost function DueAt(index: nat): Option<int>
      requires index < |log|
      reads this
    {
      if index == 0 then None else Some(log[index].first)
    }

    /** Scan one segment and, if anything sits above its last record, cut it there. */
    method RecoverSegment(index: nat, due: Option<int>, collect: bool)
      returns (r: Result<(seq<Record>, Option<int>)>, ghost kept: nat, ghost settled: nat)
      requires Directory() && Detectable(crc, disk.files, log)
      requires index < |log| == |segments| && due == DueAt(index)
      modifies this`segments, disk`files
      ensures kept <= |log[index].records|
      ensures r == Ok((if collect then Above(log[index].records[..kept], headerVersion) else [],
                       if kept == 0 then due else Some(log[index].first + kept)))
      ensures segments ==
        old(segments)[index := Info(log[index].first, |SegmentBytes(crc, log[index].records[..kept])|,
        log[index].first + kept - 1)]
      ensures index < |log| - 1 ==> kept == |log[index].records| && disk.files == old(disk.files)
      ensures index == |log| - 1 ==>
        && flushed <= settled && live <= kept
        && TailKept(crc, old(disk.files), disk.files, log[index], kept, settled)
        && kept == old(Showing())
    {
      hide OnDisk, HeaderCovers, Detectable, Intact, Holds, Shows, Sealed, ScanFrom, Detects, SegmentBytes, Above,
        Encode, TailKept, SetLen, Flush, Chained, HeaderVersion, Directory;
      Listing(index);
      NumberedAt(index);
      SegmentAt(crc, disk.files, log, flushed, live, index);
      var first := segments[index].first;
      var image := disk.files[first];
      ghost var records := log[index].records;
      if index < |log| - 1 {
        SealedScan(crc, image, records);
        kept, settled := |records|, flushed;
        assert records[..kept] == records;
      } else {
        kept := TailScan(crc, image, records, flushed, live);
        settled := if |SegmentBytes(crc, records[..kept])| < |image.bytes| then kept else flushed;
      }
      assert image.bytes[..8] == PROLOGUE[..8];
      var scanned := ScanSegment(crc, image.bytes, _ => false);
      if scanned.Err? {
        assert false;
        return Err(NotASegment), kept, settled;
      }
      var scan := scanned.value;
      var tail := Visit(scan.records, first, due, collect);
      if tail.Err? {
        assert false;
        return Err(Gap), kept, settled;
      }
      if scan.torn && index != |segments| - 1 {
        assert false;
        return Err(TornMidLog), kept, settled;
      }
      if |image.bytes| > scan.end {
        disk.SetFileLen(first, scan.end);
        disk.Fdatasync(first, true);
      }
      if index == |segments| - 1 {
        MakeTailKept(crc, old(disk.files), disk.files, log[index], kept, settled);
      }
      var next := if scan.records == [] then due else Some(scan.records[|scan.records| - 1].version + 1);
      segments := segments[index := Info(first, scan.end, if next.Some? then next.value - 1 else first - 1)];
      return Ok((tail.value, next)), kept, settled;
    }

    lemma Listing(index: nat)
      requires Directory() && index < |log| && Detectable(crc, disk.files, log)
      ensures |segments| == |log| && segments[index].first == log[index].first && log[index].first in disk.files
      ensures OnDisk(crc, disk.files, log, flushed, live)
    {
      hide OnDisk, HeaderCovers, Chained, SegmentBytes, Detectable;
      SegmentAt(crc, disk.files, log, flushed, live, index);
    }

    lemma NumberedAt(index: nat)
      requires Directory() && index < |log|
      ensures log[index].first >= 1 && Numbered(log[index].records, log[index].first)
    {
      hide OnDisk, HeaderCovers;
    }

    /** The loop over the segments. `kept` of the last segment's records survive. */
    method ScanAll(collect: bool) returns (r: Result<seq<Record>>, ghost kept: nat)
      requires Directory() && Detectable(crc, disk.files, log)
      modifies this`segments, this`log, this`flushed, this`live, disk`files
      ensures Directory() && Measured() && live == kept && flushed >= old(flushed)
      ensures if old(log) == [] then log == [] && kept == 0 else
        var records := old(log[|log| - 1].records);
        old(live) <= kept == old(Showing()) <= |records| && log == Relaid(old(log), records[..kept])
      ensures r == Ok(if collect then Above(Join(log), headerVersion) else [])
    {
      hide OnDisk, TailKept, Detectable, SegmentBytes, Above, Join, Chained, Intact, HeaderCovers, HeaderVersion,
        Showing;
      assert Chained(log) && OnDisk(crc, disk.files, log, flushed, live);
      kept := 0;
      ghost var settled: nat := 0;
      var tail: seq<Record> := [];
      var due: Option<int> := None;
      var index := 0;
      ghost var n := |log|;
      JoinNothing();
      while index < |segments|
        invariant index <= |segments| == n == |log|
        invariant log == old(log) && flushed == old(flushed) && live == old(live)
        invariant forall i :: 0 <= i < n ==> segments[i].first == log[i].first
        invariant index < n ==> Directory() && Detectable(crc, disk.files, log) && due == DueAt(index)
        invariant n == 0 ==> Directory() && kept == settled == 0
        invariant forall i :: 0 <= i < index && i < n - 1 ==>
          segments[i] == Info(log[i].first, |SegmentBytes(crc, log[i].records)|, log[i].first + |log[i].records| - 1)
        invariant index < n || n == 0 ==> disk.files == old(disk.files)
        invariant 0 < index == n ==>
          && live <= kept == old(Showing()) <= |log[n - 1].records| && flushed <= settled
          && TailKept(crc, old(disk.files), disk.files, log[n - 1], kept, settled)
          && segments[n - 1] ==
              Info(log[n - 1].first, |SegmentBytes(crc, log[n - 1].records[..kept])|, log[n - 1].first + kept - 1)
        invariant tail ==
          if !collect then []
          else if 0 < index == n then Above(Join(log[..n - 1]) + log[n - 1].records[..kept], headerVersion)
          else Above(Join(log[..index]), headerVersion)
      {
        var one;
        one, kept, settled := RecoverSegment(index, due, collect);
        if one.Err? {
          assert false;
          return Err(Io), kept;
        }
        JoinNext(log, index);
        AboveConcat(Join(log[..index]), log[index].records[..kept], headerVersion);
        if index < n - 1 {
          assert log[index].records[..kept] == log[index].records;
          ChainedDue(log, index);
        }
        tail := tail + one.value.0;
        due := one.value.1;
        index := index + 1;
      }
      Adopt(old(disk.files), kept, settled);
      return Ok(tail), kept;
    }

    /** What was cut off is no longer part of what was laid down. */
    ghost method Adopt(before: map<nat, Image>, kept: nat, settled: nat)
      requires |segments| == |log| && Chained(log) && OnDisk(crc, before, log, flushed, live)
      requires HeaderCovers(headerVersion, log, flushed) && headerVersion == HeaderVersion(disk.header)
      requires rotateBytes >= SEG_PROLOGUE + REC_PREFIX
      requires forall i :: 0 <= i < |log| ==> segments[i].first == log[i].first
      requires log == [] ==> kept == settled == 0 && disk.files == before
      requires log != [] ==> flushed <= settled && TailKept(crc, before, disk.files, log[|log| - 1], kept, settled)
      modifies this`log, this`flushed, this`live
      ensures Directory() && live == kept && flushed == settled >= old(flushed)
      ensures old(log) == [] ==> log == []
      ensures old(log) != [] ==>
        var n := |old(log)|;
        && kept <= |old(log[|log| - 1].records)|
        && log == Relaid(old(log), old(log[|log| - 1].records)[..kept])
        && |log| == n && |log[n - 1].records| == kept
        && Join(log) == Join(old(log)[..n - 1]) + old(log)[n - 1].records[..kept]
        && log[n - 1].records[..kept] == old(log)[n - 1].records[..kept]
    {
      hide OnDisk, Holds, Shows, Chained, Join;
      if log != [] {
        var was, l := log, log[|log| - 1];
        TailKeptOnDisk(crc, before, disk.files, was, flushed, live, kept, settled);
        log := Relaid(was, l.records[..kept]);
        assert log[|log| - 1].records[..kept] == l.records[..kept];
      } else {
        EmptyOnDisk(crc, before, flushed, live);
      }
      live, flushed := kept, settled;
    }

    /** Scan every segment, cut the last one at its last intact record, and
        collect what lies above the header. */
    method Recover(collect: bool) returns (r: Result<seq<Record>>, ghost kept: nat)
      requires Directory() && !active && Detectable(crc, disk.files, log)
      modifies this, disk`files
      ensures Valid() && recovered && poison == None && headerVersion == old(headerVersion)
      ensures if old(log) == [] then log == [] && kept == 0 else
        var records := old(log[|log| - 1].records);
        old(live) <= kept <= |records| && log == Relaid(old(log), records[..kept])
      ensures Accepted() == Everything() == old(Recoverable()) && Origin() == old(Origin())
      ensures old(Durable()) <= Durable() && old(Accepted()) <= Accepted() <= old(Everything())
      ensures r == Ok(if collect then Above(Accepted(), headerVersion) else []) && |segments| == |log|
      ensures log != [] ==>
        capacity == if segments[|log| - 1].end < rotateBytes then rotateBytes else segments[|log| - 1].end
    {
      hide OnDisk, SegmentBytes, Above, Join, Upto, Chained, Detectable, HeaderCovers, Intact, HeaderVersion, Directory,
        Stands, Measured;
      ghost var was, flushedWas, liveWas := log, flushed, live;
      BoundedTail();
      r, kept := ScanAll(collect);
      BoundedTail();
      Survived(was, log, flushedWas, flushed, liveWas, kept);
      if r.Err? {
        assert false;
        return;
      }
      var tail := r.value;
      var ahead := Activate();
      if ahead {
        assert false;
        return Err(HeaderAhead), kept;
      }
      StartsAtHeader();
      if tail != [] && tail[0].version != headerVersion + 1 {
        assert false;
        return Err(Gap), kept;
      }
      recovered := true;
      poison := None;
    }

    /** Make the last segment the active one, unless the header is ahead of it. */
    method Activate() returns (ahead: bool)
      requires Directory() && Measured() && !active
      modifies this`active, this`capacity, disk`files
      ensures Directory() && Measured() && !ahead && |segments| == |log| && (active <==> log != [])
      ensures log != [] ==>
        log[|log| - 1].first in disk.files
          && segments[|log| - 1].end <= capacity <= |disk.files[log[|log| - 1].first].bytes|
          && capacity == if segments[|log| - 1].end < rotateBytes then rotateBytes else segments[|log| - 1].end
    {
      hide OnDisk, SegmentBytes, Chained, HeaderCovers, HeaderVersion, Directory, Stands, Measured;
      Known();
      if segments != [] {
        var last := segments[|segments| - 1];
        BelowHeader();
        if last.last < headerVersion {
          return true;
        }
        Reserve(if last.end < rotateBytes then rotateBytes else last.end);
        active := true;
      }
      ahead := false;
    }

    /** Make sure the last segment's file is at least `want` bytes long. */
    method Reserve(want: nat)
      requires Directory() && log != []
      modifies this`capacity, disk`files
      ensures Directory() && log[|log| - 1].first in disk.files
      ensures capacity == want <= |disk.files[log[|log| - 1].first].bytes|
    {
      hide SegmentBytes, Chained, Holds, Shows, Sealed, Names, SetLen;
      TailWellFormed(crc, disk.files, log, flushed, live);
      var name := segments[|segments| - 1].first;
      if want > |disk.files[name].bytes| {
        GrowOnDisk(crc, disk.files, log, flushed, live, want);
      }
      disk.Preallocate(name, want);
      capacity := want;
    }

    lemma BelowHeader()
      requires Directory() && Measured() && log != []
      ensures |segments| == |log| && headerVersion <= segments[|log| - 1].last
      ensures log[|log| - 1].first in disk.files
    {
    }

    lemma Known()
      requires Directory()
      ensures |segments| == |log|
    {
    }

    lemma StartsAtHeader()
      requires Directory()
      ensures var tail := Above(Join(log), headerVersion); tail == [] || tail[0].version == headerVersion + 1
    {
      AboveStarts(log, headerVersion);
    }

    lemma BoundedTail()
      requires Directory()
      ensures log != [] ==> flushed <= live <= |log[|log| - 1].records|
      ensures log == [] ==> flushed == live == 0
    {
    }

    lemma JoinNothing()
      ensures Join([]) == [] && Above([], headerVersion) == []
    {
    }

    /** Find out what is on disk: the header, and the records above it. */
    method Load() returns (r: Result<(Option<nat>, seq<Record>)>)
      requires Valid() && ((recovered && poison == None) || Detectable(crc, disk.files, log))
      modifies this, disk`files
      ensures Valid() && recovered && poison == None
      ensures Accepted() == Everything() == old(Recoverable()) && (old(log) == [] ==> log == [])
      ensures Origin() == old(Origin())
      ensures old(Durable()) <= Durable() && old(Accepted()) <= Accepted() <= old(Everything())
      ensures r == Ok((disk.header, Above(Accepted(), headerVersion)))
      ensures headerVersion == old(headerVersion) == HeaderVersion(disk.header)
      ensures |segments| == |log| == |old(log)| && (log != [] ==> log[..|log| - 1] == old(log)[..|log| - 1])
      ensures log != [] ==>
        capacity == if segments[|log| - 1].end < rotateBytes then rotateBytes else segments[|log| - 1].end
    {
      hide OnDisk, HeaderCovers, Chained, Detectable, SegmentBytes, Above, Upto, Join, Measured, Intact;
      if recovered && poison == None {
        WholeShows();
      }
      active := false;
      ListSegments();
      headerVersion := HeaderVersion(disk.header);
      assert Directory();
      var tail;
      ghost var kept;
      tail, kept := Recover(true);
      return Ok((disk.header, tail.value));
    }

    method EnsureRecovered()
      requires Valid() && (recovered || Detectable(crc, disk.files, log))
      modifies this, disk`files
      ensures Valid() && recovered && poison == old(poison) && headerVersion == old(headerVersion)
      ensures Origin() == old(Origin())
      ensures
        if old(recovered) then
          log == old(log) && flushed == old(flushed) && live == old(live) && segments == old(segments)
        else
          Accepted() == Everything() == old(Recoverable())
      ensures old(Durable()) <= Durable() && old(Accepted()) <= Accepted() <= old(Everything())
    {
      hide OnDisk, HeaderCovers, Chained, Detectable, SegmentBytes, Above, Upto, Join;
      AcceptedWithin();
      if !recovered {
        ghost var kept;
        var tail;
        tail, kept := Recover(false);
      }
    }

    /** A scan finds what was accepted, and nothing that was not laid down. */
    lemma RecoverableWithin()
      requires Valid()
      ensures Accepted() <= Recoverable() <= Everything()
    {
      hide SegmentBytes, Intact, Chained, Holds, Sealed;
      BoundedTail();
      if log == [] {
        UptoNothing();
      } else {
        ShowsIntact(crc, disk.files[log[|log| - 1].first], log[|log| - 1].records, live);
      }
      UptoGrows(log, live, Showing());
    }

    /** With nothing in limbo a scan finds exactly what was accepted, whatever the
        checksum. */
    lemma WholeShows()
      requires Valid() && recovered && poison == None
      ensures Detectable(crc, disk.files, log)
      ensures Recoverable() == Accepted() == Everything()
    {
      hide SegmentBytes, Intact, Chained, Holds, Sealed, Detects;
      WholeTail();
      RecoverableWithin();
      if log != [] {
        var tail := log[|log| - 1];
        ShowsIntact(crc, disk.files[tail.first], tail.records, live);
        DetectsIntact(crc, disk.files[tail.first].bytes, SEG_PROLOGUE, tail.records);
      }
    }

    lemma AcceptedWithin()
      requires Valid()
      ensures Durable() <= Accepted() <= Everything()
    {
      BoundedTail();
      if log == [] {
        UptoNothing();
      }
      UptoGrows(log, flushed, live);
    }

    // ---- appending ----------------------------------------------------

    /** Close the active segment at its true length and start one named for `first`. */
    method Rotate(first: nat)
      requires Valid() && recovered && poison == None
      requires log != [] ==> log[|log| - 1].records != []
      requires first == NextVersion()
      modifies this`segments, this`active, this`capacity, this`log, this`flushed, this`live, disk`files
      ensures Valid() && active && live == 0
      ensures log == old(log) + [Laid(first, [])] && segments == old(segments) + [Info(first, SEG_PROLOGUE, first - 1)]
      ensures Everything() == old(Everything()) && Durable() == Accepted() == old(Accepted())
      ensures NextVersion() == old(NextVersion()) && Origin() == old(Origin())
    {
      hide OnDisk, Chained, HeaderCovers, SegmentBytes, Join, Upto, Intact, Encode, Measured, HeaderVersion,
        Recoverable;
      ghost var was, before := log, segments;
      FirstVersion();
      WholeTail();
      WholeMeasured();
      HeaderRotates(first);
      SwapFiles(first);
      log := log + [Laid(first, [])];
      flushed, live := 0, 0;
      segments := segments + [Info(first, SEG_PROLOGUE, first - 1)];
      RotatedMeasured(was, before, first);
      capacity := rotateBytes;
      active := true;
      assert log[|log| - 1].records[..0] == [];
      UptoGrows(log, 0, 0);
    }

    /** What the segments say where all that was laid down is accepted. */
    lemma WholeMeasured()
      requires Valid() && recovered && poison == None
      ensures |segments| == |log| && forall i :: 0 <= i < |log| ==>
        segments[i] == Info(log[i].first, |SegmentBytes(crc, log[i].records)|, log[i].first + |log[i].records| - 1)
    {
      hide OnDisk, Chained, HeaderCovers, SegmentBytes;
      WholeTail();
    }

    lemma RotatedMeasured(was: seq<Laid>, before: seq<Info>, first: nat)
      requires |before| == |was| && forall i :: 0 <= i < |was| ==>
        before[i] == Info(was[i].first, |SegmentBytes(crc, was[i].records)|, was[i].first + |was[i].records| - 1)
      requires log == was + [Laid(first, [])] && segments == before + [Info(first, SEG_PROLOGUE, first - 1)]
      requires live == 0
      ensures Measured() && segments[|log| - 1].end == SEG_PROLOGUE
    {
      EmptySegment();
      assert log[|log| - 1].records[..0] == [];
    }

    lemma HeaderRotates(first: nat)
      requires Valid() && recovered && first == NextVersion()
      ensures HeaderCovers(headerVersion, log + [Laid(first, [])], 0)
    {
      hide OnDisk, Chained, SegmentBytes;
      FirstVersion();
    }

    /** The files a rotation leaves: the old segment cut to length and flushed,
        the new one preallocated with its prologue flushed. */
    method SwapFiles(first: nat)
      requires Valid() && recovered && poison == None && first >= 1
      requires log != [] ==>
        var tail := log[|log| - 1];
        live == |tail.records| > 0 && tail.records[..live] == tail.records && first == tail.first + live
      modifies disk`files
      ensures var next := log + [Laid(first, [])];
        && Chained(next) && Join(next) == Join(log)
        && OnDisk(crc, disk.files, next, 0, 0)
      ensures first in disk.files && |disk.files[first].bytes| == rotateBytes
    {
      hide OnDisk, Chained, HeaderCovers, SegmentBytes, Join, SetLen, Flush, Write;
      ghost var files := disk.files;
      RotateOnDisk(crc, disk.files, log, flushed, live, first, rotateBytes);
      if segments != [] {
        var last := segments[|segments| - 1];
        disk.SetFileLen(last.first, last.end);
        disk.Fdatasync(last.first, true);
        assert disk.files == files[last.first := Flush(SetLen(files[last.first], last.end))];
      }
      disk.Create(first, rotateBytes, PROLOGUE);
    }

    lemma EmptySegment()
      ensures |SegmentBytes(crc, [])| == SEG_PROLOGUE
    {
    }

    lemma FirstVersion()
      requires Valid() && recovered
      ensures NextVersion() >= 1
      ensures log != [] ==>
        NextVersion() == log[|log| - 1].first + live && log[0].first <= headerVersion + 1
        && headerVersion < NextVersion()
      ensures log == [] ==> NextVersion() == headerVersion + 1
    {
      hide Holds, Shows, Sealed, Names, SegmentBytes;
    }

    /** With nothing in limbo, everything laid down is accepted. */
    lemma WholeTail()
      requires Valid() && recovered && poison == None
      ensures Accepted() == Everything()
      ensures log != [] ==>
        var tail := log[|log| - 1];
        tail.records[..live] == tail.records && live == |tail.records|
    {
      hide OnDisk, Chained, SegmentBytes, Upto;
      BoundedTail();
      if log == [] {
        UptoNothing();
      }
      UptoGrows(log, live, live);
    }

    /** Check a batch against the next version, record by record. */
    method Check(records: seq<Record>) returns (r: Result<()>)
      ensures r.Ok? <==> Fits(records, NextVersion())
      ensures r.Err? ==> r.error in {OutOfOrder, Empty, Oversized, Exhausted} && Unfit(r.error, records, NextVersion())
    {
      var next := NextVersion();
      for i := 0 to |records|
        invariant next == NextVersion() + i
        invariant Fits(records[..i], NextVersion())
      {
        var record := records[i];
        assert forall e :: WrongWith(e, record, next) ==> Unfit(e, records, NextVersion());
        if record.version != next {
          return Err(OutOfOrder);
        }
        if record.payload == [] {
          return Err(Empty);
        }
        if |record.payload| > MAX_PAYLOAD {
          return Err(Oversized);
        }
        if next >= MAX_VERSION {
          return Err(Exhausted);
        }
        next := next + 1;
      }
      assert records[..|records|] == records;
      return Ok(());
    }

    /** Two buffers a record: its prefix and its payload. */
    method Buffers(records: seq<Record>) returns (bufs: seq<seq<byte>>, total: nat)
      requires forall i :: 0 <= i < |records| ==> records[i].payload != []
      ensures Flat(bufs) == Encode(crc, records) && NoneEmpty(bufs) && total == |Flat(bufs)| && |bufs| == 2 * |records|
      ensures bufs == Buffered(crc, records)
    {
      hide RecordPrefix, Flat, Encode, Buffered;
      NothingBuffered();
      bufs, total := [], 0;
      EncodeEmpty();
      for i := 0 to |records|
        invariant Flat(bufs) == Encode(crc, records[..i]) && NoneEmpty(bufs) && total == |Flat(bufs)| && |bufs| == 2 * i
        invariant bufs == Buffered(crc, records[..i])
      {
        BufferedNext(crc, records, i);
        PrefixLong(crc, records[i]);
        var prefix, payload := RecordPrefix(crc, records[i]), records[i].payload;
        FlatConcat(bufs, [prefix, payload]);
        FlatPair(prefix, payload);
        EncodeConcat(crc, records[..i], [records[i]]);
        EncodeOne(records[i]);
        assert records[..i + 1] == records[..i] + [records[i]];
        bufs := bufs + [prefix, payload];
        total := total + |prefix| + |payload|;
      }
      assert records[..|records|] == records;
    }

    lemma NothingBuffered()
      ensures Buffered(crc, []) == []
    {
    }

    lemma EncodeEmpty()
      ensures Encode(crc, []) == Flat([]) && forall rs: seq<Record> :: rs[..0] == []
    {
    }

    lemma EncodeOne(record: Record)
      ensures Encode(crc, [record]) == RecordPrefix(crc, record) + record.payload
    {
      var one := [record];
      assert one[1..] == [];
      assert Encode(crc, one) == EncodeRecord(crc, record) + [];
    }

    lemma FlatPair(a: seq<byte>, b: seq<byte>)
      ensures Flat([a, b]) == a + b
    {
      assert [a, b][1..] == [b] && [b][1..] == [];
      assert Flat([b]) == b;
    }

    /** A batch goes into the last segment, unless there is none or that one has
        reached its size: then it goes into a new one named for it. No batch is split,
        and a segment that has been closed stays as it is. */
    ghost predicate Placed(was: seq<Info>, records: seq<Record>, r: Result<()>, now: seq<Info>)
      requires records != []
    {
      var n := |was|;
      var full := n == 0 || was[n - 1].end >= rotateBytes;
      var start := if full then SEG_PROLOGUE else was[n - 1].end;
      var last :=
        if r.Ok? then Info(records[0].version, start + |Encode(crc, records)|, records[|records| - 1].version)
        else Info(records[0].version, start, records[0].version as int - 1);
      && start < rotateBytes
      && now == if full then was + [last] else was[..n - 1] + [last.(first := was[n - 1].first)]
    }

    /** What an append comes to, relative to the records accepted before it. */
    ghost predicate AppendOutcome(r: Result<()>, records: seq<Record>, base: seq<Record>)
      reads this, disk
    {
      match r
      case Ok(_) => poison == None && Accepted() == Everything() == base + records
      case Err(Io) => poison == None && Accepted() == Everything() == Durable() == base
      case Err(CleanupFailed) =>
        && poison.Some? && Accepted() == base && Everything() == base + records
        && Recoverable() == base + records[..Landed(records)]
      case Err(_) => Accepted() == base
    }

    /** A batch that stops short and cannot be zeroed leaves its whole records to be
        found again, and nothing that any checksum could take for more. */
    ghost predicate Leaves(records: seq<Record>, writes: seq<Fault>, zeroing: seq<Fault>, r: Result<()>)
      reads this, disk
    {
      forall j: nat :: StopsAfter(crc, records, writes, zeroing, j) ==>
        r == Err(CleanupFailed) && Landed(records) == j && Detectable(crc, disk.files, log)
    }

    /** Append records in version order. Faults decide what every write call
        does, in the batch and in the cleanup after it. `base` is what was
        accepted once the log had been recovered. */
    method Append(records: seq<Record>, writes: seq<Fault>, zeroing: seq<Fault>, flushWorks: bool)
      returns (r: Result<()>, ghost base: seq<Record>)
      requires Valid() && (recovered || Detectable(crc, disk.files, log))
      modifies this, disk`files
      ensures Valid() && headerVersion == old(headerVersion) && Origin() == old(Origin())
      ensures recovered || (records == [] && !old(recovered))
      ensures old(recovered) || records == [] ==> base == old(Accepted())
      ensures records != [] && old(poison) == None ==> base == old(Recoverable())
      ensures r.Err? && r.error !in {Io, CleanupFailed} ==> Recoverable() == old(Recoverable())
      ensures old(Accepted()) <= base <= old(Everything())
      ensures old(Durable()) <= Durable()
      ensures AppendOutcome(r, records, base) || (records == [] && Accepted() == base)
      ensures old(poison).Some? && records != [] <==> r == Err(Poisoned)
      ensures r == Err(Poisoned) || records == [] ==>
        Everything() == old(Everything()) && Durable() == old(Durable()) && poison == old(poison)
      ensures r == Err(Poisoned) || records == [] ==> Recoverable() == old(Recoverable())
      ensures records == [] ==> r.Ok?
      ensures old(recovered) && old(poison) == None && records != [] ==>
        && (Fits(records, old(NextVersion())) <==> r.Ok? || r.error in {Io, CleanupFailed})
        && (!Fits(records, old(NextVersion())) ==>
              && r.Err? && Unfit(r.error, records, old(NextVersion()))
              && Everything() == old(Everything()) && Durable() == old(Durable()) && poison == None)
      ensures old(recovered) && records != [] && (r.Ok? || r.error in {Io, CleanupFailed}) ==>
        Placed(old(segments), records, r, segments)
      ensures old(recovered) && (records == [] || (r.Err? && r.error !in {Io, CleanupFailed})) ==>
        segments == old(segments)
      ensures r.Ok? || r.error in {Io, CleanupFailed} ==>
        records == [] || r == Becomes(crc, records, writes, zeroing, flushWorks)
      ensures Fine(writes) ==> r != Err(Io) && r != Err(CleanupFailed)
      ensures Fine(zeroing) && flushWorks ==> r != Err(CleanupFailed)
      ensures records != [] && (r.Ok? || r.error in {Io, CleanupFailed}) ==> Leaves(records, writes, zeroing, r)
    {
      hide OnDisk, HeaderCovers, Chained, SegmentBytes, Encode, Join, Upto, Detectable, Fits, Leaves, Intact, Becomes,
        Fine, Unfit;
      base := Accepted();
      AcceptedWithin();
      if records == [] {
        return Ok(()), base;
      }
      if poison.Some? {
        return Err(Poisoned), base;
      }
      if recovered {
        WholeShows();
      }
      EnsureRecovered();
      base := Accepted();
      WholeTail();
      var checked := Check(records);
      if checked.Err? {
        WholeShows();
        return Err(checked.error), base;
      }
      FitsPayloads(records);
      BecomesBy(crc, records, writes, zeroing, flushWorks);
      r := Place(records, writes, zeroing, flushWorks);
    }

    lemma FitsPayloads(records: seq<Record>)
      requires Fits(records, NextVersion())
      ensures forall r :: r in records ==> r.payload != []
    {
    }

    /** A batch is never split: rotation comes before it. */
    method Place(records: seq<Record>, writes: seq<Fault>, zeroing: seq<Fault>, flushWorks: bool)
      returns (r: Result<()>)
      requires Valid() && recovered && poison == None
      requires records != [] && Fits(records, NextVersion())
      modifies this, disk`files
      ensures Valid() && recovered && headerVersion == old(headerVersion) && Origin() == old(Origin())
      ensures r == Becomes(crc, records, writes, zeroing, flushWorks)
      ensures AppendOutcome(r, records, old(Accepted())) && old(Durable()) <= Durable()
      ensures Leaves(records, writes, zeroing, r) && Placed(old(segments), records, r, segments)
    {
      hide OnDisk, HeaderCovers, Chained, SegmentBytes, Join, Upto, Detectable, Leaves, Intact, Encode, Fits,
        Placed, Longer, Becomes;
      FitsFirst(records);
      Active();
      ghost var was := segments;
      var rotating := segments == [] || segments[|segments| - 1].end >= rotateBytes;
      if rotating || !active {
        LongSegment();
        AcceptedWithin();
        Rotate(records[0].version);
      }
      ghost var open := segments;
      r := Land(records, writes, zeroing, flushWorks);
      PlacedBy(was, open, records, r, segments);
    }

    lemma PlacedBy(was: seq<Info>, open: seq<Info>, records: seq<Record>, r: Result<()>, now: seq<Info>)
      requires records != [] && rotateBytes >= SEG_PROLOGUE + REC_PREFIX
      requires was != [] ==> was[|was| - 1].last == records[0].version as int - 1
      requires
        var full := was == [] || was[|was| - 1].end >= rotateBytes;
        open == if full then was + [Info(records[0].version, SEG_PROLOGUE, records[0].version as int - 1)] else was
      requires open != [] && now == open[..|open| - 1] + [Longer(open[|open| - 1], records, r)]
      ensures Placed(was, records, r, now)
    {
      hide Encode;
    }

    /** The first record of a batch that fits is the next version. */
    lemma FitsFirst(records: seq<Record>)
      requires records != [] && Fits(records, NextVersion())
      ensures records[0].version == NextVersion()
      ensures segments != [] ==> segments[|segments| - 1].last == records[0].version as int - 1
    {
    }

    lemma Active()
      requires Valid() && recovered
      ensures (active <==> segments != []) && rotateBytes >= SEG_PROLOGUE + REC_PREFIX
    {
      hide OnDisk, Chained, SegmentBytes, HeaderCovers;
    }

    lemma LongSegment()
      requires Valid() && recovered && poison == None
      requires log != [] ==> segments[|segments| - 1].end >= rotateBytes
      ensures log != [] ==> log[|log| - 1].records != []
    {
      hide OnDisk, Chained;
      if log != [] && log[|log| - 1].records == [] {
        EmptySegment();
      }
    }

    /** A segment with a batch written at its end, or with one that failed. */
    ghost function Longer(last: Info, records: seq<Record>, r: Result<()>): Info
      requires records != []
    {
      if r.Ok? then Info(last.first, last.end + |Encode(crc, records)|, records[|records| - 1].version) else last
    }

    /** The write itself, with room made for it and the cleanup if it fails. */
    method Land(records: seq<Record>, writes: seq<Fault>, zeroing: seq<Fault>, flushWorks: bool) returns (r: Result<()>)
      requires Valid() && recovered && poison == None && active && segments != []
      requires records != [] && Fits(records, NextVersion())
      modifies this, disk`files
      ensures Valid() && recovered && headerVersion == old(headerVersion) && Origin() == old(Origin())
      ensures r == Becomes(crc, records, writes, zeroing, flushWorks)
      ensures AppendOutcome(r, records, old(Accepted())) && old(Durable()) <= Durable()
      ensures Leaves(records, writes, zeroing, r)
      ensures segments ==
        old(segments)[..|old(segments)| - 1] + [Longer(old(segments)[|old(segments)| - 1], records, r)]
    {
      hide OnDisk, HeaderCovers, Chained, SegmentBytes, Encode, Join, Upto, Fits, Detectable, Intact, Leaves, Written,
        Encodable, BreaksOff, Goes, GoesZero, Buffered;
      WholeTail();
      BoundedTail();
      ghost var was, tail := log, log[|log| - 1];
      var last := segments[|segments| - 1];
      FirstVersion();
      FitsEncodable(records);
      var written, total;
      ghost var done;
      written, total, done := Lay(records, writes);
      UptoAppended(was, records, flushed);
      RelaidFirst(was, tail.records + records);
      if written {
        UptoGrows(log, flushed, flushed);
        NoneStopped(records, writes, zeroing);
        return Ok(());
      }
      UptoGrows(was, flushed, |tail.records|);
      r := Undo(was, records, last.end, total, writes, zeroing, flushWorks, done);
    }

    /** The write failed: clean up, or say what may come back. */
    method Undo(ghost was: seq<Laid>, ghost batch: seq<Record>, end: nat, total: nat, ghost writes: seq<Fault>,
            zeroing: seq<Fault>, flushWorks: bool, ghost done: nat)
      returns (r: Result<()>)
      requires Directory() && Measured() && recovered && poison == None && active && was != []
      requires log == Relaid(was, was[|was| - 1].records + batch) && live == |was[|was| - 1].records| && batch != []
      requires Upto(log, live) == Join(was) && Join(log) == Join(was) + batch
      requires Relaid(log, was[|was| - 1].records) == was
      requires Upto(was, flushed) <= Upto(was, live) && Upto(was, live) == Join(was)
      requires Upto(log, flushed) == Upto(was, flushed)
      requires flushed <= live
      requires end == |SegmentBytes(crc, was[|was| - 1].records)| == segments[|log| - 1].end <= capacity
      requires capacity <= |disk.files[log[|log| - 1].first].bytes| && total == |Encode(crc, batch)|
      requires Written(crc, disk.files[log[|log| - 1].first].bytes, end, batch, done)
      requires BreaksOff(writes, total) && 2 * |batch| <= IOV_MAX ==> done == writes[0].n
      requires forall r :: r in batch ==> Encodable(r)
      modifies this, disk`files
      ensures Valid() && recovered && headerVersion == old(headerVersion) && Origin() == old(Origin())
      ensures segments == old(segments) && (r == Err(Io) || r == Err(CleanupFailed))
      ensures AppendOutcome(r, batch, Join(was)) && Upto(was, old(flushed)) <= Durable()
      ensures r == if GoesZero(total, zeroing).0 && flushWorks then Err(Io) else Err(CleanupFailed)
      ensures Leaves(batch, writes, zeroing, r)
    {
      hide OnDisk, HeaderCovers, Chained, SegmentBytes, Encode, Join, Upto, Detectable, Intact, Leaves, Untouched,
        Written, Encodable, BreaksOff, Directory, Stands, Measured, Valid, Relaid, Landed, Recoverable, Showing,
          GoesZero;
      RelaidLast(was, was[|was| - 1].records + batch);
      RelaidFirst(was, was[|was| - 1].records + batch);
      TailThere();
      ghost var kept, files := was[|was| - 1].records, disk.files;
      r := Cleanup(kept, batch, end, total, zeroing, flushWorks);
      Listed();
      if r == Err(CleanupFailed) {
        Remains(kept, batch);
        UptoPart(was, batch, Landed(batch));
        Finds();
      }
      Stopped(kept, batch, writes, zeroing, r, files, done);
    }

    lemma Finds()
      ensures Recoverable() == Upto(log, Showing())
    {
    }

    lemma Listed()
      requires Valid()
      ensures Directory() && |segments| == |log|
    {
    }

    lemma TailThere()
      requires Directory() && log != []
      ensures var tail := log[|log| - 1];
        && tail.first in disk.files && |disk.files[tail.first].past| == |disk.files[tail.first].bytes|
        && flushed <= live <= |tail.records|
    {
      hide OnDisk, HeaderCovers, Chained, SegmentBytes;
      TailWellFormed(crc, disk.files, log, flushed, live);
    }

    lemma Stopped(kept: seq<Record>, batch: seq<Record>, writes: seq<Fault>, zeroing: seq<Fault>, r: Result<()>,
            files: map<nat, Image>, done: nat)
      requires log != []
      requires (r == Err(CleanupFailed) ==> Directory() && log[|log| - 1].records == kept + batch && live == |kept|)
      requires log[|log| - 1].first in files
      requires Written(crc, files[log[|log| - 1].first].bytes, |SegmentBytes(crc, kept)|, batch, done)
      requires BreaksOff(writes, |Encode(crc, batch)|) && 2 * |batch| <= IOV_MAX ==> done == writes[0].n
      requires zeroing != [] && zeroing[0].Broken? ==>
        r == Err(CleanupFailed) && poison == Some(|SegmentBytes(crc, kept)|)
          && Untouched(files, disk.files, log[|log| - 1].first, |SegmentBytes(crc, kept)|)
      requires forall r :: r in batch ==> Encodable(r)
      ensures Leaves(batch, writes, zeroing, r)
    {
      hide OnDisk, Chained, Encode, Intact, Detects, HeaderCovers, Detectable, SegmentBytes, Written, StopsAfter,
        Encodable, Write;
      forall j: nat | StopsAfter(crc, batch, writes, zeroing, j)
        ensures r == Err(CleanupFailed) && Landed(batch) == j && Detectable(crc, disk.files, log)
      {
        StoppedShort(batch, writes, zeroing, j);
        SameFiles(files, disk.files, log[|log| - 1].first, |SegmentBytes(crc, kept)|);
        StoppedAt(kept, batch, done, j);
      }
    }

    lemma FitsEncodable(records: seq<Record>)
      requires Fits(records, NextVersion()) && NextVersion() >= 1
      ensures forall r :: r in records ==> Encodable(r)
    {
    }

    /** What is showing of the last segment is what the store stands by and then
        what landed of the batch on top. */
    lemma Remains(kept: seq<Record>, batch: seq<Record>)
      requires Directory() && log != [] && log[|log| - 1].records == kept + batch && live == |kept|
      requires poison == Some(|SegmentBytes(crc, kept)|)
      ensures Showing() == |kept| + Landed(batch)
      ensures Detects(crc, disk.files[log[|log| - 1].first].bytes, poison.value, batch) ==>
        Detectable(crc, disk.files, log)
    {
      hide Chained, Holds, Sealed, Encode, Intact, Detects, HeaderCovers;
      var b := disk.files[log[|log| - 1].first].bytes;
      assert (kept + batch)[..|kept|] == kept;
      var e := Encode(crc, kept);
      assert b[..|SegmentBytes(crc, kept)|] == PROLOGUE + e;
      assert b[SEG_PROLOGUE..SEG_PROLOGUE + |e|] == b[..|SegmentBytes(crc, kept)|][SEG_PROLOGUE..] == e;
      IntactJoin(crc, b, SEG_PROLOGUE, kept, batch);
    }

    lemma StoppedShort(records: seq<Record>, writes: seq<Fault>, zeroing: seq<Fault>, j: nat)
      requires StopsAfter(crc, records, writes, zeroing, j)
      ensures BreaksOff(writes, |Encode(crc, records)|) && writes[0].n == |Encode(crc, records[..j])|
      ensures 2 * |records| <= IOV_MAX && j < |records| && zeroing != [] && zeroing[0].Broken?
      ensures Encode(crc, records)[..writes[0].n] == Encode(crc, records[..j])
    {
      hide Encode;
      assert records[..j] + records[j..] == records;
      EncodeConcat(crc, records[..j], records[j..]);
      EncodeNonempty(crc, records[j..]);
    }

    /** A batch that was written whole did not stop short. */
    lemma NoneStopped(records: seq<Record>, writes: seq<Fault>, zeroing: seq<Fault>)
      requires !(BreaksOff(writes, |Encode(crc, records)|) && 2 * |records| <= IOV_MAX)
      ensures Leaves(records, writes, zeroing, Ok(()))
    {
      hide Encode, StopsAfter, Detectable, Intact;
      forall j: nat | StopsAfter(crc, records, writes, zeroing, j)
        ensures false
      {
        StoppedShort(records, writes, zeroing, j);
      }
    }

    lemma StoppedAt(kept: seq<Record>, batch: seq<Record>, done: nat, j: nat)
      requires Directory() && log != [] && log[|log| - 1].records == kept + batch && live == |kept|
      requires poison == Some(|SegmentBytes(crc, kept)|) && j < |batch| && Encodable(batch[j])
      requires log[|log| - 1].first in disk.files
      requires Written(crc, disk.files[log[|log| - 1].first].bytes, poison.value, batch, done)
      requires done == |Encode(crc, batch[..j])| && Encode(crc, batch)[..done] == Encode(crc, batch[..j])
      ensures Landed(batch) == j && Detectable(crc, disk.files, log)
    {
      hide OnDisk, Chained, Encode, Intact, Detects, HeaderCovers, Detectable, SegmentBytes;
      LandedIntact(crc, disk.files[log[|log| - 1].first].bytes, poison.value, batch, j);
      Remains(kept, batch);
    }

    /** Grow the active file where it is too short. */
    method MakeRoom(want: nat)
      requires Directory() && log != [] && capacity <= |disk.files[log[|log| - 1].first].bytes|
      modifies this`capacity, disk`files
      ensures Directory() && old(capacity) <= capacity <= |disk.files[log[|log| - 1].first].bytes| && want <= capacity
      ensures capacity == if want > old(capacity) then NextMultiple(want, rotateBytes) else old(capacity)
    {
      hide OnDisk, HeaderCovers, Chained, SegmentBytes, Directory, Stands;
      if want > capacity {
        Rooted();
        Reserve(NextMultiple(want, rotateBytes));
      }
    }

    lemma Rooted()
      requires Directory()
      ensures rotateBytes > 0
    {
      hide OnDisk, HeaderCovers, Chained;
    }

    /** Make room and write the batch above the logical end, which moves only if
        all of it landed. */
    method Lay(records: seq<Record>, writes: seq<Fault>) returns (written: bool, total: nat, ghost done: nat)
      requires Valid() && recovered && poison == None && active
      requires records != [] && Fits(records, NextVersion())
      modifies this`capacity, this`segments, this`log, this`live, disk`files
      ensures Directory() && Measured() && total == |Encode(crc, records)|
      ensures |log| == |old(log)| > 0 && log == Relaid(old(log), old(log)[|log| - 1].records + records)
      ensures live == |old(log)[|log| - 1].records| + if written then |records| else 0
      ensures log[|log| - 1].first in disk.files
      ensures segments[|log| - 1].end <= capacity <= |disk.files[log[|log| - 1].first].bytes|
      ensures !written ==>
        segments == old(segments) && segments[|log| - 1].end == |SegmentBytes(crc, old(log)[|log| - 1].records)|
      ensures |segments| == |old(segments)| == |log|
      ensures written ==>
        segments == old(segments)[|log| - 1 := Longer(old(segments)[|log| - 1], records, Ok(()))]
      ensures written == Goes(Buffered(crc, records), writes).ok
      ensures Written(crc, disk.files[log[|log| - 1].first].bytes, old(segments)[|log| - 1].end, records, done)
      ensures BreaksOff(writes, total) && 2 * |records| <= IOV_MAX ==> !written && done == writes[0].n
    {
      hide OnDisk, HeaderCovers, Chained, SegmentBytes, Encode, Join, Upto, Flat, Flush, Write, Encodable, Numbered,
        Fits, Written, Holds, Shows, BreaksOff, Valid, Caught, HeaderVersion, Relaid, Goes, Buffered;
      Standing();
      LastVersion(records, NextVersion());
      var bufs;
      bufs, total := Buffers(records);
      var last := segments[|segments| - 1];
      MakeRoom(last.end + total);
      TailHolds(crc, disk.files, log, flushed, live);
      TailWellFormed(crc, disk.files, log, flushed, live);
      ghost var files := disk.files;
      var rest;
      written, rest, done := disk.PwritevAll(last.first, bufs, last.end, writes);
      LaidDown(files, records, done);
      BatchWritten(crc, files[last.first], log[|log| - 1].records, flushed, records, done);
      RelaidLast(log, log[|log| - 1].records + records);
      log := Relaid(log, log[|log| - 1].records + records);
      if written {
        live := live + |records|;
        segments := segments[|segments| - 1 := Info(last.first, last.end + total, records[|records| - 1].version)];
      }
    }

    /** Where an active store that is not poisoned stands. */
    lemma Standing()
      requires Valid() && recovered && poison == None && active
      ensures log != [] && |segments| == |log| && Directory() && Measured()
      ensures var tail := log[|log| - 1];
        && tail.first in disk.files && live == |tail.records| && tail.records[..live] == tail.records
        && segments[|log| - 1] == Info(tail.first, |SegmentBytes(crc, tail.records)|, tail.first + live - 1)
        && segments[|log| - 1].end <= capacity <= |disk.files[tail.first].bytes|
        && NextVersion() == tail.first + live
    {
      hide OnDisk, HeaderCovers, Chained, SegmentBytes;
      WholeTail();
      FirstVersion();
      TailThere();
    }

    lemma LaidDown(files: map<nat, Image>, batch: seq<Record>, done: nat)
      requires log != [] && Chained(log) && OnDisk(crc, files, log, flushed, live)
      requires HeaderCovers(headerVersion, log, flushed)
      requires var tail := log[|log| - 1];
        && tail.first in files && |files[tail.first].past| == |files[tail.first].bytes|
        && live == |tail.records| && tail.records[..live] == tail.records
        && Fits(batch, tail.first + live)
        && |SegmentBytes(crc, tail.records)| + |Encode(crc, batch)| <= |files[tail.first].bytes|
      requires done <= |Encode(crc, batch)|
      ensures var tail := log[|log| - 1];
        var all := tail.records + batch;
        var next := Relaid(log, all);
        var after := files[tail.first := Write(files[tail.first], |SegmentBytes(crc, tail.records)|,
          Encode(crc, batch)[..done])];
        && Chained(next) && HeaderCovers(headerVersion, next, flushed)
        && OnDisk(crc, after, next, flushed, live)
        && (done == |Encode(crc, batch)| ==> OnDisk(crc, after, next, flushed, live + |batch|))
        && all[..live] == tail.records && all[..live + |batch|] == all
        && |SegmentBytes(crc, all)| == |SegmentBytes(crc, tail.records)| + |Encode(crc, batch)|
        && flushed <= live
    {
      hide OnDisk, HeaderCovers, Chained, SegmentBytes, Encode, Join, Write, Encodable, Numbered, Fits;
      var tail := log[|log| - 1];
      TailWellFormed(crc, files, log, flushed, live);
      FitsNumbered(batch, tail.first + live);
      AppendOnDisk(crc, files, log, flushed, live, batch, done);
      HeaderStays(log, tail.records + batch, flushed);
      SegmentBytesConcat(crc, tail.records, batch);
    }

    /** Zero what a failed batch may have left and flush the zeros; failing that,
        refuse to append until the log is scanned again. */
    method Cleanup(ghost kept: seq<Record>, ghost batch: seq<Record>, end: nat, total: nat, zeroing: seq<Fault>,
            flushWorks: bool)
      returns (r: Result<()>)
      requires Directory() && Measured() && recovered && poison == None && active && log != []
      requires log[|log| - 1].records == kept + batch && live == |kept|
      requires flushed <= live && end == |SegmentBytes(crc, kept)| == segments[|log| - 1].end <= capacity
      requires capacity <= |disk.files[log[|log| - 1].first].bytes| && total == |Encode(crc, batch)| && batch != []
      modifies this, disk`files
      ensures Valid() && recovered && headerVersion == old(headerVersion) && segments == old(segments)
      ensures r == Err(Io) || r == Err(CleanupFailed)
      ensures r == if GoesZero(total, zeroing).0 && flushWorks then Err(Io) else Err(CleanupFailed)
      ensures r == Err(Io) ==> poison == None && log == Relaid(old(log), kept) && flushed == live == |kept|
      ensures r == Err(CleanupFailed) ==>
        poison == Some(end) && log == old(log) && flushed == old(flushed) && live == old(live)
      ensures zeroing != [] && zeroing[0].Broken? ==>
        r == Err(CleanupFailed) && Untouched(old(disk.files), disk.files, log[|log| - 1].first, end)
    {
      hide OnDisk, HeaderCovers, Chained, SegmentBytes, Encode, Join, Upto, Flush, Write, Zeros, Untouched, GoesZero;
      EncodeNonempty(crc, batch);
      ghost var files, name := disk.files, log[|log| - 1].first;
      TailWellFormed(crc, disk.files, log, flushed, live);
      ZeroOnDisk(crc, files, log, kept, flushed, batch, 0);
      var first := segments[|segments| - 1].first;
      var zeroed, done := disk.ZeroRange(first, end, total, zeroing);
      ZeroOnDisk(crc, files, log, kept, flushed, batch, done);
      HeaderStays(log, kept, flushed);
      HeaderGrows(Relaid(log, kept), flushed, |kept|);
      if zeroed && flushWorks {
        disk.Fdatasync(first, true);
        assert disk.files == files[name := Flush(Write(files[name], end, Zeros(done)))];
        assert kept[..|kept|] == kept;
        log := Relaid(log, kept);
        flushed := |kept|;
        return Err(Io);
      }
      if done == 0 {
        Untouching(files, disk.files, name, end);
      }
      poison := Some(end);
      return Err(CleanupFailed);
    }

    lemma HeaderStays(was: seq<Laid>, records: seq<Record>, settled: nat)
      requires was != [] && HeaderCovers(headerVersion, was, settled)
      ensures HeaderCovers(headerVersion, Relaid(was, records), settled)
    {
    }

    lemma HeaderGrows(was: seq<Laid>, settled: nat, more: nat)
      requires settled <= more && HeaderCovers(headerVersion, was, settled)
      ensures HeaderCovers(headerVersion, was, more)
    {
    }

    lemma LastVersion(records: seq<Record>, next: int)
      requires Fits(records, next) && records != []
      ensures records[|records| - 1].version == next + |records| - 1
      ensures forall i :: 0 <= i < |records| ==> records[i].payload != []
    {
    }

    lemma FitsNumbered(records: seq<Record>, next: nat)
      requires Fits(records, next)
      ensures Numbered(records, next)
      ensures forall r :: r in records ==> Encodable(r)
    {
    }

    /** Versions count up from the first one stored. */
    lemma Counted()
      requires Valid()
      ensures Oldest() == Origin() >= 1 && |Durable()| <= |Accepted()|
      ensures recovered ==> NextVersion() == Origin() + |Accepted()|
      ensures Numbered(Accepted(), Origin())
    {
      hide OnDisk, SegmentBytes;
      BoundedTail();
      AcceptedWithin();
      if log == [] {
        UptoNothing();
      } else {
        JoinNumbered(log);
        UptoLength(log, live);
      }
    }

    // ---- flushing, checkpointing, reading -----------------------------

    method Sync(works: bool) returns (ok: bool)
      requires Valid()
      modifies this`flushed, disk`files
      ensures Valid() && log == old(log) && live == old(live)
      ensures ok <==> works || !active
      ensures ok && recovered ==> Durable() == Accepted() && flushed == live
      ensures !(ok && recovered) ==> flushed == old(flushed)
      ensures old(Durable()) <= Durable() && Recoverable() == old(Recoverable())
    {
      hide OnDisk, HeaderCovers, Chained, SegmentBytes, Join, Upto, Flush, Intact;
      BoundedTail();
      UptoGrows(log, flushed, live);
      if !active {
        if recovered {
          assert log == [] && flushed == live;
        }
        return true;
      }
      if works {
        FlushOnDisk(crc, disk.files, log, flushed, live);
        disk.Fdatasync(segments[|segments| - 1].first, true);
        HeaderGrows(log, flushed, live);
        flushed := live;
      }
      return works;
    }

    /** Every version up to this one is out of reach of a power cut, and none above
        it has been dropped. */
    ghost predicate Coverable(version: nat)
      reads this`log, this`flushed
    {
      HeaderCovers(version, log, flushed)
    }

    /** In a scanned store that is flushed, a header may stand from just below the
        oldest version to the last one written. */
    lemma CoverableFlushed(version: nat)
      requires Valid() && recovered && flushed == live
      ensures Coverable(version) <==>
        version < MAX_VERSION && (segments != [] ==> Oldest() <= version + 1 && version < NextVersion())
    {
      hide OnDisk, Chained, SegmentBytes;
      FirstVersion();
    }

    /** Publish a header, whatever it covers. */
    method PublishHeader(version: nat)
      requires Valid()
      modifies this`headerVersion, disk`header
      ensures Sane() && headerVersion == version && disk.header == Some(version)
      ensures Valid() <==> Coverable(version)
      ensures Recoverable() == old(Recoverable())
    {
      hide OnDisk, Chained, SegmentBytes, Intact, Upto, HeaderCovers;
      disk.Publish(version);
      headerVersion := version;
    }

    /** The segments a header leaves: one goes where the next one starts no higher than
        just above the header, and the last one stays. */
    static ghost function Kept(segments: seq<Info>, header: nat): seq<Info> {
      if |segments| > 1 && segments[1].first <= header + 1 then Kept(segments[1..], header) else segments
    }

    /** Drop the oldest segment if the header covers all of it. */
    method ReclaimOne() returns (removed: bool)
      requires Sane()
      modifies this`segments, this`log, disk`files
      ensures Sane() && (Valid() <==> old(Valid()))
      ensures removed <==> old(|segments| > 1 && segments[1].first <= headerVersion + 1)
      ensures !removed ==> log == old(log) && segments == old(segments) && disk.files == old(disk.files)
      ensures removed ==>
        var dropped := old(log[0].records);
        && |old(log)| > 1 && log == old(log)[1..] && NextVersion() == old(NextVersion())
        && segments == old(segments)[1..]
        && (forall r :: r in dropped ==> r.version <= headerVersion)
        && old(Everything()) == dropped + Everything()
        && old(Accepted()) == dropped + Accepted()
        && old(Durable()) == dropped + Durable()
        && old(Recoverable()) == dropped + Recoverable()
    {
      hide OnDisk, SegmentBytes, Join, Upto, Chained, HeaderCovers, Intact;
      if |segments| > 1 && segments[1].first <= headerVersion + 1 {
        DropOnDisk(crc, disk.files, log, flushed, live);
        HeaderDrops();
        UptoDropFirst(log, live);
        UptoDropFirst(log, flushed);
        UptoDropFirst(log, Showing());
        disk.Remove(segments[0].first);
        segments := segments[1..];
        log := log[1..];
        return true;
      }
      return false;
    }

    lemma Counts()
      requires Sane()
      ensures |segments| == |log|
    {
    }

    lemma HeaderDrops()
      requires Stands() && |log| > 1 && log[1].first <= headerVersion + 1
      ensures HeaderCovers(headerVersion, log[1..], flushed) <==> HeaderCovers(headerVersion, log, flushed)
      ensures forall r :: r in log[0].records ==> r.version <= headerVersion
    {
      hide OnDisk;
    }

    method Reclaim()
      requires Sane()
      modifies this`segments, this`log, disk`files
      ensures segments == Kept(old(segments), headerVersion) && |log| <= old(|log|) == old(|segments|)
      ensures log == old(log)[|old(log)| - |log|..] && |segments| == |log|
      ensures Sane() && (Valid() <==> old(Valid())) && NextVersion() == old(NextVersion())
      ensures (Valid() ==> Oldest() <= headerVersion + 1) && (|segments| > 1 ==> segments[1].first > headerVersion + 1)
      ensures exists dropped: seq<Record> ::
        && (forall r :: r in dropped ==> r.version <= headerVersion)
        && old(Everything()) == dropped + Everything()
        && old(Accepted()) == dropped + Accepted()
        && old(Durable()) == dropped + Durable()
    {
      hide OnDisk, SegmentBytes, Join, Upto, Chained, Measured, Caught, HeaderCovers, Valid, Sane, Stands, Directory,
        Everything, Accepted, Durable, Recoverable, NextVersion, Kept;
      ghost var dropped: seq<Record> := [];
      ghost var e, a, d, was, before := Everything(), Accepted(), Durable(), log, segments;
      Counts();
      assert was[0..] == was;
      var more := true;
      while more
        invariant Sane() && (Valid() <==> old(Valid())) && NextVersion() == old(NextVersion())
        invariant |segments| == |log| <= |was| && log == was[|was| - |log|..]
        invariant Kept(segments, headerVersion) == Kept(before, headerVersion)
        invariant forall r :: r in dropped ==> r.version <= headerVersion
        invariant e == dropped + Everything() && a == dropped + Accepted() && d == dropped + Durable()
        invariant !more ==> (|segments| > 1 ==> segments[1].first > headerVersion + 1)
        decreases more, |segments|
      {
        ghost var first, e0, a0, d0 := if log == [] then [] else log[0].records, Everything(), Accepted(), Durable();
        KeptNext(segments, headerVersion);
        OneLess(was, |was| - |log|);
        more := ReclaimOne();
        if more {
          Reassociate(dropped, first, Everything());
          Reassociate(dropped, first, Accepted());
          Reassociate(dropped, first, Durable());
          dropped := dropped + first;
        }
      }
      KeptNext(segments, headerVersion);
      OldestIs();
    }

    static lemma KeptNext(segments: seq<Info>, header: nat)
      ensures Kept(segments, header) ==
        if |segments| > 1 && segments[1].first <= header + 1 then Kept(segments[1..], header) else segments
    {
    }

    static lemma OneLess<T>(s: seq<T>, k: nat)
      requires k <= |s|
      ensures k < |s| ==> s[k..][1..] == s[k + 1..]
    {
    }

    lemma OldestIs()
      ensures Valid() ==> Oldest() <= headerVersion + 1
    {
      hide OnDisk, SegmentBytes, Chained, Measured, Caught;
    }

    /** Checkpoint: flush, publish the header, drop what it covers. The store stays
        sound exactly where no version above the header's was dropped and every one up
        to it is flushed; what others ask for is published all the same. */
    method WriteHeader(version: nat, syncWorks: bool) returns (r: Result<()>)
      requires Valid()
      modifies this`flushed, this`headerVersion, this`segments, this`log, disk
      ensures Sane() && old(Durable()) <= old(Accepted())
      ensures r.Err? ==>
        Valid() && disk.header == old(disk.header) && Accepted() == old(Accepted()) && Durable() == old(Durable())
      ensures r.Err? ==> r.error == Io && Origin() == old(Origin()) && NextVersion() == old(NextVersion())
      ensures segments == (if r.Ok? then Kept(old(segments), version) else old(segments)) && |log| == |segments|
      ensures |log| <= |old(log)| && log == old(log)[|old(log)| - |log|..]
      ensures recovered == old(recovered)
      ensures r.Ok? <==> syncWorks || !active
      ensures r.Ok? ==>
        && (Valid() <==>
              if recovered then
                && version < MAX_VERSION
                && (old(segments) != [] ==> old(Oldest()) <= version + 1 && version < old(NextVersion()))
              else old(Coverable(version)))
        && disk.header == Some(version) && headerVersion == version
        && (recovered ==> Durable() == Accepted()) && (Valid() ==> Oldest() <= version + 1)
        && (old(headerVersion) <= version < old(NextVersion()) ==> NextVersion() == old(NextVersion()))
        && exists dropped: seq<Record> ::
             && (forall r :: r in dropped ==> r.version <= version)
             && old(Accepted()) == dropped + Accepted()
    {
      hide OnDisk, SegmentBytes, Join, Upto, Chained, HeaderCovers, Valid, Sane, Measured, Recoverable, Coverable, Kept;
      AcceptedWithin();
      Listed();
      BoundedTail();
      hide Directory, Stands;
      var ok := Sync(syncWorks);
      Saner();
      if !ok {
        return Err(Io);
      }
      if recovered {
        CoverableFlushed(version);
      }
      PublishHeader(version);
      Reclaim();
      return Ok(());
    }

    lemma Saner()
      requires Valid()
      ensures Sane()
    {
    }

    /** Index of the last segment named for a version at or below `version`. */
    method SegmentFor(version: nat) returns (index: Option<nat>)
      ensures index.Some? ==> index.value < |segments| && segments[index.value].first <= version
      ensures index.Some? ==> forall i :: index.value < i < |segments| ==> segments[i].first > version
      ensures index.None? ==> forall i :: 0 <= i < |segments| ==> segments[i].first > version
    {
      var i := |segments|;
      while i > 0
        invariant 0 <= i <= |segments|
        invariant forall j :: i <= j < |segments| ==> segments[j].first > version
      {
        i := i - 1;
        if segments[i].first <= version {
          return Some(i);
        }
      }
      return None;
    }

    /** Records in `(after, after + limit]`, across segment boundaries: of what a scan
        would find, which is what was accepted unless a cleanup has failed. */
    method ReadAfter(after: nat, limit: nat) returns (r: Result<seq<Record>>)
      requires Valid() && after <= MAX_VERSION && ((recovered && poison == None) || Detectable(crc, disk.files, log))
      ensures after + 1 < Oldest() ==> r == Err(Reclaimed)
      ensures after + 1 >= Oldest() ==> r == Ok(FirstOf(Above(Recoverable(), after), limit))
      ensures recovered && poison == None ==> Recoverable() == Accepted()
    {
      hide OnDisk, SegmentBytes, Join, Upto, Chained, HeaderCovers, Above, ScanFrom, Detectable, Intact, Valid,
        Directory, Stands, Recoverable, Found;
      Listed();
      var start := if after == MAX_VERSION then after else after + 1;
      if recovered && poison == None {
        WholeShows();
      }
      FoundIs();
      OldestWithin(after);
      if start < Oldest() {
        return Err(Reclaimed);
      }
      var out := [];
      if limit == 0 {
        FirstNone();
        return Ok(out);
      }
      var from := SegmentFor(start);
      if from.None? {
        NothingStored(after, limit);
        return Ok(out);
      }
      FoundBelow(from.value, start);
      out := Collect(from.value, start, limit);
      return Ok(out);
    }

    /** The loop over the segments from one on, up to the limit. */
    method Collect(from: nat, start: nat, limit: nat) returns (out: seq<Record>)
      requires Valid() && Detectable(crc, disk.files, log) && from <= |segments| == |Found()| && limit > 0 && start > 0
      requires Above(Join(Found()[..from]), start - 1) == []
      ensures out == FirstOf(Above(Join(Found()), start - 1), limit)
    {
      hide OnDisk, SegmentBytes, Join, Upto, Chained, HeaderCovers, Above, ScanFrom, Detectable, Intact, Valid,
        Directory, Stands, Recoverable, Found, ParseAt;
      ghost var found, a := Found(), start - 1;
      out := [];
      var i := from;
      while i < |segments| && |out| < limit
        invariant from <= i <= |segments|
        invariant |out| < limit ==> out == Above(Join(found[..i]), a)
        invariant out == FirstOf(Above(Join(found[..i]), a), limit)
      {
        SegmentRead(i);
        var have, b := |out|, disk.files[segments[i].first].bytes;
        var scanned := ScanSegment(crc, b, seen => have + |Above(seen, start - 1)| >= limit);
        assert scanned.value.records == found[i].records[..|scanned.value.records|];
        ReadOn(found, i, out, |scanned.value.records|, a, limit);
        out := out + Above(scanned.value.records, start - 1);
        i := i + 1;
      }
      EnoughRead(found, i, a, limit);
    }

    /** The segments, the last one cut where a scan would cut it. */
    ghost function Found(): seq<Laid>
      reads this, disk
    {
      if log == [] || Showing() > |log[|log| - 1].records| then log
      else Relaid(log, log[|log| - 1].records[..Showing()])
    }

    lemma FoundIs()
      requires Valid()
      ensures |Found()| == |log| && Chained(Found()) && Join(Found()) == Recoverable()
      ensures forall i :: 0 <= i < |log| ==> Found()[i].first == log[i].first
      ensures forall i :: 0 <= i < |log| - 1 ==> Found()[i] == log[i]
      ensures log != [] ==>
        Showing() <= |log[|log| - 1].records| && Found()[|log| - 1].records == log[|log| - 1].records[..Showing()]
    {
      hide OnDisk, SegmentBytes, Intact, Chained, Join;
      BoundedTail();
      if log == [] {
        UptoNothing();
      } else {
        RelaidPrefix(log, Showing());
      }
    }

    lemma SegmentRead(i: nat)
      requires Valid() && Detectable(crc, disk.files, log) && i < |segments|
      ensures |Found()| == |log| == |segments| && segments[i].first in disk.files
      ensures var b := disk.files[segments[i].first].bytes;
        && |b| >= SEG_PROLOGUE && b[..8] == PROLOGUE[..8]
        && ScanFrom(crc, b, SEG_PROLOGUE).records == Found()[i].records
    {
      hide OnDisk, SegmentBytes, Intact, Chained, Join, Upto, HeaderCovers, Detectable, ScanFrom, Found;
      FoundIs();
      TailThere();
      FoundScan(crc, disk.files, log, flushed, live, Showing(), i);
      var b := disk.files[segments[i].first].bytes;
      assert b[..8] == PROLOGUE[..8];
    }

    lemma FoundBelow(i: nat, start: int)
      requires Valid() && i < |log| && segments[i].first <= start
      ensures |Found()| == |log| && Above(Join(Found()[..i]), start - 1) == []
    {
      hide OnDisk, SegmentBytes, Intact, Chained, Join, Above, Upto, HeaderCovers;
      FoundIs();
      BelowStart(Found(), i, start);
    }

    lemma FirstNone()
      ensures forall rs: seq<Record> :: FirstOf(rs, 0) == []
    {
    }

    lemma OldestWithin(after: nat)
      requires Valid()
      ensures Oldest() <= headerVersion + 1 <= MAX_VERSION
      ensures after == MAX_VERSION ==> Above(Join(Found()), after - 1) == Above(Join(Found()), after)
    {
      hide Above, Join, Chained, SegmentBytes, Intact, Upto;
      assert Directory();
      if after == MAX_VERSION {
        FoundIs();
        StoredBelowMax(crc, disk.files, log, flushed, live);
        BelowMax(Found());
      }
    }

    lemma NothingStored(after: nat, limit: nat)
      requires Valid() && segments == []
      ensures FirstOf(Above(Recoverable(), after), limit) == []
    {
      UptoNothing();
    }
  }
}
