/** One segment file: what its bytes may be, given what was written to it. */
module Segment {
  import opened Bytes
  import opened Format
  import opened Sys

  /** The byte-level invariant of a segment in which `records` were laid down,
      the first `flushed` of them flushed. Below the flushed part each byte is
      settled; above the last record each byte is zero and can be nothing else;
      in between a byte is the record's or the zero that preallocation left. */
  ghost predicate Holds(crc: Crc, f: Image, records: seq<Record>, flushed: nat) {
    && WellFormed(f)
    && flushed <= |records|
    && (forall r :: r in records ==> Encodable(r))
    && var e := SegmentBytes(crc, records);
       var settled := |SegmentBytes(crc, records[..flushed])|;
       && settled <= |e| <= |f.bytes|
       && (forall i :: 0 <= i < settled ==> f.past[i] == {e[i]})
       && (forall i :: settled <= i < |e| ==> f.past[i] <= {0, e[i]})
       && (forall i :: |e| <= i < |f.bytes| ==> f.past[i] == {0})
  }

  /** The first `live` records are there, byte for byte. */
  ghost predicate Shows(crc: Crc, f: Image, records: seq<Record>, live: nat) {
    && live <= |records|
    && SegmentBytes(crc, records[..live]) <= f.bytes
  }

  /** A closed segment: exactly its records and nothing that can change. */
  ghost predicate Sealed(crc: Crc, f: Image, records: seq<Record>) {
    && f.bytes == SegmentBytes(crc, records)
    && f == Flush(f)
    && forall r :: r in records ==> Encodable(r)
  }

  lemma FlushedShows(crc: Crc, f: Image, records: seq<Record>, flushed: nat)
    requires Holds(crc, f, records, flushed)
    ensures Shows(crc, f, records, flushed)
    ensures ZeroFrom(f.bytes, |SegmentBytes(crc, records)|)
  {
    hide SegmentBytes;
    SegmentBytesPrefix(crc, records, flushed);
    var e := SegmentBytes(crc, records);
    forall i | |e| <= i < |f.bytes|
      ensures f.bytes[i] == 0
    {
      assert f.bytes[i] in f.past[i];
    }
    forall i | 0 <= i < |SegmentBytes(crc, records[..flushed])|
      ensures f.bytes[i] == e[i]
    {
      assert f.bytes[i] in f.past[i];
    }
  }

  /** A batch, or the part of it that landed, written just above the last record. */
  lemma WriteBatch(crc: Crc, f: Image, records: seq<Record>, flushed: nat, batch: seq<Record>, done: nat)
    requires Holds(crc, f, records, flushed) && Shows(crc, f, records, |records|)
    requires forall r :: r in batch ==> Encodable(r)
    requires done <= |Encode(crc, batch)|
    requires |SegmentBytes(crc, records)| + |Encode(crc, batch)| <= |f.bytes|
    ensures var g := Write(f, |SegmentBytes(crc, records)|, Encode(crc, batch)[..done]);
      && Holds(crc, g, records + batch, flushed)
      && Shows(crc, g, records + batch, |records|)
      && (done == |Encode(crc, batch)| ==> Shows(crc, g, records + batch, |records + batch|))
  {
    hide SegmentBytes, Encode, Write, Encodable;
    var all := records + batch;
    var old_e, e := SegmentBytes(crc, records), SegmentBytes(crc, all);
    SegmentBytesConcat(crc, records, batch);
    assert all[..flushed] == records[..flushed];
    assert all[..|records|] == records;
    assert records[..|records|] == records;
    assert all[..|all|] == all;
    var g := Write(f, |old_e|, Encode(crc, batch)[..done]);
    forall i | |old_e| <= i < |e|
      ensures g.past[i] <= {0, e[i]}
    {
      assert f.past[i] == {0};
    }
    FlushedShows(crc, f, records, flushed);
    assert forall i :: 0 <= i < |old_e| ==> g.bytes[i] == f.bytes[i] == old_e[i];
  }

  /** Of the bytes above `end`, the first `done` are a batch's and the rest zero. */
  ghost predicate Written(crc: Crc, b: seq<byte>, end: nat, batch: seq<Record>, done: nat) {
    && done <= |Encode(crc, batch)| && end + done <= |b|
    && b[end..end + done] == Encode(crc, batch)[..done] && ZeroFrom(b, end + done)
  }

  /** What landed of a batch stands on zeros. */
  lemma BatchWritten(crc: Crc, f: Image, records: seq<Record>, flushed: nat, batch: seq<Record>, done: nat)
    requires Holds(crc, f, records, flushed) && done <= |Encode(crc, batch)|
    requires |SegmentBytes(crc, records)| + done <= |f.bytes|
    ensures |f.past| == |f.bytes|
    ensures
      var end := |SegmentBytes(crc, records)|;
      Written(crc, Write(f, end, Encode(crc, batch)[..done]).bytes, end, batch, done)
  {
    hide SegmentBytes, Encode, Write;
    FlushedShows(crc, f, records, flushed);
    var end := |SegmentBytes(crc, records)|;
    hide Holds;
    var g := Write(f, end, Encode(crc, batch)[..done]);
    assert g.bytes[end..end + done] == Encode(crc, batch)[..done];
  }

  /** Zeros over a prefix of what a failed batch occupied. */
  lemma ZeroBatch(crc: Crc, f: Image, records: seq<Record>, flushed: nat, batch: seq<Record>, done: nat)
    requires Holds(crc, f, records + batch, flushed) && Shows(crc, f, records + batch, |records|)
    requires flushed <= |records|
    requires done <= |Encode(crc, batch)|
    ensures |SegmentBytes(crc, records)| + |Encode(crc, batch)| <= |f.bytes|
    ensures var g := Write(f, |SegmentBytes(crc, records)|, Zeros(done));
      && Holds(crc, g, records + batch, flushed)
      && Shows(crc, g, records + batch, |records|)
      && (done == |Encode(crc, batch)| ==>
          Holds(crc, Flush(g), records, |records|) && Shows(crc, Flush(g), records, |records|))
  {
    hide SegmentBytes, Encode, Write, Encodable, Flush;
    var all := records + batch;
    var old_e, e := SegmentBytes(crc, records), SegmentBytes(crc, all);
    SegmentBytesConcat(crc, records, batch);
    SegmentBytesPrefix(crc, records, flushed);
    assert all[..flushed] == records[..flushed];
    assert all[..|records|] == records;
    assert records[..|records|] == records;
    var g := Write(f, |old_e|, Zeros(done));
    FlushedShows(crc, f, all, flushed);
    if done == |Encode(crc, batch)| {
      var h := Flush(g);
      assert forall i :: 0 <= i < |old_e| ==> h.bytes[i] == old_e[i];
      assert forall i :: |old_e| <= i < |h.bytes| ==> h.bytes[i] == 0;
      assert forall r :: r in records ==> r in all;
    }
  }

  /** Flushing settles every record that is showing. */
  lemma FlushSettles(crc: Crc, f: Image, records: seq<Record>, flushed: nat, live: nat)
    requires Holds(crc, f, records, flushed) && Shows(crc, f, records, live)
    ensures Holds(crc, Flush(f), records, live) && Shows(crc, Flush(f), records, live)
  {
    hide SegmentBytes, Encodable, Flush;
    SegmentBytesPrefix(crc, records, live);
    SegmentBytesPrefix(crc, records, flushed);
    var g, e := Flush(f), SegmentBytes(crc, records);
    forall i | 0 <= i < |g.bytes|
      ensures g.past[i] <= f.past[i]
    {
      assert f.bytes[i] in f.past[i];
    }
    assert forall i :: 0 <= i < |SegmentBytes(crc, records[..live])| ==> g.bytes[i] == e[i];
  }

  lemma GrowHolds(crc: Crc, f: Image, records: seq<Record>, flushed: nat, live: nat, len: nat)
    requires Holds(crc, f, records, flushed) && Shows(crc, f, records, live) && len >= |f.bytes|
    ensures Holds(crc, SetLen(f, len), records, flushed) && Shows(crc, SetLen(f, len), records, live)
  {
    hide SegmentBytes, Encodable, SetLen;
  }

  /** Closing a segment at its true length. */
  lemma SealHolds(crc: Crc, f: Image, records: seq<Record>, flushed: nat)
    requires Holds(crc, f, records, flushed) && Shows(crc, f, records, |records|)
    ensures Sealed(crc, Flush(SetLen(f, |SegmentBytes(crc, records)|)), records)
  {
    hide SegmentBytes, Encodable, SetLen, Flush;
    assert records[..|records|] == records;
    var g := Flush(SetLen(f, |SegmentBytes(crc, records)|));
    assert g.bytes == SegmentBytes(crc, records);
    assert g.past == Flush(g).past;
  }

  /** A fresh segment: preallocated, prologue written and flushed. */
  lemma FreshHolds(crc: Crc, len: nat)
    requires len >= SEG_PROLOGUE
    ensures var f := Flush(Write(SetLen(Image([], []), len), 0, PROLOGUE));
      Holds(crc, f, [], 0) && Shows(crc, f, [], 0)
  {
    var f := Flush(Write(SetLen(Image([], []), len), 0, PROLOGUE));
    assert SegmentBytes(crc, []) == PROLOGUE;
    var none: seq<Record> := [];
    assert none[..0] == none;
  }

  /** A power cut keeps the invariant, with nothing more in doubt. */
  lemma CrashHolds(crc: Crc, f: Image, records: seq<Record>, flushed: nat, left: seq<byte>)
    requires Holds(crc, f, records, flushed) && Survives(f, left)
    ensures Holds(crc, Flush(Image(left, [])), records, flushed)
  {
    hide SegmentBytes, Encodable;
    var g := Flush(Image(left, []));
    assert forall i :: 0 <= i < |left| ==> g.past[i] <= f.past[i];
  }

  lemma CrashSealed(crc: Crc, f: Image, records: seq<Record>, left: seq<byte>)
    requires Sealed(crc, f, records) && Survives(f, left)
    ensures Flush(Image(left, [])) == f
  {
    forall i | 0 <= i < |left|
      ensures left[i] == f.bytes[i]
    {
      assert f.past[i] == Flush(f).past[i] == {f.bytes[i]};
    }
    assert left == f.bytes;
  }

  // ---- recovery of one file -------------------------------------------

  /** What a scan of the file recovers: everything flushed, everything showing,
      and never more than what was laid down. */
  lemma ScanRecovers(crc: Crc, f: Image, records: seq<Record>, flushed: nat, live: nat)
    requires Holds(crc, f, records, flushed) && Shows(crc, f, records, live)
    requires Detects(crc, f.bytes, SEG_PROLOGUE, records)
    ensures var k := Intact(crc, f.bytes, SEG_PROLOGUE, records);
      var s := ScanFrom(crc, f.bytes, SEG_PROLOGUE);
      && flushed <= k && live <= k
      && s.records == records[..k]
      && s.end == |SegmentBytes(crc, records[..k])|
      && PROLOGUE <= f.bytes
      && SegmentBytes(crc, records[..k]) <= f.bytes
  {
    hide Encodable, Flush, Write, ScanFrom, Detects, Intact, Encode, EncodeRecord;
    FlushedShows(crc, f, records, flushed);
    ShowsIntact(crc, f, records, flushed);
    ShowsIntact(crc, f, records, live);
    var k := Intact(crc, f.bytes, SEG_PROLOGUE, records);
    assert PROLOGUE <= f.bytes by {
      assert PROLOGUE <= SegmentBytes(crc, records[..flushed]);
    }
    ScanFindsIntact(crc, f.bytes, SEG_PROLOGUE, records);
    IntactShows(crc, f.bytes, SEG_PROLOGUE, records);
    var e := Encode(crc, records[..k]);
    assert f.bytes[..SEG_PROLOGUE + |e|] == f.bytes[..SEG_PROLOGUE] + f.bytes[SEG_PROLOGUE..SEG_PROLOGUE + |e|];
  }

  lemma ShowsIntact(crc: Crc, f: Image, records: seq<Record>, live: nat)
    requires Shows(crc, f, records, live)
    ensures Intact(crc, f.bytes, SEG_PROLOGUE, records) >= live
  {
    var e := Encode(crc, records[..live]);
    assert f.bytes[..SEG_PROLOGUE + |e|] == SegmentBytes(crc, records[..live]);
    assert f.bytes[SEG_PROLOGUE..SEG_PROLOGUE + |e|] == f.bytes[..SEG_PROLOGUE + |e|][SEG_PROLOGUE..] == e;
    IntactAtLeast(crc, f.bytes, SEG_PROLOGUE, records, live);
  }

  lemma {:induction false} IntactShows(crc: Crc, b: seq<byte>, at: nat, rs: seq<Record>)
    requires at <= |b|
    ensures var e := Encode(crc, rs[..Intact(crc, b, at, rs)]);
      at + |e| <= |b| && b[at..at + |e|] == e
    decreases |rs|
  {
    hide EncodeRecord;
    var k := Intact(crc, b, at, rs);
    if k > 0 {
      var r := EncodeRecord(crc, rs[0]);
      IntactShows(crc, b, at + |r|, rs[1..]);
      assert rs[..k][1..] == rs[1..][..k - 1];
      var e := Encode(crc, rs[1..][..k - 1]);
      assert b[at..at + |r| + |e|] == b[at..at + |r|] + b[at + |r|..at + |r| + |e|];
    }
  }

  /** Cutting the file just past what the scan found, flushing the cut and
      preallocating again settles the survivors and zeroes the rest. */
  lemma CutHolds(crc: Crc, f: Image, records: seq<Record>, k: nat)
    requires |f.past| == |f.bytes| && k <= |records|
    requires forall r :: r in records ==> Encodable(r)
    requires SegmentBytes(crc, records[..k]) <= f.bytes
    ensures var g := Flush(SetLen(f, |SegmentBytes(crc, records[..k])|));
      Holds(crc, g, records[..k], k) && Shows(crc, g, records[..k], k)
  {
    hide SegmentBytes, Encodable, SetLen, Flush;
    var kept := records[..k];
    assert kept[..k] == kept;
    var g := Flush(SetLen(f, |SegmentBytes(crc, kept)|));
    assert g.bytes == SegmentBytes(crc, kept);
    assert forall r :: r in kept ==> r in records;
  }

  lemma SealedHolds(crc: Crc, f: Image, records: seq<Record>)
    requires Sealed(crc, f, records)
    ensures Holds(crc, f, records, |records|) && Shows(crc, f, records, |records|)
    ensures Detects(crc, f.bytes, SEG_PROLOGUE, records)
    ensures Intact(crc, f.bytes, SEG_PROLOGUE, records) == |records|
  {
    hide SegmentBytes, Encodable, Flush, Detects, Intact;
    assert records[..|records|] == records;
    ghost var g := Flush(f);
    assert f.past == g.past;
    ShowsIntact(crc, f, records, |records|);
    DetectsIntact(crc, f.bytes, SEG_PROLOGUE, records);
  }

  /** What scanning a sealed segment returns. */
  lemma SealedScan(crc: Crc, f: Image, records: seq<Record>)
    requires Sealed(crc, f, records)
    ensures PROLOGUE <= f.bytes
    ensures ScanFrom(crc, f.bytes, SEG_PROLOGUE) == Scan(records, |SegmentBytes(crc, records)|, false)
    ensures |f.bytes| == |SegmentBytes(crc, records)|
  {
    hide Holds, Shows, ScanFrom, Detects, Intact, SegmentBytes;
    SealedHolds(crc, f, records);
    ScanRecovers(crc, f, records, |records|, |records|);
    assert records[..|records|] == records;
    ScanToEnd(crc, f.bytes, SEG_PROLOGUE);
  }

  /** What scanning the last segment returns, and what cutting it there leaves. */
  lemma TailScan(crc: Crc, f: Image, records: seq<Record>, flushed: nat, live: nat) returns (k: nat)
    requires Holds(crc, f, records, flushed) && Shows(crc, f, records, live)
    requires Detects(crc, f.bytes, SEG_PROLOGUE, records)
    ensures flushed <= k && live <= k <= |records| && k == Intact(crc, f.bytes, SEG_PROLOGUE, records)
    ensures |f.past| == |f.bytes| && PROLOGUE <= f.bytes
    ensures var s := ScanFrom(crc, f.bytes, SEG_PROLOGUE);
      s.records == records[..k] && s.end == |SegmentBytes(crc, records[..k])| <= |f.bytes|
    ensures var g := Flush(SetLen(f, |SegmentBytes(crc, records[..k])|));
      Holds(crc, g, records[..k], k) && Shows(crc, g, records[..k], k)
    ensures |SegmentBytes(crc, records[..k])| == |f.bytes| ==>
      k == |records| && Holds(crc, f, records[..k], flushed) && Shows(crc, f, records[..k], k)
  {
    hide ScanFrom, Detects, Intact, SetLen, Flush, Encode;
    k := Intact(crc, f.bytes, SEG_PROLOGUE, records);
    ScanRecovers(crc, f, records, flushed, live);
    CutHolds(crc, f, records, k);
    SegmentBytesPrefix(crc, records, k);
    if |SegmentBytes(crc, records[..k])| == |f.bytes| {
      SegmentBytesConcat(crc, records[..k], records[k..]);
      assert records[..k] + records[k..] == records;
      if k < |records| {
        EncodeNonempty(crc, records[k..]);
      }
      assert records[..|records|] == records;
    }
  }

  lemma EncodeNonempty(crc: Crc, rs: seq<Record>)
    requires rs != []
    ensures Encode(crc, rs) != []
  {
  }
}
