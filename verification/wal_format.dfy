/** Little-endian integers over bytes. */
module Bytes {
  import opened Common

  type byte = x: int | 0 <= x < 256

  function Pow256(n: nat): (p: nat)
    ensures p > 0
  {
    if n == 0 then 1 else 256 * Pow256(n - 1)
  }

  function Le(n: nat, width: nat): (s: seq<byte>)
    ensures |s| == width
    decreases width
  {
    if width == 0 then [] else [n % 256] + Le(n / 256, width - 1)
  }

  function FromLe(s: seq<byte>): nat {
    if s == [] then 0 else s[0] + 256 * FromLe(s[1..])
  }

  lemma {:induction false} LeRoundTrip(n: nat, width: nat)
    requires n < Pow256(width)
    ensures FromLe(Le(n, width)) == n
    decreases width
  {
    if width > 0 {
      LeRoundTrip(n / 256, width - 1);
      assert Le(n, width)[1..] == Le(n / 256, width - 1);
    }
  }

  /** The lowest byte comes first. */
  lemma {:induction false} LeBytes(n: nat, width: nat, k: nat)
    requires k < width
    ensures Le(n, width)[k] == n / Pow256(k) % 256
    decreases width
  {
    if k > 0 {
      LeBytes(n / 256, width - 1, k - 1);
      assert Le(n, width)[k] == Le(n / 256, width - 1)[k - 1];
      OverAgain(n, Pow256(k - 1));
    }
  }

  lemma OverAgain(n: nat, p: nat)
    requires p > 0
    ensures n / 256 / p == n / (256 * p)
  {
    var a, b := n / 256, n % 256;
    var q, r := a / p, a % p;
    assert n == 256 * p * q + (256 * r + b) by {
      assert a == p * q + r;
      assert 256 * (p * q) == 256 * p * q;
    }
    OneQuotient(n, 256 * p, q, 256 * r + b);
  }

  function Zeros(n: nat): (s: seq<byte>)
    ensures |s| == n
  {
    seq(n, _ => 0)
  }

  ghost predicate ZeroFrom(s: seq<byte>, at: nat) {
    forall i :: at <= i < |s| ==> s[i] == 0
  }

  lemma {:induction false} FromLeZero(s: seq<byte>)
    requires ZeroFrom(s, 0)
    ensures FromLe(s) == 0
  {
    if s != [] {
      FromLeZero(s[1..]);
    }
  }

  lemma Pow256Values()
    ensures Pow256(4) == 0x1_0000_0000
    ensures Pow256(8) == 0x1_0000_0000_0000_0000
  {
    assert Pow256(1) == 256;
    assert Pow256(2) == 65536;
    assert Pow256(3) == 16777216;
    assert Pow256(5) == 1099511627776;
    assert Pow256(6) == 281474976710656;
    assert Pow256(7) == 72057594037927936;
  }
}

/** The on-disk shapes of a segment file, and the parser that decides where one ends. */
module Format {
  import opened Common
  import opened Bytes

  const SEG_PROLOGUE: nat := 16
  const REC_PREFIX: nat := 16
  const MAX_PAYLOAD: nat := 0x400_0000
  /** "LUGSEG", a zero and a one, then eight reserved zero bytes. */
  const PROLOGUE: seq<byte> := [76, 85, 71, 83, 69, 71, 0, 1, 0, 0, 0, 0, 0, 0, 0, 0]

  datatype Record = Record(version: nat, payload: seq<byte>)

  /** The checksum is a parameter: nothing below depends on which one it is. */
  type Crc = (nat, seq<byte>) -> nat

  function Checksum(crc: Crc, version: nat, payload: seq<byte>): nat {
    crc(version, payload) % 0x1_0000_0000
  }

  predicate Encodable(r: Record) {
    0 < |r.payload| <= MAX_PAYLOAD && r.version < MAX_VERSION
  }

  function RecordPrefix(crc: Crc, r: Record): (s: seq<byte>)
    ensures |s| == REC_PREFIX
  {
    Le(|r.payload|, 4) + Le(Checksum(crc, r.version, r.payload), 4) + Le(r.version, 8)
  }

  /** Payload length, checksum and version of a full prefix. */
  function SplitPrefix(prefix: seq<byte>): (nat, nat, nat)
    requires |prefix| == REC_PREFIX
  {
    (FromLe(prefix[0..4]), FromLe(prefix[4..8]), FromLe(prefix[8..16]))
  }

  lemma SplitInvertsPrefix(crc: Crc, r: Record)
    requires Encodable(r)
    ensures SplitPrefix(RecordPrefix(crc, r)) == (|r.payload|, Checksum(crc, r.version, r.payload), r.version)
  {
    Pow256Values();
    hide Le, FromLe;
    var s := RecordPrefix(crc, r);
    assert s[0..4] == Le(|r.payload|, 4);
    assert s[4..8] == Le(Checksum(crc, r.version, r.payload), 4);
    assert s[8..16] == Le(r.version, 8);
    LeRoundTrip(|r.payload|, 4);
    LeRoundTrip(Checksum(crc, r.version, r.payload), 4);
    LeRoundTrip(r.version, 8);
  }

  /** What a prefix holds, byte by byte: length, checksum and version, the lowest byte
      of each first. */
  lemma PrefixBytes(crc: Crc, r: Record, k: nat)
    requires k < REC_PREFIX
    ensures RecordPrefix(crc, r)[k] ==
      if k < 4 then |r.payload| / Pow256(k) % 256
      else if k < 8 then Checksum(crc, r.version, r.payload) / Pow256(k - 4) % 256
      else r.version / Pow256(k - 8) % 256
  {
    hide Le;
    if k < 4 {
      LeBytes(|r.payload|, 4, k);
    } else if k < 8 {
      LeBytes(Checksum(crc, r.version, r.payload), 4, k - 4);
    } else {
      LeBytes(r.version, 8, k - 8);
    }
  }

  function EncodeRecord(crc: Crc, r: Record): (s: seq<byte>)
    ensures |s| == REC_PREFIX + |r.payload|
  {
    RecordPrefix(crc, r) + r.payload
  }

  function Encode(crc: Crc, rs: seq<Record>): seq<byte> {
    if rs == [] then [] else EncodeRecord(crc, rs[0]) + Encode(crc, rs[1..])
  }

  /** A whole segment: prologue, then its records. */
  function SegmentBytes(crc: Crc, rs: seq<Record>): (s: seq<byte>)
    ensures |s| >= SEG_PROLOGUE
  {
    PROLOGUE + Encode(crc, rs)
  }

  lemma {:induction false} EncodeConcat(crc: Crc, a: seq<Record>, b: seq<Record>)
    ensures Encode(crc, a + b) == Encode(crc, a) + Encode(crc, b)
  {
    hide EncodeRecord, Encode;
    if a == [] {
      assert a + b == b;
      EncodeNone(crc);
    } else {
      EncodeConcat(crc, a[1..], b);
      EncodeHead(crc, a);
      EncodeHead(crc, a + b);
      assert (a + b)[1..] == a[1..] + b && (a + b)[0] == a[0];
      Reassociate(EncodeRecord(crc, a[0]), Encode(crc, a[1..]), Encode(crc, b));
    }
  }

  lemma EncodeNone(crc: Crc)
    ensures Encode(crc, []) == []
  {
  }

  lemma EncodeHead(crc: Crc, rs: seq<Record>)
    requires rs != []
    ensures Encode(crc, rs) == EncodeRecord(crc, rs[0]) + Encode(crc, rs[1..])
  {
  }

  lemma SegmentBytesConcat(crc: Crc, a: seq<Record>, b: seq<Record>)
    ensures SegmentBytes(crc, a + b) == SegmentBytes(crc, a) + Encode(crc, b)
  {
    hide Encode;
    EncodeConcat(crc, a, b);
    Reassociate(PROLOGUE, Encode(crc, a), Encode(crc, b));
  }

  lemma SegmentBytesPrefix(crc: Crc, rs: seq<Record>, n: nat)
    requires n <= |rs|
    ensures SegmentBytes(crc, rs[..n]) <= SegmentBytes(crc, rs)
  {
    hide SegmentBytes, Encode;
    SegmentBytesConcat(crc, rs[..n], rs[n..]);
    Rejoined(rs, n);
    Begins(SegmentBytes(crc, rs[..n]), Encode(crc, rs[n..]));
  }

  // ---- scanning -------------------------------------------------------

  /** What the parser finds at one offset: the end, damage, or a record. */
  datatype Next = Clean | Torn | Found(record: Record)

  datatype Scan = Scan(records: seq<Record>, end: nat, torn: bool)

  function ParseAt(crc: Crc, b: seq<byte>, at: nat): Next
    requires at <= |b|
  {
    if at == |b| then Clean
    else if |b| - at < REC_PREFIX then Torn
    else
      var (len, sum, version) := SplitPrefix(b[at..at + REC_PREFIX]);
      if len == 0 then Clean
      else if len > MAX_PAYLOAD || len > |b| - (at + REC_PREFIX) then Torn
      else
        var payload := b[at + REC_PREFIX..at + REC_PREFIX + len];
        if Checksum(crc, version, payload) != sum then Torn else Found(Record(version, payload))
  }

  function ScanFrom(crc: Crc, b: seq<byte>, at: nat): (s: Scan)
    requires at <= |b|
    ensures at <= s.end <= |b|
    decreases |b| - at
  {
    match ParseAt(crc, b, at)
    case Clean => Scan([], at, false)
    case Torn => Scan([], at, true)
    case Found(r) =>
      var rest := ScanFrom(crc, b, at + REC_PREFIX + |r.payload|);
      Scan([r] + rest.records, rest.end, rest.torn)
  }

  lemma {:induction false} ScanToEnd(crc: Crc, b: seq<byte>, at: nat)
    requires at <= |b| && ScanFrom(crc, b, at).end == |b|
    ensures !ScanFrom(crc, b, at).torn
    decreases |b| - at
  {
    match ParseAt(crc, b, at)
    case Clean =>
    case Torn =>
    case Found(r) => ScanToEnd(crc, b, at + REC_PREFIX + |r.payload|);
  }

  lemma ParseIntact(crc: Crc, b: seq<byte>, at: nat, r: Record)
    requires Encodable(r)
    requires at + |EncodeRecord(crc, r)| <= |b|
    requires b[at..at + |EncodeRecord(crc, r)|] == EncodeRecord(crc, r)
    ensures ParseAt(crc, b, at) == Found(r)
  {
    hide RecordPrefix, SplitPrefix, Checksum;
    var e := EncodeRecord(crc, r);
    assert e[..REC_PREFIX] == RecordPrefix(crc, r) && e[REC_PREFIX..] == r.payload;
    assert b[at..at + REC_PREFIX] == b[at..at + |e|][..REC_PREFIX];
    assert b[at + REC_PREFIX..at + |e|] == b[at..at + |e|][REC_PREFIX..];
    SplitInvertsPrefix(crc, r);
  }

  lemma ParseZeros(crc: Crc, b: seq<byte>, at: nat)
    requires at <= |b| && ZeroFrom(b, at)
    ensures !ParseAt(crc, b, at).Found?
  {
    if |b| - at >= REC_PREFIX {
      var p := b[at..at + REC_PREFIX];
      var len := p[0..4];
      assert forall i {:trigger len[i]} :: 0 <= i < 4 ==> len[i] == b[at + i];
      FromLeZero(len);
    }
  }

  // ---- torn slots -----------------------------------------------------

  /** How many of the records written from `at` on are still there byte for byte. */
  ghost function Intact(crc: Crc, b: seq<byte>, at: nat, rs: seq<Record>): (n: nat)
    ensures n <= |rs|
    decreases |rs|
  {
    if rs == [] then 0
    else
      var e := EncodeRecord(crc, rs[0]);
      if at + |e| <= |b| && b[at..at + |e|] == e then 1 + Intact(crc, b, at + |e|, rs[1..]) else 0
  }

  /** The assumption made of the checksum: the first slot that does not hold
      exactly the record written there is not accepted by the parser. */
  ghost predicate Detects(crc: Crc, b: seq<byte>, at: nat, rs: seq<Record>)
    decreases |rs|
  {
    rs == [] ||
    var e := EncodeRecord(crc, rs[0]);
    if at + |e| <= |b| && b[at..at + |e|] == e
    then Detects(crc, b, at + |e|, rs[1..])
    else at <= |b| ==> !ParseAt(crc, b, at).Found?
  }

  /** A slot that is intact counts, and what follows decides the rest. */
  lemma IntactHead(crc: Crc, b: seq<byte>, at: nat, rs: seq<Record>)
    requires rs != [] && at + |EncodeRecord(crc, rs[0])| <= |b|
    requires b[at..at + |EncodeRecord(crc, rs[0])|] == EncodeRecord(crc, rs[0])
    ensures Intact(crc, b, at, rs) == 1 + Intact(crc, b, at + |EncodeRecord(crc, rs[0])|, rs[1..])
    ensures Detects(crc, b, at, rs) <==> Detects(crc, b, at + |EncodeRecord(crc, rs[0])|, rs[1..])
  {
    hide EncodeRecord, ParseAt;
  }

  /** Whatever a crash did to the slots, the scan returns exactly the intact
      prefix of what was written and stops just past it. */
  lemma {:induction false} ScanFindsIntact(crc: Crc, b: seq<byte>, at: nat, rs: seq<Record>)
    requires forall r :: r in rs ==> Encodable(r)
    requires at + |Encode(crc, rs)| <= |b| && ZeroFrom(b, at + |Encode(crc, rs)|)
    requires Detects(crc, b, at, rs)
    ensures var k := Intact(crc, b, at, rs);
      var s := ScanFrom(crc, b, at);
      s.records == rs[..k] && s.end == at + |Encode(crc, rs[..k])|
    decreases |rs|, 1
  {
    hide EncodeRecord, ParseAt;
    if rs == [] {
      ParseZeros(crc, b, at);
    } else {
      var e := EncodeRecord(crc, rs[0]);
      if b[at..at + |e|] == e {
        assert rs[0] in rs;
        ParseIntact(crc, b, at, rs[0]);
        ScanIntactHead(crc, b, at, rs);
      }
    }
  }

  lemma {:induction false} ScanIntactHead(crc: Crc, b: seq<byte>, at: nat, rs: seq<Record>)
    requires rs != [] && (forall r :: r in rs ==> Encodable(r)) && Detects(crc, b, at, rs)
    requires at + |Encode(crc, rs)| <= |b| && ZeroFrom(b, at + |Encode(crc, rs)|)
    requires at + |EncodeRecord(crc, rs[0])| <= |b|
    requires b[at..at + |EncodeRecord(crc, rs[0])|] == EncodeRecord(crc, rs[0]) && ParseAt(crc, b, at) == Found(rs[0])
    ensures var k := Intact(crc, b, at, rs);
      var s := ScanFrom(crc, b, at);
      s.records == rs[..k] && s.end == at + |Encode(crc, rs[..k])|
    decreases |rs|, 0
  {
    hide EncodeRecord, ParseAt, Encodable, Encode, Intact, Detects;
    var e := EncodeRecord(crc, rs[0]);
    EncodeHead(crc, rs);
    IntactHead(crc, b, at, rs);
    ScanFindsIntact(crc, b, at + |e|, rs[1..]);
    var k := Intact(crc, b, at + |e|, rs[1..]);
    HeadSlice(rs, k);
    EncodeHead(crc, rs[..k + 1]);
  }

  lemma HeadSlice<T>(s: seq<T>, k: nat)
    requires k < |s|
    ensures s[..k + 1] == [s[0]] + s[1..][..k]
    ensures s[..k + 1][1..] == s[1..][..k]
  {
  }

  /** A prefix of the records that is there byte for byte counts as intact. */
  lemma {:induction false} IntactAtLeast(crc: Crc, b: seq<byte>, at: nat, rs: seq<Record>, n: nat)
    requires n <= |rs|
    requires at + |Encode(crc, rs[..n])| <= |b|
    requires b[at..at + |Encode(crc, rs[..n])|] == Encode(crc, rs[..n])
    ensures Intact(crc, b, at, rs) >= n
    decreases n
  {
    hide EncodeRecord;
    if n > 0 {
      var e := EncodeRecord(crc, rs[0]);
      var all := Encode(crc, rs[..n]);
      assert rs[..n][1..] == rs[1..][..n - 1];
      assert all == e + Encode(crc, rs[1..][..n - 1]);
      assert b[at..at + |e|] == b[at..at + |all|][..|e|];
      assert b[at + |e|..at + |all|] == b[at..at + |all|][|e|..];
      IntactAtLeast(crc, b, at + |e|, rs[1..], n - 1);
    }
  }

  /** Past records that are all there, what counts is what follows them. */
  lemma {:induction false} IntactJoin(crc: Crc, b: seq<byte>, at: nat, a: seq<Record>, c: seq<Record>)
    requires at + |Encode(crc, a)| <= |b| && b[at..at + |Encode(crc, a)|] == Encode(crc, a)
    ensures Intact(crc, b, at, a + c) == |a| + Intact(crc, b, at + |Encode(crc, a)|, c)
    ensures Detects(crc, b, at, a + c) <==> Detects(crc, b, at + |Encode(crc, a)|, c)
    decreases |a|
  {
    hide EncodeRecord, ParseAt, Encode, Intact, Detects;
    if a == [] {
      assert a + c == c;
      EncodeNone(crc);
    } else {
      var e, rest := EncodeRecord(crc, a[0]), Encode(crc, a[1..]);
      EncodeHead(crc, a);
      SliceSplit(b, at, e, rest);
      IntactJoin(crc, b, at + |e|, a[1..], c);
      assert (a + c)[1..] == a[1..] + c && (a + c)[0] == a[0];
      IntactHead(crc, b, at, a + c);
    }
  }

  lemma SliceSplit<T>(s: seq<T>, at: nat, a: seq<T>, b: seq<T>)
    requires at + |a| + |b| <= |s| && s[at..at + |a| + |b|] == a + b
    ensures s[at..at + |a|] == a && s[at + |a|..at + |a| + |b|] == b
  {
    assert s[at..at + |a|] == (a + b)[..|a|];
    assert s[at + |a|..at + |a| + |b|] == (a + b)[|a|..];
  }

  /** Nothing is intact where all bytes are zero, for any checksum. */
  lemma ZeroSlot(crc: Crc, b: seq<byte>, at: nat, rs: seq<Record>)
    requires rs != [] && Encodable(rs[0]) && at <= |b| && ZeroFrom(b, at)
    ensures Intact(crc, b, at, rs) == 0 && Detects(crc, b, at, rs)
  {
    hide EncodeRecord, ParseAt, Encodable;
    var e := EncodeRecord(crc, rs[0]);
    ParseZeros(crc, b, at);
    if at + |e| <= |b| && b[at..at + |e|] == e {
      ParseIntact(crc, b, at, rs[0]);
      assert false;
    }
  }

  /** Of records of which the first `j` landed on zeros, exactly these are intact. */
  lemma LandedIntact(crc: Crc, b: seq<byte>, at: nat, rs: seq<Record>, j: nat)
    requires j < |rs| && Encodable(rs[j]) && at + |Encode(crc, rs[..j])| <= |b|
    requires b[at..at + |Encode(crc, rs[..j])|] == Encode(crc, rs[..j])
    requires ZeroFrom(b, at + |Encode(crc, rs[..j])|)
    ensures Intact(crc, b, at, rs) == j && Detects(crc, b, at, rs)
  {
    hide Encode, Intact, Detects;
    assert rs[..j] + rs[j..] == rs;
    IntactJoin(crc, b, at, rs[..j], rs[j..]);
    ZeroSlot(crc, b, at + |Encode(crc, rs[..j])|, rs[j..]);
  }

  /** Where every slot is intact the assumption holds for any checksum at all. */
  lemma {:induction false} DetectsIntact(crc: Crc, b: seq<byte>, at: nat, rs: seq<Record>)
    requires Intact(crc, b, at, rs) == |rs|
    ensures Detects(crc, b, at, rs)
    decreases |rs|
  {
    if rs != [] {
      DetectsIntact(crc, b, at + |EncodeRecord(crc, rs[0])|, rs[1..]);
    }
  }

  /** The scan inverts the encoder followed by any amount of zero padding. */
  lemma ScanInvertsEncode(crc: Crc, rs: seq<Record>, padding: nat)
    requires forall r :: r in rs ==> Encodable(r)
    ensures var s := ScanFrom(crc, SegmentBytes(crc, rs) + Zeros(padding), SEG_PROLOGUE);
      s.records == rs && s.end == |SegmentBytes(crc, rs)|
  {
    var b := SegmentBytes(crc, rs) + Zeros(padding);
    assert rs[..|rs|] == rs;
    assert b[SEG_PROLOGUE..SEG_PROLOGUE + |Encode(crc, rs)|] == Encode(crc, rs);
    IntactAtLeast(crc, b, SEG_PROLOGUE, rs, |rs|);
    DetectsIntact(crc, b, SEG_PROLOGUE, rs);
    ScanFindsIntact(crc, b, SEG_PROLOGUE, rs);
  }
}
