/** The load tester's trace checker: issues, acknowledgements and deliveries go in,
    and a clean finish means the run was right. */
module Ledgers {
  import opened Common

  // ---- payloads -----------------------------------------------------------

  const DIGITS: string := "0123456789abcdef"

  function Hex(n: nat, width: nat): string {
    if width == 0 then "" else Hex(n / 16, width - 1) + [DIGITS[n % 16]]
  }

  function Xs(n: nat): string {
    seq(n, _ => 'x')
  }

  const LIMIT: nat := 0x1_0000_0000_0000_0000

  /** The payload of an append: its sequence number in sixteen digits, then filler. */
  function Payload(sequence: nat, size: nat): string
    requires 16 <= size
  {
    Hex(sequence, 16) + Xs(size - 16)
  }

  /** A digit in either case. */
  function Digit(c: char): Option<nat> {
    if '0' <= c <= '9' then Some((c - '0') as nat)
    else if 'a' <= c <= 'f' then Some((c - 'a') as nat + 10)
    else if 'A' <= c <= 'F' then Some((c - 'A') as nat + 10)
    else None
  }

  function Digits(s: string): Option<nat> {
    if s == "" then Some(0)
    else
      var high, low := Digits(s[..|s| - 1]), Digit(s[|s| - 1]);
      if high.Some? && low.Some? then Some(high.value * 16 + low.value) else None
  }

  /** How a number is read: a leading plus is allowed. */
  function Parse(s: string): Option<nat> {
    if |s| > 1 && s[0] == '+' then Digits(s[1..]) else if s == "" then None else Digits(s)
  }

  /** The sequence number of a payload that looks right. */
  function Read(text: string, size: nat): Option<nat>
    requires 16 <= size
  {
    if |text| != size then None
    else if !(forall i :: 0 <= i < |text| ==> text[i] < 128 as char) then None
    else if !(forall i :: 16 <= i < |text| ==> text[i] == 'x') then None
    else Parse(text[..16])
  }

  lemma {:induction false} HexDigits(n: nat, width: nat)
    ensures |Hex(n, width)| == width
    ensures forall i :: 0 <= i < width ==> Hex(n, width)[i] in DIGITS
    decreases width
  {
    if width > 0 {
      HexDigits(n / 16, width - 1);
    }
  }

  lemma DigitOf(k: nat)
    requires k < 16
    ensures Digit(DIGITS[k]) == Some(k)
  {
    if k < 10 {
      assert DIGITS[k] == '0' + k as char;
    } else {
      assert DIGITS[k] == 'a' + (k - 10) as char;
    }
  }

  function Power(width: nat): (p: nat)
    ensures p > 0
  {
    if width == 0 then 1 else 16 * Power(width - 1)
  }

  lemma {:induction false} HexRead(n: nat, width: nat)
    requires n < Power(width)
    ensures Digits(Hex(n, width)) == Some(n)
    decreases width
  {
    if width > 0 {
      HexRead(n / 16, width - 1);
      DigitOf(n % 16);
      var h := Hex(n, width);
      assert h[..|h| - 1] == Hex(n / 16, width - 1) && h[|h| - 1] == DIGITS[n % 16];
    }
  }

  lemma PowerSixteen()
    ensures Power(16) == LIMIT
  {
    assert Power(4) == 65536;
    assert Power(8) == 65536 * 65536;
    assert Power(12) == 65536 * Power(8);
    assert Power(16) == 65536 * Power(12);
  }

  lemma {:induction false} ReadHex(s: string, n: nat)
    requires Digits(s) == Some(n) && forall i :: 0 <= i < |s| ==> s[i] in DIGITS
    ensures s == Hex(n, |s|)
    decreases |s|
  {
    if s != "" {
      var init := s[..|s| - 1];
      var k := Digit(s[|s| - 1]).value;
      ReadHex(init, Digits(init).value);
      LowerDigit(s[|s| - 1]);
      assert n / 16 == Digits(init).value && n % 16 == k;
      assert s == init + [s[|s| - 1]];
    }
  }

  lemma LowerDigit(c: char)
    requires c in DIGITS
    ensures Digit(c).Some? && Digit(c).value < 16 && DIGITS[Digit(c).value] == c
  {
    var k :| 0 <= k < |DIGITS| && DIGITS[k] == c;
    DigitOf(k);
  }

  lemma {:induction false} HexDigit(n: nat, width: nat, k: nat)
    requires k < width
    ensures |Hex(n, width)| == width && Hex(n, width)[k] == DIGITS[n / Power(width - 1 - k) % 16]
    decreases width
  {
    hide Power;
    HexDigits(n / 16, width - 1);
    if k < width - 1 {
      HexDigit(n / 16, width - 1, k);
      assert Hex(n, width)[k] == Hex(n / 16, width - 1)[k];
      OverSixteen(n, Power(width - 2 - k));
      PowerNext(width - 2 - k);
    } else {
      PowerZero();
    }
  }

  lemma PowerZero()
    ensures Power(0) == 1
  {
  }

  lemma PowerNext(k: nat)
    ensures Power(k + 1) == 16 * Power(k)
  {
  }

  lemma OverSixteen(n: nat, p: nat)
    ensures p > 0 ==> n / 16 / p == n / (16 * p)
  {
    if p > 0 {
      var q, r := n / 16 / p, n / 16 % p;
      assert n == 16 * (p * q + r) + n % 16;
      assert 16 * (p * q) == 16 * p * q;
      OneQuotient(n, 16 * p, q, 16 * r + n % 16);
    }
  }

  /** Character by character: sixteen digits, the highest first, then filler. */
  lemma PayloadDigits(sequence: nat, size: nat, k: nat)
    requires 16 <= size && k < size
    ensures |Payload(sequence, size)| == size
    ensures Payload(sequence, size)[k] ==
      if k < 16 then DIGITS[sequence / Power(15 - k) % 16] else 'x'
  {
    hide Hex, Power;
    HexDigits(sequence, 16);
    if k < 16 {
      HexDigit(sequence, 16, k);
    }
  }

  /** A payload reads back as the sequence number it was made from. */
  lemma PayloadRead(sequence: nat, size: nat)
    requires sequence < LIMIT && 16 <= size
    ensures Read(Payload(sequence, size), size) == Some(sequence)
  {
    hide *;
    HexDigits(sequence, 16);
    PowerSixteen();
    HexRead(sequence, 16);
    PayloadIs(sequence, size);
    LooksRight(Hex(sequence, 16), size);
  }

  lemma PayloadIs(sequence: nat, size: nat)
    requires 16 <= size
    ensures Payload(sequence, size) == Hex(sequence, 16) + Xs(size - 16)
  {
  }

  lemma LooksRight(head: string, size: nat)
    requires |head| == 16 <= size && forall i :: 0 <= i < 16 ==> head[i] in DIGITS
    ensures Read(head + Xs(size - 16), size) == Digits(head)
  {
    hide Digits;
    var text := head + Xs(size - 16);
    assert text[..16] == head;
    LowDigit(head[0]);
    forall i | 0 <= i < |text|
      ensures text[i] < 128 as char && (i >= 16 ==> text[i] == 'x')
    {
      if i < 16 {
        assert text[i] == head[i];
        LowDigit(text[i]);
      }
    }
  }

  lemma LowDigit(c: char)
    requires c in DIGITS
    ensures c < 128 as char && c != '+'
  {
  }

  /** A payload that reads as a number is the very payload of that number exactly
      when its digits are plain lower-case ones; otherwise its bytes changed and the
      reading does not notice. */
  lemma ReadExact(text: string, size: nat, sequence: nat)
    requires 16 <= size && Read(text, size) == Some(sequence)
    ensures text == Payload(sequence, size) <==> forall i :: 0 <= i < 16 ==> text[i] in DIGITS
  {
    HexDigits(sequence, 16);
    var head := text[..16];
    if forall i :: 0 <= i < 16 ==> text[i] in DIGITS {
      assert text[0] in DIGITS && head[0] != '+';
      ReadHex(head, sequence);
      assert text[16..] == Xs(size - 16);
      assert text == head + text[16..];
    }
    if text == Payload(sequence, size) {
      forall i | 0 <= i < 16
        ensures text[i] in DIGITS
      {
        assert text[i] == Hex(sequence, 16)[i];
      }
    }
  }

  /** For one: an upper-case digit. */
  lemma ChangedUnnoticed(text: string)
    requires text == seq(15, _ => '0') + ['A']
    ensures Read(text, 16) == Some(10) && text != Payload(10, 16)
  {
    hide *;
    UpperRead(text);
    ReadExact(text, 16, 10);
    NotLower();
    assert text[15] == 'A';
  }

  lemma UpperRead(text: string)
    requires text == seq(15, _ => '0') + ['A']
    ensures Read(text, 16) == Some(10)
  {
    assert text[..16] == text && text[0] == '0';
    assert text[..15] == seq(15, _ => '0');
    ZerosRead(text[..15]);
    assert Digits(text) == Some(10);
  }

  lemma NotLower()
    ensures 'A' !in DIGITS
  {
  }

  lemma {:induction false} ZerosRead(s: string)
    requires forall i :: 0 <= i < |s| ==> s[i] == '0'
    ensures Digits(s) == Some(0)
    decreases |s|
  {
    if s != "" {
      ZerosRead(s[..|s| - 1]);
    }
  }

  // ---- the ledger -----------------------------------------------------------

  datatype Issued = Issued(log: nat, ack: Option<nat>, observed: Option<nat>)

  datatype Stream = Stream(log: nat, next: nat, credit: nat)

  /** A delivery: a version and its payload, if that is a string at all. */
  datatype Record = Record(version: nat, text: Option<string>)

  /** An acknowledgement that was accepted. */
  datatype Ack = Ack(sequence: nat, version: nat, synced: nat)

  /** What a stream was opened at, the credit it was given in all, and the payloads
      it delivered, in order. */
  datatype Trace = Trace(from: nat, given: nat, got: seq<nat>)

  /** Each version seen on a log stands for one payload issued on that log. */
  ghost predicate Bound(issued: seq<Issued>, canonical: seq<map<nat, nat>>) {
    forall l, v :: 0 <= l < |canonical| && v in canonical[l] ==> BoundAt(issued, l, v, canonical[l][v])
  }

  ghost predicate BoundAt(issued: seq<Issued>, log: nat, version: nat, sequence: nat) {
    1 <= version && sequence < |issued| && issued[sequence].log == log && issued[sequence].observed == Some(version)
  }

  /** And each payload seen stands at one version. */
  ghost predicate Seen(issued: seq<Issued>, canonical: seq<map<nat, nat>>) {
    forall s :: 0 <= s < |issued| ==> SeenAt(issued[s], canonical, s)
  }

  ghost predicate SeenAt(i: Issued, canonical: seq<map<nat, nat>>, sequence: nat) {
    && i.log < |canonical|
    && (i.observed.Some? ==> i.observed.value in canonical[i.log] && canonical[i.log][i.observed.value] == sequence)
    && (i.ack.Some? ==> i.observed == i.ack)
  }

  /** The acknowledgements accepted are those on record, no append twice. */
  ghost predicate Tallied(issued: seq<Issued>, acks: seq<Ack>, durable: bool) {
    && (forall i :: 0 <= i < |acks| ==>
          && acks[i].sequence < |issued| && issued[acks[i].sequence].ack == Some(acks[i].version)
          && (durable ==> acks[i].version <= acks[i].synced))
    && (forall i, j :: 0 <= i < j < |acks| ==> acks[i].sequence != acks[j].sequence)
    && (forall s :: 0 <= s < |issued| && issued[s].ack.Some? ==> exists i :: 0 <= i < |acks| && acks[i].sequence == s)
  }

  /** Each stream has delivered consecutive versions from its cursor, each with the
      payload that version stands for, within its credit. */
  ghost predicate Followed(streams: map<nat, Stream>, traces: map<nat, Trace>, canonical: seq<map<nat, nat>>) {
    && streams.Keys == traces.Keys
    && forall id :: id in streams ==> FollowedAt(streams[id], traces[id], canonical)
  }

  predicate StandsFor(versions: map<nat, nat>, version: nat, sequence: nat) {
    version in versions && versions[version] == sequence
  }

  ghost predicate FollowedAt(s: Stream, t: Trace, canonical: seq<map<nat, nat>>) {
    && s.log < |canonical|
    && s.next == t.from + 1 + |t.got|
    && s.credit + |t.got| == t.given
    && forall i :: 0 <= i < |t.got| ==> StandsFor(canonical[s.log], t.from + 1 + i, t.got[i])
  }

  function Put(canonical: seq<map<nat, nat>>, log: nat, version: nat, sequence: nat): seq<map<nat, nat>>
    requires log < |canonical|
  {
    var versions: map<nat, nat> := canonical[log][version := sequence];
    canonical[log := versions]
  }

  /** A new binding that contradicts nothing keeps everything. */
  ghost predicate Fits(issued: seq<Issued>, canonical: seq<map<nat, nat>>, log: nat, version: nat, sequence: nat)
    requires log < |canonical|
  {
    && version != 0 && (version in canonical[log] ==> canonical[log][version] == sequence)
    && sequence < |issued| && issued[sequence].log == log
    && (issued[sequence].observed.Some? ==> issued[sequence].observed.value == version)
  }

  lemma BindKeeps(issued: seq<Issued>, canonical: seq<map<nat, nat>>, log: nat, version: nat, sequence: nat)
    requires log < |canonical| && Fits(issued, canonical, log, version, sequence) && Bound(issued, canonical)
    requires Seen(issued, canonical)
    ensures
      var more := issued[sequence := issued[sequence].(observed := Some(version))];
      var next := Put(canonical, log, version, sequence);
      Bound(more, next) && Seen(more, next)
  {
    var more := issued[sequence := issued[sequence].(observed := Some(version))];
    var next := Put(canonical, log, version, sequence);
    forall l, v | 0 <= l < |next| && v in next[l]
      ensures BoundAt(more, l, v, next[l][v])
    {
      if !(l == log && v == version) {
        assert v in canonical[l] && BoundAt(issued, l, v, canonical[l][v]);
      }
    }
    forall s | 0 <= s < |more|
      ensures SeenAt(more[s], next, s)
    {
      assert SeenAt(issued[s], canonical, s);
      if s == sequence && issued[s].ack.Some? {
        assert issued[s].observed.value == version;
      }
    }
  }

  lemma BindTallied(issued: seq<Issued>, acks: seq<Ack>, durable: bool, sequence: nat, version: nat)
    requires Tallied(issued, acks, durable) && sequence < |issued|
    ensures Tallied(issued[sequence := issued[sequence].(observed := Some(version))], acks, durable)
  {
    var more := issued[sequence := issued[sequence].(observed := Some(version))];
    assert forall s :: 0 <= s < |issued| ==> more[s].ack == issued[s].ack;
  }

  lemma BindFollowed(streams: map<nat, Stream>, traces: map<nat, Trace>, canonical: seq<map<nat, nat>>, log: nat,
          version: nat, sequence: nat)
    requires Followed(streams, traces, canonical) && log < |canonical|
    requires version in canonical[log] ==> canonical[log][version] == sequence
    ensures Followed(streams, traces, Put(canonical, log, version, sequence))
  {
    var next := Put(canonical, log, version, sequence);
    forall id | id in streams
      ensures FollowedAt(streams[id], traces[id], next)
    {
      assert FollowedAt(streams[id], traces[id], canonical);
      BindFollowedAt(streams[id], traces[id], canonical, log, version, sequence);
    }
  }

  lemma BindFollowedAt(s: Stream, t: Trace, canonical: seq<map<nat, nat>>, log: nat, version: nat, sequence: nat)
    requires FollowedAt(s, t, canonical) && log < |canonical|
    requires version in canonical[log] ==> canonical[log][version] == sequence
    ensures FollowedAt(s, t, Put(canonical, log, version, sequence))
  {
    var next := Put(canonical, log, version, sequence);
    forall i | 0 <= i < |t.got|
      ensures StandsFor(next[s.log], t.from + 1 + i, t.got[i])
    {
      assert StandsFor(canonical[s.log], t.from + 1 + i, t.got[i]);
    }
  }

  lemma AckKeeps(issued: seq<Issued>, canonical: seq<map<nat, nat>>, acks: seq<Ack>, durable: bool, ack: Ack)
    requires Seen(issued, canonical) && Bound(issued, canonical) && Tallied(issued, acks, durable)
    requires ack.sequence < |issued| && issued[ack.sequence].ack.None?
    requires issued[ack.sequence].observed == Some(ack.version)
    requires durable ==> ack.version <= ack.synced
    ensures
      var more := issued[ack.sequence := issued[ack.sequence].(ack := Some(ack.version))];
      Seen(more, canonical) && Bound(more, canonical) && Tallied(more, acks + [ack], durable)
  {
    hide Tallied;
    var more := issued[ack.sequence := issued[ack.sequence].(ack := Some(ack.version))];
    forall s | 0 <= s < |more|
      ensures SeenAt(more[s], canonical, s)
    {
      assert SeenAt(issued[s], canonical, s);
    }
    forall l, v | 0 <= l < |canonical| && v in canonical[l]
      ensures BoundAt(more, l, v, canonical[l][v])
    {
      assert BoundAt(issued, l, v, canonical[l][v]);
    }
    AckTallied(issued, acks, durable, ack);
  }

  lemma AckTallied(issued: seq<Issued>, acks: seq<Ack>, durable: bool, ack: Ack)
    requires Tallied(issued, acks, durable)
    requires ack.sequence < |issued| && issued[ack.sequence].ack.None?
    requires durable ==> ack.version <= ack.synced
    ensures
      Tallied(issued[ack.sequence := issued[ack.sequence].(ack := Some(ack.version))], acks + [ack], durable)
  {
    var more := issued[ack.sequence := issued[ack.sequence].(ack := Some(ack.version))];
    var all := acks + [ack];
    forall s | 0 <= s < |more| && more[s].ack.Some?
      ensures exists i :: 0 <= i < |all| && all[i].sequence == s
    {
      if s == ack.sequence {
        assert all[|acks|].sequence == s;
      } else {
        var i :| 0 <= i < |acks| && acks[i].sequence == s;
        assert all[i].sequence == s;
      }
    }
  }

  // ---- what a clean finish means ------------------------------------------------

  /** The versions of a log are exactly 1 to n, one for each payload issued on it,
      each acknowledged at its version. */
  ghost predicate Complete(issued: seq<Issued>, versions: map<nat, nat>, log: nat) {
    && (forall v :: v in versions <==> 1 <= v <= |versions|)
    && (forall v :: v in versions ==>
          versions[v] < |issued| && issued[versions[v]].log == log && issued[versions[v]].ack == Some(v))
    && (forall s :: 0 <= s < |issued| && issued[s].log == log ==>
          issued[s].ack.Some? && issued[s].ack.value in versions && versions[issued[s].ack.value] == s)
  }

  /** A stream delivered the log's order from its cursor to the end, within credit. */
  ghost predicate Whole(s: Stream, t: Trace, versions: map<nat, nat>) {
    && t.from + |t.got| == |versions|
    && (forall i :: 0 <= i < |t.got| ==> StandsFor(versions, t.from + 1 + i, t.got[i]))
    && |t.got| <= t.given
  }

  ghost predicate Right(issued: seq<Issued>, canonical: seq<map<nat, nat>>, acks: seq<Ack>, streams: map<nat, Stream>,
          traces: map<nat, Trace>, durable: bool) {
    && (forall l :: 0 <= l < |canonical| ==> Complete(issued, canonical[l], l))
    && |acks| == |issued|
    && (forall s :: 0 <= s < |issued| ==> AckedOnce(acks, s, durable))
    && streams.Keys == traces.Keys
    && (forall id :: id in streams ==>
        streams[id].log < |canonical| && Whole(streams[id], traces[id], canonical[streams[id].log]))
  }

  /** Acknowledged exactly once, and flushed if the run asked for that. */
  ghost predicate AckedOnce(acks: seq<Ack>, sequence: nat, durable: bool) {
    exists i :: 0 <= i < |acks| && acks[i].sequence == sequence && (durable ==> acks[i].version <= acks[i].synced)
      && forall j :: 0 <= j < |acks| && j != i ==> acks[j].sequence != sequence
  }

  function Between(low: nat, n: nat): (s: set<nat>)
    ensures forall x :: x in s <==> low <= x < low + n
    ensures |s| == n
  {
    if n == 0 then {} else Between(low, n - 1) + {low + n - 1}
  }

  /** A subset as large as the whole is the whole. */
  lemma Filled(s: set<nat>, low: nat, n: nat)
    requires |s| == n && forall x :: x in s ==> low <= x < low + n
    ensures s == Between(low, n)
  {
    SubsetSize(s, Between(low, n));
  }

  lemma SubsetSize<T>(a: set<T>, b: set<T>)
    requires a <= b && |a| == |b|
    ensures a == b
  {
    assert b == a + (b - a);
    assert |b| == |a| + |b - a|;
    assert b - a == {};
  }

  function Sequences(acks: seq<Ack>): set<nat> {
    set i: nat | i < |acks| :: acks[i].sequence
  }

  lemma {:induction false} SequencesSize(acks: seq<Ack>)
    requires forall i, j :: 0 <= i < j < |acks| ==> acks[i].sequence != acks[j].sequence
    ensures |Sequences(acks)| == |acks|
    decreases |acks|
  {
    if acks != [] {
      var init, last := acks[..|acks| - 1], acks[|acks| - 1].sequence;
      SequencesSize(init);
      assert Sequences(acks) == Sequences(init) + {last};
    }
  }

  /** As many acknowledgements as issues means every issue was acknowledged. */
  lemma AllAcked(issued: seq<Issued>, acks: seq<Ack>, durable: bool, s: nat)
    requires Tallied(issued, acks, durable) && |acks| == |issued| && s < |issued|
    ensures issued[s].ack.Some? && AckedOnce(acks, s, durable)
  {
    SequencesSize(acks);
    Filled(Sequences(acks), 0, |issued|);
    assert s in Between(0, |issued|);
    var i: nat :| i < |acks| && acks[i].sequence == s;
  }

  /** The highest version being the number of them, they are 1 to n. */
  lemma Packed(versions: map<nat, nat>, top: nat)
    requires forall v :: v in versions ==> 1 <= v <= top
    requires top == |versions|
    ensures forall v :: v in versions <==> 1 <= v <= |versions|
  {
    assert |versions.Keys| == |versions|;
    Filled(versions.Keys, 1, top);
    forall v
      ensures v in versions <==> 1 <= v <= |versions|
    {
      assert v in versions <==> v in versions.Keys;
    }
  }

  lemma IsComplete(issued: seq<Issued>, canonical: seq<map<nat, nat>>, log: nat)
    requires Bound(issued, canonical) && Seen(issued, canonical) && log < |canonical|
    requires forall s :: 0 <= s < |issued| ==> issued[s].ack.Some?
    requires forall v :: v in canonical[log] <==> 1 <= v <= |canonical[log]|
    ensures Complete(issued, canonical[log], log)
  {
    var versions := canonical[log];
    forall v | v in versions
      ensures versions[v] < |issued| && issued[versions[v]].log == log && issued[versions[v]].ack == Some(v)
    {
      assert BoundAt(issued, log, v, versions[v]);
      assert SeenAt(issued[versions[v]], canonical, versions[v]);
    }
    forall s | 0 <= s < |issued| && issued[s].log == log
      ensures issued[s].ack.Some? && issued[s].ack.value in versions && versions[issued[s].ack.value] == s
    {
      assert SeenAt(issued[s], canonical, s);
    }
  }

  /** A stream past one more record. */
  function Past(s: Stream): Stream {
    s.(credit := if s.credit > 0 then s.credit - 1 else 0, next := s.next + 1)
  }

  /** What a ledger knows, and what its streams were given and delivered. */
  datatype Book = Book(issued: seq<Issued>, canonical: seq<map<nat, nat>>, streams: map<nat, Stream>,
    traces: map<nat, Trace>)

  /** A record that may come: the next of its stream, with credit left for it, and
      a payload that reads and contradicts nothing. */
  ghost predicate Next(b: Book, size: nat, id: nat, r: Record)
    requires 16 <= size
  {
    && id in b.streams && r.version == b.streams[id].next && b.streams[id].credit > 0
    && r.text.Some? && Read(r.text.value, size).Some?
    && b.streams[id].log < |b.canonical|
    && Fits(b.issued, b.canonical, b.streams[id].log, r.version, Read(r.text.value, size).value)
  }

  /** Its payload is bound to its version, and its stream has delivered it. */
  ghost function Took(b: Book, size: nat, id: nat, r: Record): Book
    requires 16 <= size && Next(b, size, id, r)
  {
    var sequence := Read(r.text.value, size).value;
    Book(b.issued[sequence := b.issued[sequence].(observed := Some(r.version))],
      Put(b.canonical, b.streams[id].log, r.version, sequence), b.streams[id := Past(b.streams[id])],
      if id in b.traces then b.traces[id := b.traces[id].(got := b.traces[id].got + [sequence])] else b.traces)
  }

  /** Records that may come one after another. */
  ghost predicate Along(b: Book, size: nat, id: nat, records: seq<Record>)
    requires 16 <= size
    decreases |records|, 0
  {
    records == []
      || (Along(b, size, id, Init(records)) && Next(TookAll(b, size, id, Init(records)), size, id, Last(records)))
  }

  ghost function TookAll(b: Book, size: nat, id: nat, records: seq<Record>): Book
    requires 16 <= size && Along(b, size, id, records)
    decreases |records|, 1
  {
    if records == [] then b else Took(TookAll(b, size, id, Init(records)), size, id, Last(records))
  }

  lemma AlongNext(b: Book, size: nat, id: nat, records: seq<Record>, i: nat)
    requires 16 <= size && i < |records| && Along(b, size, id, records[..i])
    ensures Along(b, size, id, records[..i + 1]) <==> Next(TookAll(b, size, id, records[..i]), size, id, records[i])
    ensures Along(b, size, id, records[..i + 1]) ==>
      TookAll(b, size, id, records[..i + 1]) == Took(TookAll(b, size, id, records[..i]), size, id, records[i])
  {
    hide Next, Took;
    assert Init(records[..i + 1]) == records[..i] && Last(records[..i + 1]) == records[i];
  }

  /** A batch that goes wrong somewhere is wrong. */
  lemma {:induction false} AlongBefore(b: Book, size: nat, id: nat, records: seq<Record>, i: nat)
    requires 16 <= size && i <= |records| && Along(b, size, id, records)
    ensures Along(b, size, id, records[..i])
    decreases |records|
  {
    hide Next, Took;
    if i < |records| {
      AlongBefore(b, size, id, Init(records), i);
      assert Init(records)[..i] == records[..i];
    } else {
      assert records[..i] == records;
    }
  }

  /** Records that come along carry the next versions of their stream, no more of
      them than it has credit, and leave it that much further. */
  lemma {:induction false} AlongRuns(b: Book, size: nat, id: nat, records: seq<Record>)
    requires 16 <= size && Along(b, size, id, records) && records != []
    ensures id in b.streams && |records| <= b.streams[id].credit && Reads(records, size)
    ensures forall i :: 0 <= i < |records| ==> records[i].version == b.streams[id].next + i
    ensures
      var s := b.streams[id];
      TookAll(b, size, id, records).streams ==
        b.streams[id := s.(next := s.next + |records|, credit := s.credit - |records|)]
    ensures id in b.traces ==>
      TookAll(b, size, id, records).traces ==
        b.traces[id := b.traces[id].(got := b.traces[id].got + Sequence(records, size))]
    decreases |records|
  {
    hide Fits, Read, Put, Past, Sequence;
    var init := Init(records);
    assert records == init + [Last(records)];
    if init != [] {
      AlongRuns(b, size, id, init);
    }
    OneStreamMore(b, size, id, init, Last(records));
    if id in b.traces {
      OneTraceMore(b, size, id, init, Last(records));
    }
  }

  ghost predicate Reads(records: seq<Record>, size: nat)
    requires 16 <= size
  {
    forall i :: 0 <= i < |records| ==> records[i].text.Some? && Read(records[i].text.value, size).Some?
  }

  lemma OneStreamMore(b: Book, size: nat, id: nat, records: seq<Record>, r: Record)
    requires 16 <= size && Along(b, size, id, records) && Next(TookAll(b, size, id, records), size, id, r)
    requires records != [] ==>
      && id in b.streams && |records| <= b.streams[id].credit
      && TookAll(b, size, id, records).streams == b.streams[id :=
        b.streams[id].(next := b.streams[id].next + |records|, credit := b.streams[id].credit - |records|)]
    ensures id in b.streams && |records| < b.streams[id].credit && r.version == b.streams[id].next + |records|
    ensures
      Took(TookAll(b, size, id, records), size, id, r).streams == b.streams[id :=
        b.streams[id].(next := b.streams[id].next + |records| + 1, credit := b.streams[id].credit - |records| - 1)]
  {
    hide Fits, Read, Put;
  }

  lemma OneTraceMore(b: Book, size: nat, id: nat, records: seq<Record>, r: Record)
    requires 16 <= size && Along(b, size, id, records) && Next(TookAll(b, size, id, records), size, id, r)
    requires id in b.traces && Reads(records, size)
    requires records != [] ==>
      TookAll(b, size, id, records).traces ==
        b.traces[id := b.traces[id].(got := b.traces[id].got + Sequence(records, size))]
    ensures
      Took(TookAll(b, size, id, records), size, id, r).traces ==
        b.traces[id := b.traces[id].(got := b.traces[id].got + Sequence(records + [r], size))]
  {
    hide Fits, Read, Put, Past;
    SequenceMore(records, size, r);
    var got := b.traces[id].got;
    if records == [] {
      assert got + Sequence(records, size) == got;
    }
    Reassociate(got, Sequence(records, size), [Read(r.text.value, size).value]);
  }

  /** The payloads of records, as numbers. */
  ghost function Sequence(records: seq<Record>, size: nat): seq<nat>
    requires 16 <= size
    requires Reads(records, size)
  {
    seq(|records|, i requires 0 <= i < |records| => Read(records[i].text.value, size).value)
  }

  lemma SequenceMore(records: seq<Record>, size: nat, r: Record)
    requires 16 <= size && r.text.Some? && Read(r.text.value, size).Some?
    requires Reads(records, size)
    ensures Reads(records + [r], size)
    ensures Sequence(records + [r], size) == Sequence(records, size) + [Read(r.text.value, size).value]
  {
    hide Read;
  }

  class Ledger {
    const size: nat
    const durable: bool
    var issued: seq<Issued>
    var canonical: seq<map<nat, nat>>
    var streams: map<nat, Stream>
    var ackCount: nat
    /** What was accepted, and whether anything was refused. */
    ghost var acks: seq<Ack>
    ghost var traces: map<nat, Trace>
    ghost var refused: bool

    ghost predicate Valid()
      reads this
    {
      && 16 <= size && ackCount == |acks|
      && (forall id :: id in streams ==> streams[id].log < |canonical|)
      && (forall i :: 0 <= i < |issued| ==> issued[i].log < |canonical|)
      && (!refused ==>
            && Bound(issued, canonical) && Seen(issued, canonical) && Tallied(issued, acks, durable)
            && Followed(streams, traces, canonical))
    }

    constructor (logs: nat, size: nat, durable: bool)
      requires 16 <= size
      ensures Valid() && !refused && this.size == size && this.durable == durable
      ensures issued == [] && |canonical| == logs && streams == map[] && acks == []
    {
      this.size, this.durable := size, durable;
      issued, canonical, streams, ackCount := [], seq(logs, _ => map[]), map[], 0;
      acks, traces, refused := [], map[], false;
    }

    /** An append goes out; its number is its place. */
    method Issue(log: nat) returns (sequence: nat)
      requires Valid() && log < |canonical|
      modifies this
      ensures Valid() && refused == old(refused) && sequence == old(|issued|)
      ensures issued == old(issued) + [Issued(log, None, None)] && acks == old(acks) && traces == old(traces)
      ensures streams == old(streams)
      ensures canonical == old(canonical)
    {
      sequence := |issued|;
      IssueKeeps(issued, canonical, acks, durable, log);
      hide Bound, Seen, Tallied, Followed;
      issued := issued + [Issued(log, None, None)];
    }

    method Subscribe(id: nat, log: nat, from: nat, credit: nat) returns (ok: bool)
      requires Valid() && log < |canonical|
      modifies this
      ensures Valid() && issued == old(issued) && acks == old(acks) && canonical == old(canonical)
      ensures ok <==> id !in old(streams)
      ensures ok ==> refused == old(refused) && traces == old(traces)[id := Trace(from, credit, [])]
      ensures ok ==> streams == old(streams)[id := Stream(log, from + 1, credit)]
      ensures !ok ==> refused
    {
      var known := id in streams;
      OpenKeeps(streams, traces, canonical, id, Stream(log, from + 1, credit), Trace(from, credit, []));
      hide Bound, Seen, Tallied, Followed;
      streams := streams[id := Stream(log, from + 1, credit)];
      if known {
        refused := true;
        return false;
      }
      traces := traces[id := Trace(from, credit, [])];
      ok := true;
    }

    method Grant(id: nat, credit: nat) returns (ok: bool)
      requires Valid()
      modifies this
      ensures Valid() && issued == old(issued) && acks == old(acks) && canonical == old(canonical)
      ensures ok <==> id in old(streams)
      ensures ok ==>
        streams == old(streams)[id := old(streams)[id].(credit := old(streams)[id].credit + credit)]
      ensures ok && !refused ==>
        id in old(traces) && traces == old(traces)[id := old(traces)[id].(given := old(traces)[id].given + credit)]
      ensures refused == (old(refused) || !ok)
    {
      hide Bound, Seen, Tallied, Followed;
      if id !in streams {
        refused := true;
        return false;
      }
      var s := streams[id];
      if !refused {
        Credited(streams, traces, canonical, id, credit);
        traces := traces[id := traces[id].(given := traces[id].given + credit)];
      }
      streams := streams[id := s.(credit := s.credit + credit)];
      ok := true;
    }

    /** A version of a log stands for a payload. */
    method Bind(log: nat, version: nat, sequence: nat) returns (ok: bool)
      requires Valid() && log < |canonical|
      modifies this`canonical, this`issued, this`refused
      ensures Valid() && |canonical| == old(|canonical|) && |issued| == old(|issued|)
      ensures ok ==> sequence < |issued|
      ensures !old(refused) ==> (ok <==> Fits(old(issued), old(canonical), log, version, sequence))
      ensures refused == (old(refused) || !ok)
      ensures ok ==>
        && canonical == Put(old(canonical), log, version, sequence)
        && issued == old(issued)[sequence := old(issued)[sequence].(observed := Some(version))]
    {
      if !refused && Fits(issued, canonical, log, version, sequence) {
        BindKeeps(issued, canonical, log, version, sequence);
        BindTallied(issued, acks, durable, sequence, version);
        BindFollowed(streams, traces, canonical, log, version, sequence);
      }
      hide Bound, Seen, Tallied, Followed;
      if version == 0 {
        refused := true;
        return false;
      }
      var conflict := version in canonical[log] && canonical[log][version] != sequence;
      canonical := Put(canonical, log, version, sequence);
      if conflict || sequence >= |issued| || issued[sequence].log != log {
        refused := true;
        return false;
      }
      if issued[sequence].observed.Some? && issued[sequence].observed.value != version {
        refused := true;
        return false;
      }
      issued := issued[sequence := issued[sequence].(observed := Some(version))];
      ok := true;
    }

    /** An acknowledgement that may come: of an append that went out and was not
        acknowledged, with one version that contradicts nothing, flushed if the run
        is durable. */
    ghost predicate Due(sequence: nat, versions: seq<nat>, synced: nat)
      requires Valid()
      reads this
    {
      && |versions| == 1 && sequence < |issued| && issued[sequence].ack.None?
      && (durable ==> versions[0] <= synced)
      && Fits(issued, canonical, issued[sequence].log, versions[0], sequence)
    }

    ghost function Now(): Book
      reads this
    {
      Book(issued, canonical, streams, traces)
    }

    /** An append is acknowledged: once, at one version, flushed if it must be. */
    method Acknowledge(sequence: nat, versions: seq<nat>, synced: nat) returns (ok: bool)
      requires Valid()
      modifies this
      ensures Valid() && traces == old(traces) && streams == old(streams) && |canonical| == old(|canonical|)
      ensures |issued| == old(|issued|)
      ensures refused == (old(refused) || !ok)
      ensures !old(refused) ==> (ok <==> old(Due(sequence, versions, synced)))
      ensures ok ==>
        |versions| == 1 && acks == old(acks) + [Ack(sequence, versions[0], synced)] && ackCount == old(ackCount) + 1
      ensures ok ==>
        && sequence < |old(issued)| && old(issued)[sequence].log < |old(canonical)|
        && canonical == Put(old(canonical), old(issued)[sequence].log, versions[0], sequence)
        && issued == old(issued)[sequence := Issued(old(issued)[sequence].log, Some(versions[0]), Some(versions[0]))]
      ensures !ok ==> acks == old(acks) && ackCount == old(ackCount)
    {
      hide Bound, Seen, Tallied, Followed, Fits;
      if |versions| != 1 || sequence >= |issued| || issued[sequence].ack.Some? || (durable && synced < versions[0]) {
        refused := true;
        return false;
      }
      ok := Bind(issued[sequence].log, versions[0], sequence);
      if !ok {
        return;
      }
      if !refused {
        AckKeeps(issued, canonical, acks, durable, Ack(sequence, versions[0], synced));
      }
      issued := issued[sequence := issued[sequence].(ack := Some(versions[0]))];
      ackCount := ackCount + 1;
      acks := acks + [Ack(sequence, versions[0], synced)];
    }

    /** Records arrive on a stream: in order, within credit, with payloads that
        agree with everything seen. */
    method Records(id: nat, records: seq<Record>) returns (ok: bool)
      requires Valid()
      modifies this
      ensures Valid() && acks == old(acks) && |canonical| == old(|canonical|) && |issued| == old(|issued|)
      ensures refused == (old(refused) || !ok)
      ensures !old(refused) ==> (ok <==> Along(old(Now()), size, id, records))
      ensures ok && !refused ==> Now() == TookAll(old(Now()), size, id, records)
    {
      hide Bound, Seen, Tallied, Followed, Fits, Next, Took, Along, TookAll;
      ghost var was := Now();
      AlongNone(was, size, id);
      assert records[..0] == [];
      for i := 0 to |records|
        invariant Valid() && acks == old(acks) && refused == old(refused)
        invariant |canonical| == old(|canonical|) && |issued| == old(|issued|)
        invariant !refused ==>
          Along(was, size, id, records[..i]) && Now() == TookAll(was, size, id, records[..i])
      {
        ghost var now, before := Now(), refused;
        var one := Deliver(id, records[i]);
        if !before {
          AlongNext(was, size, id, records, i);
        }
        if !one {
          if Along(was, size, id, records) {
            AlongBefore(was, size, id, records, i + 1);
          }
          return false;
        }
      }
      assert records[..|records|] == records;
      ok := true;
    }

    lemma AlongNone(b: Book, size: nat, id: nat)
      requires 16 <= size
      ensures Along(b, size, id, []) && TookAll(b, size, id, []) == b
    {
    }

    method Deliver(id: nat, r: Record) returns (ok: bool)
      requires Valid()
      modifies this
      ensures Valid() && acks == old(acks) && |canonical| == old(|canonical|) && |issued| == old(|issued|)
      ensures refused == (old(refused) || !ok)
      ensures !old(refused) ==> (ok <==> Next(old(Now()), size, id, r))
      ensures ok && !refused ==> Now() == Took(old(Now()), size, id, r)
      ensures ok ==> id in old(streams) && streams == old(streams)[id := Past(old(streams)[id])]
      ensures ok ==> r.text.Some? && Read(r.text.value, size).Some?
    {
      hide Bound, Seen, Tallied, Fits, Read;
      if id !in streams {
        refused := true;
        return false;
      }
      var s := streams[id];
      if r.version != s.next || s.credit == 0 {
        refused := true;
        return false;
      }
      if r.text.None? || Read(r.text.value, size).None? {
        streams := streams[id := Past(s)];
        refused := true;
        return false;
      }
      var sequence := Read(r.text.value, size).value;
      ok := Bind(s.log, r.version, sequence);
      if ok && !refused {
        ghost var t := traces[id];
        OneMore(s, t, canonical, sequence);
        traces := traces[id := t.(got := t.got + [sequence])];
      }
      streams := streams[id := Past(s)];
    }

    /** Forget the streams, to read the logs again from the start. */
    method Replay()
      requires Valid()
      modifies this
      ensures Valid() && refused == old(refused) && acks == old(acks) && issued == old(issued)
      ensures canonical == old(canonical)
      ensures streams == map[] && traces == map[]
    {
      streams := map[];
      traces := map[];
    }

    /** Whether nothing more is expected. */
    method Done() returns (yes: bool)
      requires Valid()
      ensures yes <==> ackCount == |issued| && forall id :: id in streams ==> AtEnd(streams[id], canonical)
    {
      hide Bound, Seen, Tallied, Followed;
      if ackCount != |issued| {
        return false;
      }
      yes := AllAtEnd();
    }

    method AllAtEnd() returns (yes: bool)
      requires Valid()
      ensures yes <==> forall id :: id in streams ==> AtEnd(streams[id], canonical)
    {
      hide Bound, Seen, Tallied, Followed;
      var left := streams.Keys;
      while left != {}
        invariant left <= streams.Keys
        invariant forall id :: id in streams && id !in left ==> AtEnd(streams[id], canonical)
        decreases |left|
      {
        var id :| id in left;
        var top := Highest(canonical[streams[id].log]);
        if streams[id].next - 1 != top {
          NotAtEnd(streams[id], canonical, top);
          return false;
        }
        left := left - {id};
      }
      yes := true;
    }

    /** The end: every append acknowledged, every stream at the end of its log, no
        version missing. If nothing was refused on the way, the run was right. */
    method Finish() returns (ok: bool)
      requires Valid()
      ensures ok && !refused ==> Right(issued, canonical, acks, streams, traces, durable)
      ensures !ok <==>
        || ackCount != |issued|
        || (exists id :: id in streams && !AtEnd(streams[id], canonical))
        || (exists l :: 0 <= l < |canonical| && !Dense(canonical[l]))
    {
      hide Bound, Seen, Tallied, Followed;
      if ackCount != |issued| {
        return false;
      }
      ok := AllAtEnd();
      if !ok {
        return;
      }
      for l := 0 to |canonical|
        invariant forall k :: 0 <= k < l ==> Dense(canonical[k])
      {
        var top := Highest(canonical[l]);
        if top != |canonical[l]| {
          NotDense(canonical[l], top);
          return false;
        }
      }
      if !refused {
        AllRight(issued, canonical, acks, streams, traces, durable);
      }
    }
  }

  /** `top` is the highest version, or zero. */
  ghost predicate IsHighest(versions: map<nat, nat>, top: nat) {
    (forall v :: v in versions ==> v <= top) && (top in versions || (versions == map[] && top == 0))
  }

  method Highest(versions: map<nat, nat>) returns (top: nat)
    ensures IsHighest(versions, top)
  {
    top := 0;
    var left := versions.Keys;
    while left != {}
      invariant left <= versions.Keys
      invariant forall v :: v in versions && v !in left ==> v <= top
      invariant top in versions || (top == 0 && left == versions.Keys)
      decreases |left|
    {
      var v :| v in left;
      if v > top || top !in versions {
        top := v;
      }
      left := left - {v};
    }
  }

  /** The highest version is the number of versions. */
  ghost predicate Dense(versions: map<nat, nat>) {
    IsHighest(versions, |versions|)
  }

  ghost predicate AtEnd(s: Stream, canonical: seq<map<nat, nat>>) {
    s.log < |canonical| && s.next >= 1 && IsHighest(canonical[s.log], s.next - 1)
  }

  lemma OneHighest(versions: map<nat, nat>, a: nat, b: nat)
    ensures IsHighest(versions, a) && IsHighest(versions, b) ==> a == b
  {
  }

  lemma NotAtEnd(s: Stream, canonical: seq<map<nat, nat>>, top: nat)
    requires s.log < |canonical| && IsHighest(canonical[s.log], top) && s.next - 1 != top
    ensures !AtEnd(s, canonical)
  {
    if s.next >= 1 {
      OneHighest(canonical[s.log], top, s.next - 1);
    }
  }

  lemma NotDense(versions: map<nat, nat>, top: nat)
    requires IsHighest(versions, top) && top != |versions|
    ensures !Dense(versions)
  {
    OneHighest(versions, top, |versions|);
  }

  /** The soundness of a clean finish. */
  lemma AllRight(issued: seq<Issued>, canonical: seq<map<nat, nat>>, acks: seq<Ack>, streams: map<nat, Stream>,
          traces: map<nat, Trace>, durable: bool)
    requires Bound(issued, canonical) && Seen(issued, canonical) && Tallied(issued, acks, durable)
    requires Followed(streams, traces, canonical)
    requires |acks| == |issued|
    requires forall id :: id in streams ==> AtEnd(streams[id], canonical)
    requires forall l :: 0 <= l < |canonical| ==> Dense(canonical[l])
    ensures Right(issued, canonical, acks, streams, traces, durable)
  {
    hide Bound, Seen, Tallied, FollowedAt, Complete, Whole, AckedOnce, AtEnd, Dense;
    forall s | 0 <= s < |issued|
      ensures issued[s].ack.Some? && AckedOnce(acks, s, durable)
    {
      AllAcked(issued, acks, durable, s);
    }
    forall l | 0 <= l < |canonical|
      ensures Complete(issued, canonical[l], l)
    {
      DenseComplete(issued, canonical, l);
    }
    forall id | id in streams
      ensures streams[id].log < |canonical| && Whole(streams[id], traces[id], canonical[streams[id].log])
    {
      AtEndIn(streams[id], canonical);
      WholeAt(streams[id], traces[id], canonical);
    }
  }

  lemma AtEndIn(s: Stream, canonical: seq<map<nat, nat>>)
    requires AtEnd(s, canonical)
    ensures s.log < |canonical|
  {
  }

  lemma WholeAt(s: Stream, t: Trace, canonical: seq<map<nat, nat>>)
    requires FollowedAt(s, t, canonical) && AtEnd(s, canonical) && Dense(canonical[s.log])
    ensures Whole(s, t, canonical[s.log])
  {
    OneHighest(canonical[s.log], |canonical[s.log]|, s.next - 1);
  }

  lemma DenseComplete(issued: seq<Issued>, canonical: seq<map<nat, nat>>, log: nat)
    requires Bound(issued, canonical) && Seen(issued, canonical) && log < |canonical| && Dense(canonical[log])
    requires forall s :: 0 <= s < |issued| ==> issued[s].ack.Some?
    ensures Complete(issued, canonical[log], log)
  {
    forall v | v in canonical[log]
      ensures 1 <= v <= |canonical[log]|
    {
      assert BoundAt(issued, log, v, canonical[log][v]);
    }
    Packed(canonical[log], |canonical[log]|);
    IsComplete(issued, canonical, log);
  }

  lemma IssueKeeps(issued: seq<Issued>, canonical: seq<map<nat, nat>>, acks: seq<Ack>, durable: bool, log: nat)
    requires log < |canonical|
    ensures Bound(issued, canonical) ==> Bound(issued + [Issued(log, None, None)], canonical)
    ensures Seen(issued, canonical) ==> Seen(issued + [Issued(log, None, None)], canonical)
    ensures Tallied(issued, acks, durable) ==> Tallied(issued + [Issued(log, None, None)], acks, durable)
  {
    var more := issued + [Issued(log, None, None)];
    if Bound(issued, canonical) {
      forall l, v | 0 <= l < |canonical| && v in canonical[l]
        ensures BoundAt(more, l, v, canonical[l][v])
      {
        assert BoundAt(issued, l, v, canonical[l][v]);
      }
    }
    if Seen(issued, canonical) {
      forall s | 0 <= s < |more|
        ensures SeenAt(more[s], canonical, s)
      {
        if s < |issued| {
          assert SeenAt(issued[s], canonical, s);
        }
      }
    }
  }

  lemma OneMore(s: Stream, t: Trace, canonical: seq<map<nat, nat>>, sequence: nat)
    requires FollowedAt(s, t, canonical) && s.credit > 0
    requires s.next in canonical[s.log] && canonical[s.log][s.next] == sequence
    ensures FollowedAt(Past(s), t.(got := t.got + [sequence]), canonical)
  {
  }

  lemma Credited(streams: map<nat, Stream>, traces: map<nat, Trace>, canonical: seq<map<nat, nat>>, id: nat,
          credit: nat)
    requires Followed(streams, traces, canonical) && id in streams
    ensures id in traces
    ensures
      Followed(streams[id := streams[id].(credit := streams[id].credit + credit)],
        traces[id := traces[id].(given := traces[id].given + credit)], canonical)
  {
    var s, t := streams[id].(credit := streams[id].credit + credit), traces[id].(given := traces[id].given + credit);
    assert FollowedAt(streams[id], traces[id], canonical);
    OpenKeeps(streams, traces, canonical, id, s, t);
  }

  lemma OpenKeeps(streams: map<nat, Stream>, traces: map<nat, Trace>, canonical: seq<map<nat, nat>>, id: nat, s: Stream,
          t: Trace)
    requires Followed(streams, traces, canonical) ==> FollowedAt(s, t, canonical)
    ensures Followed(streams, traces, canonical) ==> Followed(streams[id := s], traces[id := t], canonical)
  {
  }
}
