/** Length-prefixed frames: a decoder over a sliding, growing buffer, one over a
    byte queue, and the encoder both undo. */
module Codec {
  import opened Common
  import opened Bytes

  const HEADER: nat := 4
  const MAX_FRAME: nat := 0x100_0000

  /** A stream decoded as far as it goes: the values of its complete frames, and
      what is left; or the error the first bad frame gives. */
  datatype Decoded<T> = More(values: seq<T>, rest: seq<byte>) | TooLarge(values: seq<T>) | Malformed(values: seq<T>)

  // ---- numbers ------------------------------------------------------------

  function Be(n: nat, width: nat): (s: seq<byte>)
    ensures |s| == width
  {
    if width == 0 then [] else Be(n / 256, width - 1) + [n % 256]
  }

  function FromBe(s: seq<byte>): nat {
    if s == [] then 0 else 256 * FromBe(s[..|s| - 1]) + s[|s| - 1]
  }

  lemma {:induction false} BeRoundTrip(n: nat, width: nat)
    requires n < Pow256(width)
    ensures FromBe(Be(n, width)) == n
    decreases width
  {
    if width > 0 {
      BeRoundTrip(n / 256, width - 1);
      var s := Be(n, width);
      assert s[..|s| - 1] == Be(n / 256, width - 1);
    }
  }

  /** A length of four bytes, the highest first. */
  function Field(n: nat): (s: seq<byte>)
    ensures |s| == HEADER
  {
    [n / 0x100_0000 % 256, n / 0x1_0000 % 256, n / 0x100 % 256, n % 256]
  }

  lemma LengthIs(n: nat)
    ensures Be(n, HEADER) == Field(n)
  {
    OverAgain(n, 256);
    OverAgain(n, 65536);
    OverAgain(n / 256, 256);
    assert Be(n / 256 / 256 / 256, 1) == [n / 256 / 256 / 256 % 256];
    assert Be(n / 256 / 256, 2) == [n / 256 / 256 / 256 % 256, n / 256 / 256 % 256];
    assert Be(n / 256, 3) == [n / 256 / 256 / 256 % 256, n / 256 / 256 % 256, n / 256 % 256];
  }

  lemma FieldRead(s: seq<byte>)
    requires |s| == HEADER
    ensures FromBe(s) == 0x100_0000 * s[0] as nat + 0x1_0000 * s[1] as nat + 0x100 * s[2] as nat + s[3] as nat
  {
    var a, b, c := s[..1], s[..2], s[..3];
    assert a[..0] == [] && b[..1] == a && c[..2] == b && s[..3] == c;
    assert FromBe(a) == s[0] && FromBe(b) == 256 * FromBe(a) + s[1] && FromBe(c) == 256 * FromBe(b) + s[2];
  }

  // ---- what a stream holds ---------------------------------------------------

  /** What the front of a stream holds. */
  datatype Front<T> = Wait | Oversize | Bad | Frame(value: T, size: nat)

  function FrontOf<T>(parse: seq<byte> -> Option<T>, s: seq<byte>): (f: Front<T>)
    ensures f.Frame? ==> HEADER <= f.size <= |s|
  {
    if |s| < HEADER then Wait
    else
      var length := FromBe(s[..HEADER]);
      if length > MAX_FRAME then Oversize
      else if |s| - HEADER < length then Wait
      else
        var value := parse(s[HEADER..HEADER + length]);
        if value.None? then Bad else Frame(value.value, HEADER + length)
  }

  function Decode<T>(parse: seq<byte> -> Option<T>, s: seq<byte>): Decoded<T>
    decreases |s|
  {
    match FrontOf(parse, s)
    case Wait => More([], s)
    case Oversize => TooLarge([])
    case Bad => Malformed([])
    case Frame(value, size) => Before([value], Decode(parse, s[size..]))
  }

  function Before<T>(values: seq<T>, d: Decoded<T>): Decoded<T> {
    match d
    case More(vs, rest) => More(values + vs, rest)
    case TooLarge(vs) => TooLarge(values + vs)
    case Malformed(vs) => Malformed(values + vs)
  }

  lemma BeforeBefore<T>(a: seq<T>, b: seq<T>, d: Decoded<T>)
    ensures Before(a, Before(b, d)) == Before(a + b, d) && Before([], d) == d
  {
    match d {
      case More(vs, rest) => assert a + (b + vs) == a + b + vs;
      case TooLarge(vs) => assert a + (b + vs) == a + b + vs;
      case Malformed(vs) => assert a + (b + vs) == a + b + vs;
    }
  }

  /** By its bytes: a stream waits for the four of a length, the highest first, then
      for as many more as they say. */
  lemma FrontByBytes<T>(parse: seq<byte> -> Option<T>, a: byte, b: byte, c: byte, d: byte, tail: seq<byte>)
    ensures
      var n := a * 0x100_0000 + b * 0x1_0000 + c * 0x100 + d;
      FrontOf(parse, [a, b, c, d] + tail) ==
        if n > 0x100_0000 then Oversize
        else if |tail| < n then Wait
        else match parse(tail[..n]) case None => Bad case Some(v) => Frame(v, 4 + n)
  {
    hide FromBe;
    var s := [a, b, c, d] + tail;
    assert s[..HEADER] == [a, b, c, d];
    FieldRead([a, b, c, d]);
    var n := a * 0x100_0000 + b * 0x1_0000 + c * 0x100 + d;
    if n <= |tail| {
      assert s[HEADER..HEADER + n] == tail[..n];
    }
  }

  /** More bytes never change a front that is not waiting for them. */
  lemma FrontStays<T>(parse: seq<byte> -> Option<T>, a: seq<byte>, b: seq<byte>)
    ensures !FrontOf(parse, a).Wait? ==> FrontOf(parse, a + b) == FrontOf(parse, a)
  {
    if |a| >= HEADER {
      assert (a + b)[..HEADER] == a[..HEADER];
      var length := FromBe(a[..HEADER]);
      if |a| - HEADER >= length {
        assert (a + b)[HEADER..HEADER + length] == a[HEADER..HEADER + length];
      }
    }
  }

  /** Bytes that arrive later change nothing already decoded: a stream is decoded
      by decoding what is there, and then the rest with what follows. */
  lemma {:induction false} DecodeJoin<T>(parse: seq<byte> -> Option<T>, a: seq<byte>, b: seq<byte>)
    ensures Decode(parse, a).More? ==>
      Decode(parse, a + b) == Before(Decode(parse, a).values, Decode(parse, Decode(parse, a).rest + b))
    ensures !Decode(parse, a).More? ==> Decode(parse, a + b) == Decode(parse, a)
    decreases |a|
  {
    hide FrontOf;
    BeforeBefore([], [], Decode(parse, a + b));
    FrontStays(parse, a, b);
    match FrontOf(parse, a) {
      case Wait =>
      case Oversize =>
      case Bad =>
      case Frame(value, size) =>
        var tail := a[size..];
        assert (a + b)[size..] == tail + b;
        DecodeJoin(parse, tail, b);
        if Decode(parse, tail).More? {
          BeforeBefore([value], Decode(parse, tail).values, Decode(parse, Decode(parse, tail).rest + b));
        }
    }
  }

  function Concat(chunks: seq<seq<byte>>): seq<byte> {
    if chunks == [] then [] else Concat(chunks[..|chunks| - 1]) + chunks[|chunks| - 1]
  }

  lemma TooShort<T>(parse: seq<byte> -> Option<T>, s: seq<byte>)
    requires |s| < HEADER
    ensures FrontOf(parse, s) == Wait
  {
  }

  lemma BeforeNothing<T>(a: seq<T>, rest: seq<byte>)
    ensures Before(a, More([], rest)) == More(a, rest) && Before(a, TooLarge([])) == TooLarge(a)
    ensures Before(a, Malformed([])) == Malformed(a)
  {
    assert a + [] == a;
  }

  lemma SliceSlice<T>(s: seq<T>, a: nat, b: nat, c: nat, d: nat)
    requires a <= b <= |s| && c <= d <= b - a
    ensures s[a..b][c..d] == s[a + c..a + d]
  {
    var x, y := s[a..b][c..d], s[a + c..a + d];
    forall i | 0 <= i < d - c
      ensures x[i] == y[i]
    {
      assert x[i] == s[a..b][c + i] == s[a + c + i];
    }
    assert |x| == |y|;
  }

  // ---- the sliding decoder ------------------------------------------------------

  datatype Pushed<T> = Frames(values: seq<T>) | Oversized | Unreadable

  lemma SliceMoved<T>(s: seq<T>, t: seq<T>, a: nat, n: nat)
    requires n <= |s| && a + n <= |t| && forall k :: 0 <= k < n ==> s[k] == t[a + k]
    ensures s[0..n] == t[a..a + n]
  {
  }

  lemma SlicesMeet<T>(s: seq<T>, a: nat, b: nat, c: nat)
    requires a <= b <= c <= |s|
    ensures s[a..c] == s[a..b] + s[b..c]
  {
  }

  /** A capacity doubled until it is enough. */
  function Doubled(capacity: nat, needed: nat): (enough: nat)
    requires capacity > 0
    ensures enough >= needed
    decreases if needed > capacity then needed - capacity else 0
  {
    if capacity < needed then Doubled(2 * capacity, needed) else capacity
  }

  class FrameDecoder<T> {
    const parse: seq<byte> -> Option<T>
    var buffer: array<byte>
    var start: nat
    var end: nat

    ghost predicate Valid()
      reads this
    {
      start <= end <= buffer.Length
    }

    /** The bytes not yet decoded. */
    ghost function Contents(): seq<byte>
      requires Valid()
      reads this, buffer
    {
      buffer[start..end]
    }

    constructor (parse: seq<byte> -> Option<T>)
      ensures Valid() && Contents() == [] && fresh(buffer) && this.parse == parse
    {
      this.parse, start, end := parse, 0, 0;
      buffer := new byte[0];
    }

    /** Double until it fits. */
    method Capacity(needed: nat) returns (capacity: nat)
      ensures capacity == Doubled(if buffer.Length < 64 then 64 else buffer.Length, needed) >= needed
    {
      capacity := if buffer.Length < 64 then 64 else buffer.Length;
      ghost var least := capacity;
      while capacity < needed
        invariant capacity > 0 && Doubled(capacity, needed) == Doubled(least, needed)
      {
        capacity := capacity * 2;
      }
    }

    /** Make room at the end for a chunk, and copy it in: the buffer grows only where
        it is too short for what it would hold, and is moved to its front only where
        there is no room behind. */
    method Append(chunk: seq<byte>)
      requires Valid()
      modifies this, buffer
      ensures Valid() && Contents() == old(Contents()) + chunk
      ensures buffer == old(buffer) || fresh(buffer)
      ensures
        var needed, length := old(end - start) + |chunk|, old(buffer.Length);
        if |chunk| > 0 && needed > length then
          fresh(buffer) && start == 0 && buffer.Length == Doubled(if length < 64 then 64 else length, needed)
        else
          buffer == old(buffer) && start == if |chunk| > 0 && old(end) + |chunk| > length then 0 else old(start)
    {
      if |chunk| == 0 {
        assert old(Contents()) + chunk == Contents();
        return;
      }
      var used := end - start;
      var needed := used + |chunk|;
      if needed > buffer.Length {
        Grow(needed);
      } else if end + |chunk| > buffer.Length {
        Slide();
      }
      Fill(chunk);
    }

    /** A larger buffer with the contents at its front. */
    method Grow(needed: nat)
      requires Valid() && end - start <= needed
      modifies this
      ensures Valid() && Contents() == old(Contents()) && start == 0 && end == old(end) - old(start)
      ensures fresh(buffer)
      ensures
        buffer.Length == Doubled(if old(buffer.Length) < 64 then 64 else old(buffer.Length), needed) >= needed
    {
      var used := end - start;
      var capacity := Capacity(needed);
      var grown := new byte[capacity](_ => 0);
      for i := 0 to used
        invariant start == old(start) && end == old(end) && buffer == old(buffer) && buffer[..] == old(buffer[..])
        invariant fresh(grown) && grown[..i] == buffer[start..start + i]
      {
        grown[i] := buffer[start + i];
      }
      assert grown[..used] == buffer[start..end];
      buffer, start, end := grown, 0, used;
    }

    /** Move the contents to the front, in place. */
    method Slide()
      requires Valid()
      modifies this, buffer
      ensures Valid() && Contents() == old(Contents()) && start == 0 && end == old(end) - old(start)
      ensures buffer == old(buffer)
    {
      var used := end - start;
      ghost var was := buffer[..];
      for i := 0 to used
        invariant start == old(start) && end == old(end) && buffer == old(buffer)
        invariant |was| == buffer.Length
        invariant forall k :: 0 <= k < i ==> buffer[k] == was[start + k]
        invariant forall k :: i <= k < buffer.Length ==> buffer[k] == was[k]
      {
        buffer[i] := buffer[start + i];
      }
      SliceMoved(buffer[..], was, start, used);
      start, end := 0, used;
    }

    method Fill(chunk: seq<byte>)
      requires Valid() && end + |chunk| <= buffer.Length
      modifies this, buffer
      ensures Valid() && Contents() == old(Contents()) + chunk && buffer == old(buffer) && start == old(start)
    {
      for i := 0 to |chunk|
        invariant start == old(start) && end == old(end) && buffer == old(buffer)
        invariant buffer[start..end] == old(buffer[start..end]) && buffer[end..end + i] == chunk[..i]
      {
        buffer[end + i] := chunk[i];
      }
      SlicesMeet(buffer[..], start, end, end + |chunk|);
      end := end + |chunk|;
    }

    /** Take one frame off the front, if it is all there. */
    method Take() returns (f: Front<T>)
      requires Valid() && end - start >= HEADER
      modifies this`start
      ensures Valid() && f == FrontOf(parse, old(Contents()))
      ensures Contents() == if f.Frame? then old(Contents())[f.size..] else old(Contents())
      ensures f.Frame? ==> start > old(start)
    {
      hide FromBe;
      ghost var now := Contents();
      SliceSlice(buffer[..], start, end, 0, HEADER);
      var length := FromBe(buffer[start..start + HEADER]);
      if length > MAX_FRAME {
        return Oversize;
      }
      if end - start - HEADER < length {
        return Wait;
      }
      var bodyStart := start + HEADER;
      SliceSlice(buffer[..], start, end, HEADER, HEADER + length);
      var value := parse(buffer[bodyStart..bodyStart + length]);
      if value.None? {
        return Bad;
      }
      SliceSlice(buffer[..], start, end, HEADER + length, end - start);
      start := bodyStart + length;
      f := Frame(value.value, HEADER + length);
    }

    /** Take a chunk and give back every frame it completes. */
    method Push(chunk: seq<byte>) returns (r: Pushed<T>)
      requires Valid()
      modifies this, buffer
      ensures Valid() && (buffer == old(buffer) || fresh(buffer))
      ensures
        match Decode(parse, old(Contents()) + chunk)
        case More(values, rest) => r == Frames(values) && Contents() == rest
        case TooLarge(_) => r == Oversized
        case Malformed(_) => r == Unreadable
      ensures r.Frames? && start == end ==> end == 0
    {
      hide Before, FrontOf;
      Append(chunk);
      ghost var all := Contents();
      var frames: seq<T> := [];
      BeforeBefore([], [], Decode(parse, all));
      while end - start >= HEADER
        invariant Valid() && (buffer == old(buffer) || fresh(buffer))
        invariant Decode(parse, all) == Before(frames, Decode(parse, Contents()))
        decreases end - start
      {
        ghost var now := Contents();
        var front := Take();
        BeforeNothing<T>(frames, now);
        match front {
          case Wait =>
            break;
          case Oversize =>
            return Oversized;
          case Bad =>
            return Unreadable;
          case Frame(value, size) =>
            BeforeBefore(frames, [value], Decode(parse, now[size..]));
            frames := frames + [value];
        }
      }
      if end - start < HEADER {
        TooShort(parse, Contents());
      }
      BeforeNothing<T>(frames, Contents());
      if start == end {
        assert buffer[0..0] == Contents();
        start, end := 0, 0;
      }
      r := Frames(frames);
    }

    /** Whether the stream may end here. */
    method Finish() returns (ok: bool)
      requires Valid()
      ensures ok <==> Contents() == []
    {
      ok := end == start;
    }
  }

  // ---- any chunking -------------------------------------------------------------

  /** A stream pushed chunk by chunk into a fresh decoder. Whatever the cuts, it
      gives the frames of the whole stream and keeps its remainder, or fails. */
  method PushAll<T>(parse: seq<byte> -> Option<T>, chunks: seq<seq<byte>>) returns (r: Pushed<T>, pending: seq<byte>)
    ensures Decode(parse, Concat(chunks)).More? ==>
      r == Frames(Decode(parse, Concat(chunks)).values) && pending == Decode(parse, Concat(chunks)).rest
    ensures Decode(parse, Concat(chunks)).TooLarge? ==> r == Oversized
    ensures Decode(parse, Concat(chunks)).Malformed? ==> r == Unreadable
  {
    hide Before, FrontOf, Decode, Concat;
    var decoder := new FrameDecoder(parse);
    var frames: seq<T> := [];
    NoChunks<T>(parse);
    assert chunks[..0] == [];
    for i := 0 to |chunks|
      invariant fresh(decoder) && fresh(decoder.buffer) && decoder.Valid() && decoder.parse == parse
      invariant Decode(parse, Concat(chunks[..i])) == More(frames, decoder.Contents())
    {
      OneChunk(parse, chunks, i, frames, decoder.Contents());
      var pushed := decoder.Push(chunks[i]);
      if !pushed.Frames? {
        StillBad(parse, chunks, i + 1);
        return pushed, [];
      }
      frames := frames + pushed.values;
    }
    assert chunks[..|chunks|] == chunks;
    r := Frames(frames);
    pending := decoder.buffer[decoder.start..decoder.end];
  }

  lemma NoChunks<T>(parse: seq<byte> -> Option<T>)
    ensures Concat([]) == [] && Decode(parse, []) == More([], [])
  {
  }

  lemma OneChunk<T>(parse: seq<byte> -> Option<T>, chunks: seq<seq<byte>>, i: nat, frames: seq<T>, rest: seq<byte>)
    requires i < |chunks| && Decode(parse, Concat(chunks[..i])) == More(frames, rest)
    ensures
      var before, after := Decode(parse, rest + chunks[i]), Decode(parse, Concat(chunks[..i + 1]));
      match before
      case More(values, left) => after == More(frames + values, left)
      case TooLarge(values) => after == TooLarge(frames + values)
      case Malformed(values) => after == Malformed(frames + values)
  {
    hide FrontOf, Decode;
    assert chunks[..i + 1][..i] == chunks[..i];
    DecodeJoin(parse, Concat(chunks[..i]), chunks[i]);
  }

  lemma {:induction false} StillBad<T>(parse: seq<byte> -> Option<T>, chunks: seq<seq<byte>>, i: nat)
    requires i <= |chunks| && !Decode(parse, Concat(chunks[..i])).More?
    ensures Decode(parse, Concat(chunks)) == Decode(parse, Concat(chunks[..i]))
    decreases |chunks| - i
  {
    hide FrontOf, Decode;
    if i == |chunks| {
      assert chunks[..i] == chunks;
    } else {
      assert chunks[..i + 1][..i] == chunks[..i];
      DecodeJoin(parse, Concat(chunks[..i]), chunks[i]);
      StillBad(parse, chunks, i + 1);
    }
  }

  // ---- the queue decoder ----------------------------------------------------------

  datatype Polled<T> = Ready(value: T) | NotYet | Refused(oversized: bool)

  /** Bytes consumed from the front. */
  class Queue {
    var bytes: seq<byte>

    constructor (bytes: seq<byte>)
      ensures this.bytes == bytes
    {
      this.bytes := bytes;
    }

    /** The next frame, if it is all there. */
    method DecodeOne<T>(parse: seq<byte> -> Option<T>) returns (r: Polled<T>)
      modifies this
      ensures
        match FrontOf(parse, old(bytes))
        case Wait => r == NotYet && bytes == old(bytes)
        case Oversize => r == Refused(true) && bytes == old(bytes)
        case Bad => r == Refused(false) && bytes == old(bytes)[HEADER + FromBe(old(bytes)[..HEADER])..]
        case Frame(value, size) => r == Ready(value) && bytes == old(bytes)[size..]
    {
      if |bytes| < HEADER {
        return NotYet;
      }
      var length := FromBe(bytes[..HEADER]);
      if length > MAX_FRAME {
        return Refused(true);
      }
      if |bytes| < HEADER + length {
        return NotYet;
      }
      ghost var was := bytes;
      bytes := bytes[HEADER..];
      var body := bytes[..length];
      assert body == was[HEADER..HEADER + length] && bytes[length..] == was[HEADER + length..];
      bytes := bytes[length..];
      var value := parse(body);
      if value.None? {
        return Refused(false);
      }
      r := Ready(value.value);
    }

    /** Add one frame to the end, unless it is too long. */
    method Encode<T>(stringify: T -> seq<byte>, value: T) returns (ok: bool)
      modifies this
      ensures ok <==> |stringify(value)| <= MAX_FRAME
      ensures bytes ==
        if ok then old(bytes) + (Field(|stringify(value)|) + stringify(value)) else old(bytes)
    {
      var body := stringify(value);
      if |body| > MAX_FRAME {
        return false;
      }
      LengthIs(|body|);
      ghost var was := bytes;
      bytes := bytes + Be(|body|, HEADER);
      bytes := bytes + body;
      assert bytes == was + (Be(|body|, HEADER) + body);
      ok := true;
    }

    /** Decode until a frame is missing: the same frames, the same remainder and the
        same errors as the sliding decoder. */
    method Drain<T>(parse: seq<byte> -> Option<T>) returns (r: Pushed<T>)
      modifies this
      ensures
        match Decode(parse, old(bytes))
        case More(values, rest) => r == Frames(values) && bytes == rest
        case TooLarge(_) => r == Oversized
        case Malformed(_) => r == Unreadable
    {
      hide Before, FrontOf;
      var frames: seq<T> := [];
      BeforeBefore([], [], Decode(parse, bytes));
      while true
        invariant Decode(parse, old(bytes)) == Before(frames, Decode(parse, bytes))
        decreases |bytes|
      {
        ghost var now := bytes;
        var polled := DecodeOne(parse);
        BeforeNothing<T>(frames, now);
        match polled {
          case NotYet =>
            return Frames(frames);
          case Refused(oversized) =>
            return if oversized then Oversized else Unreadable;
          case Ready(value) =>
            ghost var size := FrontOf(parse, now).size;
            BeforeBefore(frames, [value], Decode(parse, now[size..]));
            frames := frames + [value];
        }
      }
    }
  }

  // ---- the encoder --------------------------------------------------------------

  /** One frame of a value, unless it is longer than the caller's limit. */
  method EncodeFrame<T>(stringify: T -> seq<byte>, value: T, maxFrame: nat) returns (ok: bool, frame: array<byte>)
    ensures ok <==> |stringify(value)| <= maxFrame
    ensures ok ==> frame[..] == Field(|stringify(value)|) + stringify(value)
  {
    var body := stringify(value);
    if |body| > maxFrame {
      frame := new byte[0];
      return false, frame;
    }
    frame := new byte[HEADER + |body|](_ => 0);
    var header := Be(|body|, HEADER);
    LengthIs(|body|);
    for i := 0 to HEADER
      invariant frame[..i] == header[..i]
    {
      frame[i] := header[i];
    }
    for i := 0 to |body|
      invariant frame[..HEADER] == header && frame[HEADER..HEADER + i] == body[..i]
    {
      frame[HEADER + i] := body[i];
    }
    assert frame[..] == frame[..HEADER] + frame[HEADER..HEADER + |body|];
    ok := true;
  }

  /** The length field has four bytes, whatever the body's length. */
  lemma LengthRead(n: nat)
    ensures FromBe(Be(n, HEADER)) == n % 0x1_0000_0000
  {
    hide Be, FromBe;
    LastByte(n, 4);
    LastByte(n / 256, 3);
    LastByte(n / 256 / 256, 2);
    LastByte(n / 256 / 256 / 256, 1);
    NoBytes(n / 256 / 256 / 256 / 256);
    Digits(n);
  }

  lemma Digits(n: nat)
    ensures 256 * (256 * (256 * (n / 256 / 256 / 256 % 256) + n / 256 / 256 % 256) + n / 256 % 256) + n % 256 ==
      n % 0x1_0000_0000
  {
    var p, q, r := n / 256, n / 256 / 256, n / 256 / 256 / 256;
    var low := 256 * (256 * (256 * (r % 256) + q % 256) + p % 256) + n % 256;
    assert q == 256 * r + q % 256 && p == 256 * q + p % 256;
    LowDigits(n, r / 256, low);
  }

  lemma LowDigits(n: nat, high: nat, low: nat)
    requires n == 0x1_0000_0000 * high + low && low < 0x1_0000_0000
    ensures n % 0x1_0000_0000 == low
  {
  }

  lemma NoBytes(n: nat)
    ensures FromBe(Be(n, 0)) == 0
  {
  }

  lemma LastByte(n: nat, width: nat)
    requires width > 0
    ensures FromBe(Be(n, width)) == 256 * FromBe(Be(n / 256, width - 1)) + n % 256
  {
    var s := Be(n, width);
    assert s[..|s| - 1] == Be(n / 256, width - 1);
  }

  /** A decoder takes a frame for oversized exactly when the four bytes of its
      length say so, and gives a body that fits back as it was. A limit above the
      decoder's own lets frames be made that no decoder takes, or takes short. */
  lemma FrameTaken<T>(parse: seq<byte> -> Option<T>, body: seq<byte>, rest: seq<byte>)
    ensures
      var front, length := FrontOf(parse, FrameOf(body) + rest), |body| % 0x1_0000_0000;
      && (front == Oversize <==> length > MAX_FRAME)
      && (length <= MAX_FRAME ==>
          front == match parse(body[..length]) case None => Bad case Some(v) => Frame(v, HEADER + length))
      && (|body| <= MAX_FRAME ==> length == |body| && body[..length] == body)
  {
    hide FromBe, Be;
    LengthRead(|body|);
    LengthIs(|body|);
    var s, length := FrameOf(body) + rest, |body| % 0x1_0000_0000;
    assert s[..HEADER] == Be(|body|, HEADER);
    assert s[HEADER..HEADER + length] == body[..length];
  }

  function FrameOf(body: seq<byte>): seq<byte> {
    Field(|body|) + body
  }

  function Stream<T>(stringify: T -> seq<byte>, values: seq<T>): seq<byte> {
    if values == [] then [] else FrameOf(stringify(values[0])) + Stream(stringify, values[1..])
  }

  /** A stream of encoded values decodes to those values, whatever incomplete frame
      follows. */
  lemma {:induction false} DecodeInvertsEncode<T>(parse: seq<byte> -> Option<T>, stringify: T -> seq<byte>,
          values: seq<T>, tail: seq<byte>)
    requires forall v :: v in values ==> |stringify(v)| <= MAX_FRAME && parse(stringify(v)) == Some(v)
    requires FrontOf(parse, tail) == Wait
    ensures Decode(parse, Stream(stringify, values) + tail) == More(values, tail)
    decreases |values|
  {
    hide FrontOf, FrameOf, Stream, Decode;
    NoFrames(parse, stringify, tail);
    if values != [] {
      var body, rest := stringify(values[0]), Stream(stringify, values[1..]) + tail;
      assert values[0] in values;
      FrontOfFrame(parse, body, rest, values[0]);
      DecodeInvertsEncode(parse, stringify, values[1..], tail);
      StreamHead(stringify, values, tail);
      DecodeFrame(parse, FrameOf(body), rest, values[0]);
      assert values == [values[0]] + values[1..];
    } else {
      assert values == [];
    }
  }

  lemma NoFrames<T>(parse: seq<byte> -> Option<T>, stringify: T -> seq<byte>, tail: seq<byte>)
    requires FrontOf(parse, tail) == Wait
    ensures Decode(parse, Stream(stringify, []) + tail) == More([], tail)
  {
    hide FrontOf;
    assert Stream(stringify, []) + tail == tail;
  }

  lemma StreamHead<T>(stringify: T -> seq<byte>, values: seq<T>, tail: seq<byte>)
    requires values != []
    ensures Stream(stringify, values) + tail ==
      FrameOf(stringify(values[0])) + (Stream(stringify, values[1..]) + tail)
  {
    hide FrameOf;
    Reassociate(FrameOf(stringify(values[0])), Stream(stringify, values[1..]), tail);
  }

  lemma DecodeFrame<T>(parse: seq<byte> -> Option<T>, frame: seq<byte>, rest: seq<byte>, value: T)
    requires FrontOf(parse, frame + rest) == Frame(value, |frame|)
    ensures Decode(parse, frame + rest) == Before([value], Decode(parse, rest))
  {
    hide FrontOf;
    assert (frame + rest)[|frame|..] == rest;
  }

  lemma FrontOfFrame<T>(parse: seq<byte> -> Option<T>, body: seq<byte>, rest: seq<byte>, value: T)
    requires |body| <= MAX_FRAME && parse(body) == Some(value)
    ensures FrontOf(parse, FrameOf(body) + rest) == Frame(value, HEADER + |body|)
    ensures |FrameOf(body)| == HEADER + |body|
  {
    var s := FrameOf(body) + rest;
    Pow256Values();
    BeRoundTrip(|body|, HEADER);
    LengthIs(|body|);
    assert s[..HEADER] == Be(|body|, HEADER);
    assert s[HEADER..HEADER + |body|] == body;
  }
}
