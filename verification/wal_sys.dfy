/** Files, partial writes and power cuts. */
module Sys {
  import opened Common
  import opened Bytes

  /** A file as the kernel shows it, and for each byte every value it has held
      since the last flush. A power cut may leave any of those. */
  datatype Image = Image(bytes: seq<byte>, past: seq<set<byte>>)

  ghost predicate WellFormed(f: Image) {
    && |f.past| == |f.bytes|
    && forall i :: 0 <= i < |f.bytes| ==> f.bytes[i] in f.past[i]
  }

  function Write(f: Image, at: nat, data: seq<byte>): (g: Image)
    requires |f.past| == |f.bytes| && at + |data| <= |f.bytes|
    ensures |g.bytes| == |g.past| == |f.bytes|
    ensures forall i :: 0 <= i < |g.bytes| ==>
      g.bytes[i] == if at <= i < at + |data| then data[i - at] else f.bytes[i]
    ensures forall i :: 0 <= i < |g.bytes| ==>
      g.past[i] == if at <= i < at + |data| then f.past[i] + {data[i - at]} else f.past[i]
  {
    Image(f.bytes[..at] + data + f.bytes[at + |data|..],
          f.past[..at] + seq(|data|, i requires 0 <= i < |data| => f.past[at + i] + {data[i]}) + f.past[at + |data|..])
  }

  /** A flush leaves each byte with one possible value. */
  function Flush(f: Image): (g: Image)
    ensures g.bytes == f.bytes && |g.past| == |f.bytes|
    ensures forall i :: 0 <= i < |g.bytes| ==> g.past[i] == {g.bytes[i]}
  {
    Image(f.bytes, seq(|f.bytes|, i requires 0 <= i < |f.bytes| => {f.bytes[i]}))
  }

  /** Setting the length cuts, or extends with zeros. */
  function SetLen(f: Image, len: nat): (g: Image)
    requires |f.past| == |f.bytes|
    ensures |g.bytes| == |g.past| == len
    ensures forall i :: 0 <= i < len ==> g.bytes[i] == if i < |f.bytes| then f.bytes[i] else 0
    ensures forall i :: 0 <= i < len ==> g.past[i] == if i < |f.bytes| then f.past[i] else {0}
  {
    if len <= |f.bytes| then Image(f.bytes[..len], f.past[..len])
    else Image(f.bytes + Zeros(len - |f.bytes|), f.past + seq(len - |f.bytes|, _ => {0}))
  }

  /** What a power cut can leave of a file. */
  ghost predicate Survives(f: Image, b: seq<byte>) {
    && |b| == |f.bytes| == |f.past|
    && forall i :: 0 <= i < |b| ==> b[i] in f.past[i]
  }

  /** The files a power cut leaves, nothing about them in doubt any more. */
  function Settled(left: map<nat, seq<byte>>): map<nat, Image> {
    map n | n in left :: Flush(Image(left[n], []))
  }

  lemma WriteJoin(f: Image, at: nat, a: seq<byte>, b: seq<byte>)
    requires |f.past| == |f.bytes| && at + |a| + |b| <= |f.bytes|
    ensures Write(Write(f, at, a), at + |a|, b) == Write(f, at, a + b)
  {
    hide Write;
    var g, h := Write(Write(f, at, a), at + |a|, b), Write(f, at, a + b);
    assert g.bytes == h.bytes;
    assert g.past == h.past;
  }

  lemma WriteNothing(f: Image, at: nat)
    requires |f.past| == |f.bytes| && at <= |f.bytes|
    ensures Write(f, at, []) == f
  {
    hide Write;
    assert Write(f, at, []).bytes == f.bytes;
    assert Write(f, at, []).past == f.past;
  }

  // ---- buffers --------------------------------------------------------

  function Flat(bufs: seq<seq<byte>>): (s: seq<byte>)
    ensures bufs == [] ==> s == []
  {
    if bufs == [] then [] else bufs[0] + Flat(bufs[1..])
  }

  /** Drop the first `n` bytes, and every buffer they use up. */
  function Advance(bufs: seq<seq<byte>>, n: nat): seq<seq<byte>> {
    if bufs == [] then []
    else if n >= |bufs[0]| then Advance(bufs[1..], n - |bufs[0]|)
    else [bufs[0][n..]] + bufs[1..]
  }

  lemma {:induction false} AdvanceDrops(bufs: seq<seq<byte>>, n: nat)
    requires n <= |Flat(bufs)|
    ensures Flat(Advance(bufs, n)) == Flat(bufs)[n..]
  {
    if bufs != [] {
      if n >= |bufs[0]| {
        AdvanceDrops(bufs[1..], n - |bufs[0]|);
      } else {
        assert ([bufs[0][n..]] + bufs[1..])[1..] == bufs[1..];
      }
    }
  }

  ghost predicate NoneEmpty(bufs: seq<seq<byte>>) {
    forall i :: 0 <= i < |bufs| ==> bufs[i] != []
  }

  lemma {:induction false} AdvanceNoneEmpty(bufs: seq<seq<byte>>, n: nat)
    ensures NoneEmpty(bufs) ==> NoneEmpty(Advance(bufs, n))
  {
    if bufs != [] && n >= |bufs[0]| {
      AdvanceNoneEmpty(bufs[1..], n - |bufs[0]|);
    }
  }

  lemma NonemptyFlat(bufs: seq<seq<byte>>, k: nat)
    requires 0 < k <= |bufs|
    ensures NoneEmpty(bufs) ==> Flat(bufs[..k]) != []
  {
    if NoneEmpty(bufs) {
      assert bufs[..k][0] == bufs[0];
    }
  }

  lemma {:induction false} FlatConcat(a: seq<seq<byte>>, b: seq<seq<byte>>)
    ensures Flat(a + b) == Flat(a) + Flat(b)
  {
    hide Flat;
    if a == [] {
      assert a + b == b;
      FlatNone();
    } else {
      FlatConcat(a[1..], b);
      FlatHead(a);
      FlatHead(a + b);
      assert (a + b)[1..] == a[1..] + b && (a + b)[0] == a[0];
      Reassociate(a[0], Flat(a[1..]), Flat(b));
    }
  }

  lemma FlatNone()
    ensures Flat([]) == []
  {
  }

  lemma FlatHead(bufs: seq<seq<byte>>)
    requires bufs != []
    ensures Flat(bufs) == bufs[0] + Flat(bufs[1..])
  {
  }

  lemma FlatPrefix(bufs: seq<seq<byte>>, k: nat)
    requires k <= |bufs|
    ensures Flat(bufs[..k]) <= Flat(bufs)
  {
    hide Flat;
    assert bufs[..k] + bufs[k..] == bufs;
    FlatConcat(bufs[..k], bufs[k..]);
  }

  /** One call's worth of progress through the bytes still to be written. */
  lemma Progress(was: Image, at: nat, total: seq<byte>, done: nat, left: seq<byte>, offered: seq<byte>, written: nat)
    requires done <= |total| && left == total[done..] && offered <= left && written <= |offered|
    requires |was.past| == |was.bytes| && at + |total| <= |was.bytes|
    ensures done + written <= |total| && left[written..] == total[done + written..]
    ensures Write(Write(was, at, total[..done]), at + done, offered[..written]) ==
      Write(was, at, total[..done + written])
  {
    hide Write;
    WriteJoin(was, at, total[..done], offered[..written]);
    assert total[..done] + offered[..written] == total[..done + written];
  }

  // ---- the disk -------------------------------------------------------

  /** What one write call does: takes up to `n` bytes, is interrupted, or fails. */
  datatype Fault = Take(n: nat) | Interrupted | Broken

  /** One write that stops short, then an error. */
  ghost predicate BreaksOff(schedule: seq<Fault>, total: nat) {
    |schedule| == 2 && schedule[0].Take? && schedule[0].n < total && schedule[1].Broken?
  }

  const IOV_MAX: nat := 1024
  const ZERO_CHUNK: nat := 0x1_0000

  /** How writing some buffers goes: whether all of them land, which faults are left,
      and how many bytes land. Each call is offered 1024 buffers at most; one that is
      interrupted is made again, one that takes less is followed by another from there,
      and one that takes nothing is an error like any other. */
  datatype Going = Going(ok: bool, rest: seq<Fault>, done: nat)

  ghost function Goes(bufs: seq<seq<byte>>, faults: seq<Fault>): Going
    decreases |faults|, |Flat(bufs)|
  {
    if bufs == [] then Going(true, faults, 0)
    else
      var offered := |Flat(Offered(bufs))|;
      OfferedLess(bufs);
      if faults == [] then GoesOn(bufs, [], offered)
      else
        match faults[0]
        case Interrupted => Goes(bufs, faults[1..])
        case Broken => Going(false, faults[1..], 0)
        case Take(n) => GoesOn(bufs, faults[1..], if n < offered then n else offered)
  }

  ghost function GoesOn(bufs: seq<seq<byte>>, faults: seq<Fault>, written: nat): Going
    requires written <= |Flat(bufs)|
    decreases |faults|, |Flat(bufs)|, 0
  {
    if written == 0 then Going(false, faults, 0)
    else
      AdvanceDrops(bufs, written);
      var next := Goes(Advance(bufs, written), faults);
      next.(done := written + next.done)
  }

  function Offered(bufs: seq<seq<byte>>): seq<seq<byte>> {
    bufs[..if |bufs| < IOV_MAX then |bufs| else IOV_MAX]
  }

  lemma OfferedLess(bufs: seq<seq<byte>>)
    ensures Flat(Offered(bufs)) <= Flat(bufs)
  {
    FlatPrefix(bufs, |Offered(bufs)|);
  }

  /** One call of it. */
  lemma GoesStep(bufs: seq<seq<byte>>, faults: seq<Fault>)
    requires bufs != []
    ensures Flat(Offered(bufs)) <= Flat(bufs)
    ensures faults != [] && faults[0].Interrupted? ==> Goes(bufs, faults) == Goes(bufs, faults[1..])
    ensures faults != [] && faults[0].Broken? ==> Goes(bufs, faults) == Going(false, faults[1..], 0)
    ensures faults == [] || faults[0].Take? ==>
      var offered, rest := |Flat(Offered(bufs))|, if faults == [] then [] else faults[1..];
      var written := if faults == [] || faults[0].n >= offered then offered else faults[0].n;
      if written == 0 then Goes(bufs, faults) == Going(false, rest, 0)
      else
        var next := Goes(Advance(bufs, written), rest);
        Goes(bufs, faults) == next.(done := written + next.done)
  {
    hide Flat, Advance;
    OfferedLess(bufs);
  }

  lemma GoesNothing(faults: seq<Fault>)
    ensures Goes([], faults) == Going(true, faults, 0)
  {
  }

  /** Without a fault, with one at once, and with one after a short write. */
  lemma GoesBy(bufs: seq<seq<byte>>, faults: seq<Fault>)
    ensures faults == [] ==> Goes(bufs, []).rest == [] && (NoneEmpty(bufs) ==> Goes(bufs, []).ok)
    ensures faults != [] && faults[0].Broken? && bufs != [] ==> !Goes(bufs, faults).ok && Goes(bufs, faults).done == 0
    ensures BreaksOff(faults, |Flat(bufs)|) && |bufs| <= IOV_MAX ==>
      !Goes(bufs, faults).ok && Goes(bufs, faults).done == faults[0].n
  {
    hide Flat, Advance, Goes;
    NoFault(bufs);
    if faults == [] && NoneEmpty(bufs) {
      FineGoes(bufs, []);
    }
    if bufs != [] {
      GoesStep(bufs, faults);
    }
    if BreaksOff(faults, |Flat(bufs)|) && |bufs| <= IOV_MAX {
      FlatNone();
      assert bufs != [] && Offered(bufs) == bufs && faults[1..] == [Broken];
      if faults[0].n > 0 {
        AdvanceDrops(bufs, faults[0].n);
        GoesStep(Advance(bufs, faults[0].n), [Broken]);
      }
    }
  }

  lemma {:induction false} NoFault(bufs: seq<seq<byte>>)
    ensures Goes(bufs, []).rest == []
    decreases |Flat(bufs)|
  {
    hide Flat, Advance;
    if bufs != [] {
      GoesStep(bufs, []);
      if |Flat(Offered(bufs))| > 0 {
        AdvanceDrops(bufs, |Flat(Offered(bufs))|);
        NoFault(Advance(bufs, |Flat(Offered(bufs))|));
      }
    }
  }

  /** How zeroing a range goes, 64 KiB at a time. */
  ghost function GoesZero(len: nat, faults: seq<Fault>): (bool, nat)
    decreases len
  {
    if len == 0 then (true, 0)
    else
      var span := if len < ZERO_CHUNK then len else ZERO_CHUNK;
      var went := Goes([Zeros(span)], faults);
      if !went.ok then (false, went.done)
      else
        var next := GoesZero(len - span, went.rest);
        (next.0, span + next.1)
  }

  lemma GoesZeroStep(len: nat, faults: seq<Fault>)
    ensures len == 0 ==> GoesZero(len, faults) == (true, 0)
    ensures len > 0 ==>
      var span := if len < ZERO_CHUNK then len else ZERO_CHUNK;
      var went := Goes([Zeros(span)], faults);
      var next := GoesZero(len - span, went.rest);
      GoesZero(len, faults) == if !went.ok then (false, went.done) else (next.0, span + next.1)
  {
    hide Goes;
  }

  lemma {:induction false} GoesZeroBy(len: nat, faults: seq<Fault>)
    ensures faults == [] ==> GoesZero(len, faults).0
    ensures faults != [] && faults[0].Broken? && len > 0 ==> GoesZero(len, faults) == (false, 0)
    decreases len
  {
    hide Goes, GoesZero;
    GoesZeroStep(len, faults);
    if len > 0 {
      var span := if len < ZERO_CHUNK then len else ZERO_CHUNK;
      GoesBy([Zeros(span)], faults);
      if faults == [] {
        GoesZeroBy(len - span, []);
      }
    }
  }

  /** No call fails or takes nothing. */
  ghost predicate Fine(faults: seq<Fault>) {
    forall i :: 0 <= i < |faults| ==> faults[i].Interrupted? || (faults[i].Take? && faults[i].n > 0)
  }

  lemma {:induction false} FineZero(len: nat, faults: seq<Fault>)
    requires Fine(faults)
    ensures GoesZero(len, faults).0
    decreases len
  {
    hide Goes, Fine;
    if len > 0 {
      var span := if len < ZERO_CHUNK then len else ZERO_CHUNK;
      assert NoneEmpty([Zeros(span)]);
      FineGoes([Zeros(span)], faults);
      FineZero(len - span, Goes([Zeros(span)], faults).rest);
    }
  }

  /** Then everything lands. */
  lemma {:induction false} FineGoes(bufs: seq<seq<byte>>, faults: seq<Fault>)
    requires NoneEmpty(bufs) && Fine(faults)
    ensures Goes(bufs, faults).ok && Fine(Goes(bufs, faults).rest)
    decreases |faults|, |Flat(bufs)|
  {
    hide Flat, Advance;
    if bufs != [] {
      OfferedLess(bufs);
      NonemptyFlat(bufs, |Offered(bufs)|);
      var offered := |Flat(Offered(bufs))|;
      if faults != [] && faults[0].Interrupted? {
        FineGoes(bufs, faults[1..]);
      } else {
        var written := if faults == [] || faults[0].n >= offered then offered else faults[0].n;
        AdvanceDrops(bufs, written);
        AdvanceNoneEmpty(bufs, written);
        FineGoes(Advance(bufs, written), if faults == [] then [] else faults[1..]);
      }
    }
  }

  /** A log directory: segment files by the version they are named for, and the
      version in the header file. Naming, renaming and removing are atomic. */
  class Disk {
    var files: map<nat, Image>
    var header: Option<nat>

    constructor ()
      ensures files == map[] && header == None
    {
      files := map[];
      header := None;
    }

    /** Every buffer at `at`, whatever the calls underneath do. On failure some
        prefix of the bytes has landed and nothing else moved. */
    method PwritevAll(name: nat, buffers: seq<seq<byte>>, at: nat, schedule: seq<Fault>)
      returns (ok: bool, rest: seq<Fault>, done: nat)
      requires name in files && |files[name].past| == |files[name].bytes|
      requires at + |Flat(buffers)| <= |files[name].bytes|
      modifies this`files
      ensures done <= |Flat(buffers)| && (ok ==> done == |Flat(buffers)|)
      ensures Going(ok, rest, done) == Goes(buffers, schedule)
      ensures files == old(files)[name := Write(old(files[name]), at, Flat(buffers)[..done])]
      ensures schedule == [] ==> rest == [] && (NoneEmpty(buffers) ==> ok)
      ensures schedule != [] && schedule[0].Broken? && buffers != [] ==> !ok && done == 0
      ensures BreaksOff(schedule, |Flat(buffers)|) && |buffers| <= IOV_MAX ==> !ok && done == schedule[0].n
    {
      hide Write, Flat, Advance, Goes, Offered, BreaksOff, NoneEmpty;
      var bufs, faults, offset := buffers, schedule, at;
      done := 0;
      ghost var was, total := files[name], Flat(buffers);
      GoesBy(buffers, schedule);
      WriteNothing(was, at);
      assert total[..0] == [];
      while bufs != []
        invariant done <= |total| && offset == at + done
        invariant Flat(bufs) == total[done..]
        invariant |was.past| == |was.bytes| && at + |total| <= |was.bytes|
        invariant var left := Goes(bufs, faults); Goes(buffers, schedule) == left.(done := done + left.done)
        invariant files == old(files)[name := Write(was, at, total[..done])]
        decreases |faults|, |Flat(bufs)|
      {
        GoesStep(bufs, faults);
        var chunk := Offered(bufs);
        var offered := Flat(chunk);
        var written := |offered|;
        if faults != [] {
          var fault := faults[0];
          faults := faults[1..];
          match fault {
            case Interrupted => continue;
            case Broken => return false, faults, done;
            case Take(n) => written := if n < |offered| then n else |offered|;
          }
        }
        if written == 0 {
          return false, faults, done;
        }
        Progress(was, at, total, done, Flat(bufs), offered, written);
        AdvanceDrops(bufs, written);
        files := files[name := Write(files[name], offset, offered[..written])];
        offset := offset + written;
        done := done + written;
        bufs := Advance(bufs, written);
      }
      GoesNothing(faults);
      FlatNone();
      return true, faults, done;
    }

    /** Zeros over a range, in chunks; on failure a prefix of it is zero. */
    method ZeroRange(name: nat, at: nat, len: nat, schedule: seq<Fault>)
      returns (ok: bool, done: nat)
      requires name in files && |files[name].past| == |files[name].bytes|
      requires at + len <= |files[name].bytes|
      modifies this`files
      ensures done <= len && (ok ==> done == len) && (ok, done) == GoesZero(len, schedule)
      ensures files == old(files)[name := Write(old(files[name]), at, Zeros(done))]
      ensures schedule == [] ==> ok
      ensures schedule != [] && schedule[0].Broken? && len > 0 ==> !ok && done == 0
    {
      hide Write, Goes, GoesZero;
      var faults := schedule;
      done := 0;
      ghost var was := files[name];
      GoesZeroBy(len, schedule);
      WriteNothing(was, at);
      while done < len
        invariant done <= len
        invariant var left := GoesZero(len - done, faults); GoesZero(len, schedule) == (left.0, done + left.1)
        invariant files == old(files)[name := Write(was, at, Zeros(done))]
      {
        GoesZeroStep(len - done, faults);
        var span := if len - done < ZERO_CHUNK then len - done else ZERO_CHUNK;
        var zeros := Zeros(span);
        assert Flat([zeros]) == zeros;
        var written;
        ok, faults, written := PwritevAll(name, [zeros], at + done, faults);
        assert Zeros(done) + zeros[..written] == Zeros(done + written);
        WriteJoin(was, at, Zeros(done), zeros[..written]);
        done := done + written;
        if !ok {
          return false, done;
        }
      }
      GoesZeroStep(0, faults);
      return true, done;
    }

    /** A data flush. When it fails, nothing more is promised than before. */
    method Fdatasync(name: nat, works: bool)
      requires name in files
      modifies this`files
      ensures files == if works then old(files)[name := Flush(old(files[name]))] else old(files)
    {
      if works {
        files := files[name := Flush(files[name])];
      }
    }

    method SetFileLen(name: nat, len: nat)
      requires name in files && |files[name].past| == |files[name].bytes|
      modifies this`files
      ensures files == old(files)[name := SetLen(old(files[name]), len)]
    {
      files := files[name := SetLen(files[name], len)];
    }

    /** Reserve `len` bytes, never shrinking the file. */
    method Preallocate(name: nat, len: nat)
      requires name in files && |files[name].past| == |files[name].bytes|
      modifies this`files
      ensures files == if len <= |old(files[name]).bytes| then old(files)
                       else old(files)[name := SetLen(old(files[name]), len)]
    {
      if len > |files[name].bytes| {
        files := files[name := SetLen(files[name], len)];
      }
    }

    /** A new file, preallocated, with its first bytes written and flushed. */
    method Create(name: nat, len: nat, content: seq<byte>)
      requires |content| <= len
      modifies this`files
      ensures files == old(files)[name := Flush(Write(SetLen(Image([], []), len), 0, content))]
    {
      files := files[name := Flush(Write(SetLen(Image([], []), len), 0, content))];
    }

    method Remove(name: nat)
      modifies this`files
      ensures files == old(files) - {name}
    {
      files := files - {name};
    }

    /** The header file is written aside and renamed over the old one. */
    method Publish(version: nat)
      modifies this`header
      ensures header == Some(version)
    {
      header := Some(version);
    }

    /** The machine stops. Each file comes back as one of the things it can be. */
    method PowerCut(outcome: map<nat, seq<byte>>)
      requires outcome.Keys == files.Keys
      requires forall n :: n in files ==> Survives(files[n], outcome[n])
      modifies this`files
      ensures files == Settled(outcome)
    {
      files := Settled(outcome);
    }
  }
}
