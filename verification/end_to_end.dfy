/** What a stream pushes is what a follower relies on: a mirror fed by a stream
    never falls behind it. */
module EndToEnd {
  import opened Common
  import opened Logs
  import opened Followers
  import Rings
  import Streams

  function Translated<P>(es: seq<Rings.Entry<P>>): seq<Record<P>> {
    seq(|es|, i requires 0 <= i < |es| => Record(es[i].version, es[i].patch))
  }

  function FrameOf<S, P>(f: Streams.Frame<P>): Frame<S, P> {
    match f
    case Records(es) => Batch(Translated(es))
    case Gapped(from, to) => Hole(from, to)
  }

  /** Where a stream stood before its last frame. */
  function Before<P>(f: Streams.Frame<P>, cursor: nat): nat {
    match f
    case Records(es) => if |es| <= cursor then cursor - |es| else 0
    case Gapped(from, _) => from
  }

  /** Where a stream that stands at `cursor` stood after its first `k` frames. */
  function StoodAt<P>(out: seq<Streams.Frame<P>>, cursor: nat, k: nat): nat
    requires k <= |out|
    decreases |out|
  {
    if k == |out| then cursor else StoodAt(Init(out), Before(Last(out), cursor), k)
  }

  /** Each beginning of what tiles an interval tiles a beginning of it, and each
      frame starts where the ones before it end. */
  lemma {:induction false} TilesUpTo<P>(out: seq<Streams.Frame<P>>, from: nat, cursor: nat, patches: seq<P>, floor: nat,
          k: nat)
    requires Streams.Tiles(out, from, cursor, patches, floor) && k <= |out|
    ensures Streams.Tiles(out[..k], from, StoodAt(out, cursor, k), patches, floor)
    ensures StoodAt(out, cursor, 0) == from
    ensures k < |out| ==> Before(out[k], StoodAt(out, cursor, k + 1)) == StoodAt(out, cursor, k)
    decreases |out|
  {
    if k == |out| {
      assert out[..k] == out;
    }
    if out != [] {
      var lower := Before(Last(out), cursor);
      assert Streams.Tiles(Init(out), from, lower, patches, floor);
      TilesUpTo(Init(out), from, lower, patches, floor, if k < |out| then k else |out| - 1);
      if k < |out| {
        assert Init(out)[..k] == out[..k];
        if k + 1 < |out| {
          assert Init(out)[k] == out[k];
        }
      }
    }
  }

  /** The last frame of a tiling is the log's own records just above where it
      starts, or a gap up to where it ends. */
  lemma LastTile<P>(out: seq<Streams.Frame<P>>, from: nat, cursor: nat, patches: seq<P>, floor: nat)
    requires out != [] && Streams.Tiles(out, from, cursor, patches, floor)
    ensures
      match Last(out)
      case Records(es) =>
        var below := Before(Last(out), cursor);
        && cursor == below + |es| && cursor <= |patches|
        && forall i :: 0 <= i < |es| ==> Translated(es)[i] == Record(below + 1 + i, patches[below + i])
      case Gapped(g, to) => g < to == cursor < floor
  {
  }

  /** What a stream pushes last is fair to a follower that stands at or above where
      the stream stood before it, and on a plain log exactly there; and taking it
      brings such a follower to where the stream stands. */
  lemma FrameIsFair<S, P>(t: Task<S, P>, out: seq<Streams.Frame<P>>, from: nat, cursor: nat, patches: seq<P>,
          floor: nat)
    requires |t.past| == |t.patches| + 1 && patches <= t.patches && floor <= |patches| + 1
    requires out != [] && Streams.Tiles(out, from, cursor, patches, floor)
    requires t.mode == Reducible ==> t.store != null && Before(Last(out), cursor) <= t.cursor
    requires t.mode == Plain ==> Before(Last(out), cursor) == t.cursor
    ensures t.Fair(FrameOf(Last(out)))
    ensures Last(out).Records? ==>
      var records := Translated(Last(out).entries);
      NoJump(records, t.cursor) && Reach(records, t.cursor) == if cursor <= t.cursor then t.cursor else cursor
  {
    hide Streams.Tiles;
    LastTile(out, from, cursor, patches, floor);
    if Last(out).Records? {
      var es, below := Last(out).entries, Before(Last(out), cursor);
      forall i | 0 <= i < |es|
        ensures IsRecord(Translated(es)[i], t.patches)
      {
      }
      StretchReaches(Translated(es), t.cursor, below);
    }
  }

  /** How a follower stands to the stream it reads. */
  predicate KeepsUp(mode: Mode, cursor: nat, stood: nat) {
    if mode == Plain then cursor == stood else stood <= cursor
  }

  /** All a stream sends: its view, if it opened with one, then what it pushed. */
  function Sent<S, P>(viewed: Option<nat>, out: seq<Streams.Frame<P>>, past: seq<S>): seq<Frame<S, P>>
    requires viewed.Some? ==> viewed.value < |past|
  {
    (if viewed.Some? then [Preamble(View(viewed.value, past[viewed.value]))] else []) +
      seq(|out|, i requires 0 <= i < |out| => FrameOf(out[i]))
  }

  /** What a follower makes of the first of some frames, until one ends it. */
  function HeardTo<S, P>(m: Mirror<S, P>, past: seq<S>, frames: seq<Frame<S, P>>, envs: nat -> Meanwhile,
          n: nat): (Mirror<S, P>, Option<Step>)
    requires n <= |frames|
  {
    if n == 0 then (m, None)
    else
      var before := HeardTo(m, past, frames, envs, n - 1);
      if before.1.Some? then before else Heard(before.0, past, frames[n - 1], envs(n - 1))
  }

  lemma {:induction false} EndedStays<S, P>(m: Mirror<S, P>, past: seq<S>, frames: seq<Frame<S, P>>,
          envs: nat -> Meanwhile, i: nat, n: nat)
    requires i <= n <= |frames| && HeardTo(m, past, frames, envs, i).1.Some?
    ensures HeardTo(m, past, frames, envs, n) == HeardTo(m, past, frames, envs, i)
    decreases n
  {
    hide Heard;
    if i < n {
      EndedStays(m, past, frames, envs, i, n - 1);
    }
  }

  lemma HeardNone<S, P>(m: Mirror<S, P>, past: seq<S>, frames: seq<Frame<S, P>>, envs: nat -> Meanwhile)
    ensures HeardTo(m, past, frames, envs, 0) == (m, None)
  {
  }

  lemma HeardNext<S, P>(m: Mirror<S, P>, past: seq<S>, frames: seq<Frame<S, P>>, envs: nat -> Meanwhile, n: nat)
    requires n < |frames| && HeardTo(m, past, frames, envs, n).1.None?
    ensures HeardTo(m, past, frames, envs, n + 1) ==
      Heard(HeardTo(m, past, frames, envs, n).0, past, frames[n], envs(n))
  {
  }

  /** Feed a follower the next frame a stream pushed. */
  method Feed<S(==), P(==,!new)>(t: Task<S, P>, stream: Streams.Stream<P>, k: nat, env: Meanwhile)
    returns (r: Option<Step>)
    requires t.Valid() && stream.Valid() && stream.server.patches <= t.patches && k < |stream.out|
    requires (t.mode == Reducible ==> t.store != null)
    requires KeepsUp(t.mode, t.cursor, StoodAt(stream.out, stream.cursor, k))
    modifies t, t.store
    ensures t.Valid() && t.mode == old(t.mode) && (t.store == old(t.store) || fresh(t.store))
    ensures t.mode == Reducible ==> t.store != null
    ensures (t.Snap(), r) == Heard(old(t.Snap()), t.past, FrameOf(stream.out[k]), env)
    ensures r.None? ==> KeepsUp(t.mode, t.cursor, StoodAt(stream.out, stream.cursor, k + 1))
    ensures r.Some? ==> t.mode == Reducible && (r.value == Restart || r.value.Broke?)
  {
    hide Streams.Tiles, Streams.Pushed, StoodAt, Before, NoJump, Reach, News, Task.Valid, Task.Snap, Heard, AllRoom,
      OwedAs;
    Bounds(t);
    ghost var patches, floor := stream.server.patches, stream.server.floor;
    ghost var upTo, stood := stream.out[..k + 1], StoodAt(stream.out, stream.cursor, k + 1);
    TilesUpTo(stream.out, stream.start, stream.cursor, patches, floor, k);
    TilesUpTo(stream.out, stream.start, stream.cursor, patches, floor, k + 1);
    assert Last(upTo) == stream.out[k];
    FrameIsFair(t, upTo, stream.start, stood, patches, floor);
    LastTile(upTo, stream.start, stood, patches, floor);
    r := t.Take(FrameOf(stream.out[k]), env);
  }

  /** Feed a follower everything one stream sends, in order, however everyone else
      behaves meanwhile. Every frame is one the follower assumes, none is passed over,
      and unless a view cannot be read for a gap the follower ends at or above where
      the stream stands, on a plain log exactly there. */
  method Follow<S(==), P(==,!new)>(t: Task<S, P>, stream: Streams.Stream<P>, envs: nat -> Meanwhile)
    returns (r: Option<Step>)
    requires t.Valid() && stream.Valid() && stream.server.patches <= t.patches
    requires stream.from == t.cursor && (stream.viewed.Some? <==> t.mode == Reducible)
    requires stream.viewed.Some? ==> t.cursor <= stream.viewed.value
    modifies t, t.store
    ensures t.Valid() && t.mode == old(t.mode) && (stream.viewed.Some? ==> stream.viewed.value < |t.past|)
    ensures
      var frames := Sent(stream.viewed, stream.out, t.past);
      (t.Snap(), r) == HeardTo(old(t.Snap()), t.past, frames, envs, |frames|)
    ensures r.None? ==> KeepsUp(t.mode, t.cursor, stream.cursor)
    ensures r.Some? ==> t.mode == Reducible && (r.value == Restart || r.value.Broke?)
  {
    hide Streams.Tiles, Streams.Pushed, StoodAt, Before, NoJump, Reach, News, Task.Valid, HeardTo, Heard, AllRoom,
      OwedAs;
    Bounds(t);
    ghost var patches, floor, was := stream.server.patches, stream.server.floor, t.Snap();
    ghost var frames := Sent(stream.viewed, stream.out, t.past);
    TilesUpTo(stream.out, stream.start, stream.cursor, patches, floor, 0);
    HeardNone(was, t.past, frames, envs);
    var first := 0;
    if stream.viewed.Some? {
      HeardNext(was, t.past, frames, envs, 0);
      var at := stream.viewed.value;
      var _ := t.Take(Preamble(View(at, t.past[at])), envs(0));
      first := 1;
    }
    for k := 0 to |stream.out|
      invariant t.Valid() && t.mode == old(t.mode) && (t.store == old(t.store) || fresh(t.store))
      invariant t.mode == Reducible ==> t.store != null
      invariant KeepsUp(t.mode, t.cursor, StoodAt(stream.out, stream.cursor, k))
      invariant (t.Snap(), None) == HeardTo(was, t.past, frames, envs, first + k)
    {
      HeardNext(was, t.past, frames, envs, first + k);
      r := Feed(t, stream, k, envs(first + k));
      if r.Some? {
        EndedStays(was, t.past, frames, envs, first + k + 1, |frames|);
        return;
      }
    }
    StoodLast(stream.out, stream.cursor);
    r := None;
  }

  lemma Bounds<S, P>(t: Task<S, P>)
    requires t.Valid()
    ensures |t.past| == |t.patches| + 1 && t.cursor <= |t.patches| && (t.mode == Plain ==> t.store == null)
  {
    hide Truthful, Counted, History;
    HistoryBounds(t.fold, t.past, t.patches);
  }

  lemma StoodLast<P>(out: seq<Streams.Frame<P>>, cursor: nat)
    ensures StoodAt(out, cursor, |out|) == cursor
  {
  }
}
