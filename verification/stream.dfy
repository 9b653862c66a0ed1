/** Fan-out: one stream's loop over ring, storage and gaps, run against an actor
    that appends, publishes and reclaims at any moment in between. */
module Streams {
  import opened Common
  import opened Actors
  import opened SharedState
  import opened CommandQueue
  import Logs
  import Rings

  const MAX_CREDIT: nat := 0xFFFF_FFFF_FFFF_FFFF

  /** What an actor and a session may do around a stream. */
  datatype Event<P> = Appends(more: seq<P>) | Pushes | Announces | Reclaims(below: nat) | Grants(credit: nat)

  /** What a stream finds around it: what its actor lets it see, and its credit. */
  datatype Around<P> = Around(shared: Shared<P>, granted: nat)

  /** What an event makes of that; an actor appends only at rest, pushes only what is
      new and reclaims only forward. */
  function After<P>(a: Around<P>, e: Event<P>, capacity: nat, size: P -> nat): Around<P> {
    var s := a.shared;
    match e
    case Appends(more) =>
      if AtRest(s) then a.(shared := s.(patches := s.patches + more)) else a
    case Pushes =>
      if s.held < |s.patches| then a.(shared := Handed(s, capacity, size)) else a
    case Announces =>
      a.(shared := s.(published := s.held))
    case Reclaims(below) =>
      if s.floor <= below <= |s.patches| + 1 then a.(shared := s.(floor := below)) else a
    case Grants(more) =>
      a.(granted := if a.granted + more <= MAX_CREDIT then a.granted + more else MAX_CREDIT)
  }

  function Handed<P>(s: Shared<P>, capacity: nat, size: P -> nat): Shared<P>
    requires s.held <= |s.patches|
  {
    s.(held := |s.patches|, ring := Rings.LastOf(s.ring + EntriesOf(s.held, s.patches[s.held..], size), capacity))
  }

  function AfterAll<P>(a: Around<P>, events: seq<Event<P>>, capacity: nat, size: P -> nat): Around<P> {
    if events == [] then a else After(AfterAll(a, Init(events), capacity, size), Last(events), capacity, size)
  }

  lemma AfterNext<P>(a: Around<P>, events: seq<Event<P>>, capacity: nat, size: P -> nat, i: nat)
    requires i < |events|
    ensures AfterAll(a, events[..i + 1], capacity, size) ==
      After(AfterAll(a, events[..i], capacity, size), events[i], capacity, size)
  {
    assert Init(events[..i + 1]) == events[..i] && Last(events[..i + 1]) == events[i];
  }

  /** The parts of a log that its streams can see, and the actor's steps on them,
      each one atomic. */
  class Server<P(==,!new)> {
    const size: P -> nat
    const encoded: P -> nat
    const ring: Rings.Ring<P>
    /** The records written, the ones handed to the ring, the ones announced. */
    var patches: seq<P>
    var held: nat
    var published: nat
    /** The first version the storage can still serve. */
    var floor: nat
    /** Credit given to the stream since it started. */
    var granted: nat

    ghost predicate Valid()
      reads this, ring
    {
      ring.Valid() && granted <= MAX_CREDIT && Sound(Outward(), size)
    }

    /** What an actor lets others see, as its streams see it. */
    ghost function Outward(): Shared<P>
      reads this, ring
    {
      Shared(patches, held, published, floor, ring.entries)
    }

    ghost function Here(): Around<P>
      reads this, ring
    {
      Around(Outward(), granted)
    }

    /** Between two commits the actor has told everything it has written. */
    predicate Rest()
      reads this
    {
      published == held == |patches|
    }

    constructor (patches: seq<P>, capacity: nat, size: P -> nat, encoded: P -> nat, floor: nat, credit: nat)
      requires floor <= |patches| + 1 && credit <= MAX_CREDIT
      ensures Valid() && Rest() && this.patches == patches && this.floor == floor && granted == credit
      ensures fresh(ring) && ring.entries == [] && this.size == size && this.encoded == encoded
    {
      this.patches, this.size, this.encoded, this.floor, granted := patches, size, encoded, floor, credit;
      held, published := |patches|, |patches|;
      ring := new Rings.Ring(capacity);
      new;
      assert patches[..held][|patches|..] == [];
    }

    /** Nothing seen before is taken back. */
    twostate predicate Later()
      reads this, ring
    {
      Onward(old(Outward()), Outward()) && old(granted) <= granted
    }

    /** A run of the actor's steps, and of grants. */
    twostate predicate Ran()
      reads this, ring
    {
      Moves(old(Outward()), Outward(), ring.capacity, size) && old(granted) <= granted
    }

    /** One event, as far as the actor allows it. */
    method Happen(e: Event<P>)
      requires Valid()
      modifies this, ring
      ensures Valid() && Later() && Here() == After(old(Here()), e, ring.capacity, size)
      ensures Step(old(Outward()), Outward(), ring.capacity, size) || Outward() == old(Outward())
    {
      hide RingHolds, FrontOf, Rings.LastOf, EntriesOf;
      match e {
        case Appends(more) =>
          if Rest() {
            assert (patches + more)[..held] == patches[..held];
            patches := patches + more;
          }
        case Pushes =>
          if held < |patches| {
            Push();
          }
        case Announces =>
          published := held;
        case Reclaims(below) =>
          if floor <= below <= |patches| + 1 {
            floor := below;
          }
        case Grants(more) =>
          granted := if granted + more <= MAX_CREDIT then granted + more else MAX_CREDIT;
      }
    }

    method Push()
      requires Valid() && held < |patches|
      modifies this`held, ring
      ensures Valid() && Later() && Outward() == Handed(old(Outward()), ring.capacity, size)
    {
      hide RingHolds, FrontOf, Rings.LastOf, EntriesOf;
      var more := patches[held..];
      RingGrows(ring.entries, patches[..held], more, size, ring.capacity);
      RingFront(ring.entries, patches[..held], more, size, ring.capacity);
      assert patches[..held] + more == patches[..|patches|];
      var entries := Entered(held, more);
      ring.Push(entries);
      held := |patches|;
    }

    method Entered(after: nat, more: seq<P>) returns (entries: seq<Rings.Entry<P>>)
      ensures entries == EntriesOf(after, more, size)
    {
      entries := EntriesOf(after, more, size);
    }

    /** Any events, one after another. */
    method Interfere(events: seq<Event<P>>)
      requires Valid()
      modifies this, ring
      ensures Valid() && Later() && Ran() && Here() == AfterAll(old(Here()), events, ring.capacity, size)
    {
      hide RingHolds, FrontOf, Moves, Onward, Sound, Step, After, Valid;
      ghost var was, before := Here(), Outward();
      MovesSelf(before, ring.capacity, size);
      assert events[..0] == [];
      for i := 0 to |events|
        invariant Valid() && Ran() && Here() == AfterAll(was, events[..i], ring.capacity, size)
      {
        AfterNext(was, events, ring.capacity, size, i);
        ghost var now := Outward();
        SoundNow();
        Happen(events[i]);
        if Outward() == now {
          MovesSelf(now, ring.capacity, size);
        } else {
          MovesOne(now, Outward(), ring.capacity, size);
        }
        MovesJoin(before, now, Outward(), ring.capacity, size);
      }
      assert events[..|events|] == events;
      MovesOnward(before, Outward(), ring.capacity, size);
    }

    lemma SoundNow()
      requires Valid()
      ensures Sound(Outward(), size) && ring.capacity > 0
    {
    }

    /** The actor takes its next command: whatever commit was under way is done. */
    method ComeToRest(events: seq<Event<P>>)
      requires Valid()
      modifies this, ring
      ensures Valid() && Later() && Ran() && Rest()
      ensures Here() == AfterAll(old(Here()), events + [Pushes, Announces], ring.capacity, size)
    {
      hide RingHolds, FrontOf, Moves, Onward, Step, Valid;
      HereNow();
      AtRestAfter(Here(), events, ring.capacity, size);
      Interfere(events + [Pushes, Announces]);
      HereNow();
    }

    lemma HereNow()
      requires Valid()
      ensures Here() == Around(Shared(patches, held, published, floor, ring.entries), granted) && held <= |patches|
    {
      hide RingHolds;
    }

    /** The actor answers from storage, or the storage refuses a read. `oldest` is what
        the storage names as its oldest version. */
    method CatchUp(after: nat, limit: nat, works: bool, oldest: nat) returns (ok: bool, caught: CaughtUp<P>)
      requires Valid() && Rest() && limit > 0 && oldest <= floor
      ensures ok <==> after + 1 < oldest || works
      ensures caught == Caught(patches, floor, oldest, ring.entries, after, limit, encoded)
      ensures CaughtRight(caught, patches, floor, ring.entries, after, limit)
    {
      hide RingHolds, EntriesOf, CaughtRight;
      RingFrontIs(ring.entries, patches, size);
      assert patches[..|patches|] == patches;
      CaughtBounds(patches, floor, oldest, ring.entries, after, limit, encoded);
      ok := after + 1 < oldest || works;
      caught := Caught(patches, floor, oldest, ring.entries, after, limit, encoded);
    }
  }

  lemma RingFrontIs<P>(ring: seq<Rings.Entry<P>>, patches: seq<P>, size: P -> nat)
    requires RingHolds(ring, patches[..|patches|], size)
    ensures ring != [] ==> 1 <= ring[0].version <= |patches|
  {
    RingContiguous(ring, patches[..|patches|], size);
  }

  /** An actor that has pushed and announced is at rest. */
  lemma AtRestAfter<P>(a: Around<P>, events: seq<Event<P>>, capacity: nat, size: P -> nat)
    requires a.shared.held <= |a.shared.patches|
    ensures AtRest(AfterAll(a, events + [Pushes, Announces], capacity, size).shared)
  {
    hide Rings.LastOf, EntriesOf;
    var all := events + [Pushes, Announces];
    HeldWithin(a, events, capacity, size);
    assert all[..|events|] == events && all[..|events| + 2] == all;
    AfterNext(a, all, capacity, size, |events|);
    AfterNext(a, all, capacity, size, |events| + 1);
  }

  lemma {:induction false} HeldWithin<P>(a: Around<P>, events: seq<Event<P>>, capacity: nat, size: P -> nat)
    requires a.shared.held <= |a.shared.patches|
    ensures var t := AfterAll(a, events, capacity, size).shared; t.held <= |t.patches|
    decreases |events|
  {
    hide Rings.LastOf, EntriesOf;
    if events != [] {
      HeldWithin(a, Init(events), capacity, size);
    }
  }

  // ---- one stream -------------------------------------------------------------

  datatype Frame<P> = Records(entries: seq<Rings.Entry<P>>) | Gapped(from: nat, to: nat)

  /** Frames that cover every version above `from`, up to `cursor`, once and in
      order: records are the log's own at their versions, and gaps lie below the
      storage floor. */
  ghost predicate Tiles<P>(out: seq<Frame<P>>, from: nat, cursor: nat, patches: seq<P>, floor: nat)
    decreases |out|
  {
    if out == [] then cursor == from
    else
      match out[|out| - 1]
      case Records(es) =>
        && es != [] && |es| <= cursor && RunOf(es, patches, cursor - |es|)
        && Tiles(out[..|out| - 1], from, cursor - |es|, patches, floor)
      case Gapped(g, to) =>
        && g < to == cursor && to < floor
        && Tiles(out[..|out| - 1], from, g, patches, floor)
  }

  function Pushed<P>(out: seq<Frame<P>>): nat {
    if out == [] then 0
    else Pushed(out[..|out| - 1]) + (if out[|out| - 1].Records? then |out[|out| - 1].entries| else 0)
  }

  /** What was true of the log when a frame was pushed stays true. */
  lemma {:induction false} TilesStay<P>(out: seq<Frame<P>>, from: nat, cursor: nat, patches: seq<P>, floor: nat,
          later: seq<P>, higher: nat)
    requires Tiles(out, from, cursor, patches, floor) && patches <= later && floor <= higher
    ensures Tiles(out, from, cursor, later, higher)
    decreases |out|
  {
    if out != [] {
      match out[|out| - 1] {
        case Records(es) =>
          TilesStay(out[..|out| - 1], from, cursor - |es|, patches, floor, later, higher);
        case Gapped(g, to) =>
          TilesStay(out[..|out| - 1], from, g, patches, floor, later, higher);
      }
    }
  }

  lemma TilesMore<P>(out: seq<Frame<P>>, from: nat, cursor: nat, patches: seq<P>, floor: nat, f: Frame<P>)
    requires Tiles(out, from, cursor, patches, floor)
    ensures f.Records? && f.entries != [] && RunOf(f.entries, patches, cursor) ==>
      Tiles(out + [f], from, cursor + |f.entries|, patches, floor)
    ensures f.Gapped? && f.from == cursor < f.to < floor ==> Tiles(out + [f], from, f.to, patches, floor)
    ensures Pushed(out + [f]) == Pushed(out) + if f.Records? then |f.entries| else 0
  {
    assert (out + [f])[..|out|] == out;
  }

  /** Every version of the interval is in exactly the frame that covers it: either
      the log's own record, or a gap below the floor. */
  lemma {:induction false} TilesCover<P>(out: seq<Frame<P>>, from: nat, cursor: nat, patches: seq<P>, floor: nat,
          version: nat)
    returns (i: nat)
    requires Tiles(out, from, cursor, patches, floor) && from < version <= cursor
    ensures i < |out| && Covers(out[i], version)
    ensures out[i].Gapped? ==> version < floor
    ensures out[i].Records? ==> version <= |patches| && CarriedAs(out[i].entries, version, patches[version - 1])
    ensures forall j :: 0 <= j < |out| && j != i ==> !Covers(out[j], version)
    decreases |out|
  {
    var n := |out| - 1;
    var lower := match out[n] case Records(es) => cursor - |es| case Gapped(g, _) => g;
    TilesBelow(out[..n], from, lower, patches, floor);
    if version > lower {
      i := n;
      if out[n].Records? {
        assert out[n].entries[version - lower - 1].version == version;
      }
      forall j | 0 <= j < n
        ensures !Covers(out[j], version)
      {
        assert out[j] == out[..n][j];
      }
    } else {
      i := TilesCover(out[..n], from, lower, patches, floor, version);
      forall j | 0 <= j < |out| && j != i
        ensures !Covers(out[j], version)
      {
        if j < n {
          assert out[j] == out[..n][j];
        }
      }
    }
  }

  ghost predicate CarriedAs<P>(es: seq<Rings.Entry<P>>, version: nat, patch: P) {
    exists k :: 0 <= k < |es| && es[k].version == version && es[k].patch == patch
  }

  ghost predicate Covers<P>(f: Frame<P>, version: nat) {
    match f
    case Records(es) => exists k :: 0 <= k < |es| && es[k].version == version
    case Gapped(g, to) => g < version <= to
  }

  /** No frame reaches past the cursor, and the cursor never moves back. */
  lemma {:induction false} TilesBelow<P>(out: seq<Frame<P>>, from: nat, cursor: nat, patches: seq<P>, floor: nat)
    requires Tiles(out, from, cursor, patches, floor)
    ensures from <= cursor
    ensures forall j, v :: 0 <= j < |out| && v > cursor ==> !Covers(out[j], v)
    decreases |out|
  {
    if out != [] {
      var n := |out| - 1;
      var lower := match out[n] case Records(es) => cursor - |es| case Gapped(g, _) => g;
      TilesBelow(out[..n], from, lower, patches, floor);
      forall j, v | 0 <= j < |out| && v > cursor
        ensures !Covers(out[j], v)
      {
        if j < n {
          assert out[j] == out[..n][j];
        }
      }
    }
  }

  /** What bounds a stream's frames, and how records are sized. */
  datatype Limits<!P> = Limits(capacity: nat, size: P -> nat, encoded: P -> nat, push: nat, pushBytes: nat)

  /** What happens around a stream during one turn: before it looks at its credit, at
      the watermark, at the ring, before the actor answers it, and before it pushes;
      and whether the storage serves a read, and what it names as its oldest version. */
  datatype Turn<P> = Turn(first: seq<Event<P>>, second: seq<Event<P>>, third: seq<Event<P>>, rest: seq<Event<P>>,
    last: seq<Event<P>>, works: bool, oldest: nat)

  /** Where a stream stands, and in what. */
  datatype Standing<P> = Standing(around: Around<P>, cursor: nat, used: nat, out: seq<Frame<P>>)

  function Past<P>(k: Limits<P>, a: Around<P>, events: seq<Event<P>>): Around<P> {
    AfterAll(a, events, k.capacity, k.size)
  }

  /** Records are pushed, as one frame, and paid for. */
  function Delivered<P>(st: Standing<P>, es: seq<Rings.Entry<P>>): Standing<P>
    requires es != []
  {
    st.(out := st.out + [Records(es)], cursor := es[|es| - 1].version, used := st.used + |es|)
  }

  /** What a stream has found to push next, if anything; a refused read ends it. */
  datatype Found<P> = Found(standing: Standing<P>, failed: bool, entries: seq<Rings.Entry<P>>)

  /** What a stream finds that asks its actor. */
  function Asked<P>(k: Limits<P>, st: Standing<P>, turn: Turn<P>, allowance: nat): Found<P> {
    var d := st.(around := Past(k, st.around, turn.rest + [Pushes, Announces]));
    var s := d.around.shared;
    var oldest := if turn.oldest <= s.floor then turn.oldest else s.floor;
    if st.cursor + 1 >= oldest && !turn.works then Found(d, true, [])
    else
      match Caught(s.patches, s.floor, oldest, s.ring, st.cursor, allowance, k.encoded)
      case Gap(to) => Found(d.(cursor := to, out := d.out + [Gapped(d.cursor, to)]), false, [])
      case Run(es) => Found(d, false, es)
  }

  /** What it finds in the ring, or else from the actor. */
  function Gathered<P>(k: Limits<P>, st: Standing<P>, turn: Turn<P>, allowance: nat): Found<P> {
    var read := Rings.ReadOf(st.around.shared.ring, st.cursor, allowance, k.pushBytes);
    if read.Records? && read.entries != [] then Found(st, false, read.entries) else Asked(k, st, turn, allowance)
  }

  /** What is found is pushed. */
  function Advanced<P>(k: Limits<P>, st: Standing<P>, turn: Turn<P>, allowance: nat): (Standing<P>, bool) {
    var found := Gathered(k, st, turn, allowance);
    if found.failed || found.entries == [] then (found.standing, found.failed)
    else (Delivered(found.standing.(around := Past(k, found.standing.around, turn.last)), found.entries), false)
  }

  /** What a turn makes of a stream: nothing without credit or news. */
  function Turned<P>(k: Limits<P>, st: Standing<P>, turn: Turn<P>): (Standing<P>, bool) {
    var a := Past(k, st.around, turn.first);
    var b := Past(k, a, turn.second);
    var c := Past(k, b, turn.third);
    if st.used >= a.granted then (st.(around := b), false)
    else if st.cursor >= b.shared.published then (st.(around := c), false)
    else
      Advanced(k, st.(around := c), turn, if a.granted - st.used < k.push then a.granted - st.used else k.push)
  }

  /** What turns make of it, until one fails. */
  function TurnedAll<P>(k: Limits<P>, st: Standing<P>, turns: seq<Turn<P>>): (Standing<P>, bool) {
    if turns == [] then (st, false)
    else
      var before := TurnedAll(k, st, Init(turns));
      if before.1 then before else Turned(k, before.0, Last(turns))
  }

  lemma TurnedNext<P>(k: Limits<P>, st: Standing<P>, turns: seq<Turn<P>>, i: nat)
    requires i < |turns|
    ensures
      var before := TurnedAll(k, st, turns[..i]);
      TurnedAll(k, st, turns[..i + 1]) == if before.1 then before else Turned(k, before.0, turns[i])
  {
    assert Init(turns[..i + 1]) == turns[..i] && Last(turns[..i + 1]) == turns[i];
  }

  /** Once a turn has failed no other is taken. */
  lemma {:induction false} FailedStays<P>(k: Limits<P>, st: Standing<P>, turns: seq<Turn<P>>, i: nat)
    requires i <= |turns| && TurnedAll(k, st, turns[..i]).1
    ensures TurnedAll(k, st, turns) == TurnedAll(k, st, turns[..i])
    decreases |turns| - i
  {
    if i < |turns| {
      TurnedNext(k, st, turns, i);
      FailedStays(k, st, turns, i + 1);
    } else {
      assert turns[..i] == turns;
    }
  }

  class Stream<P(==,!new)> {
    const server: Server<P>
    const from: nat
    /** Limits of one pushed frame. */
    const push: nat
    const pushBytes: nat
    var cursor: nat
    var used: nat
    var out: seq<Frame<P>>
    /** The version of the view sent first, if any, and where records start. */
    var viewed: Option<nat>
    var start: nat

    ghost predicate Valid()
      reads this, server, server.ring
    {
      && server.Valid() && push > 0
      && Tiles(out, start, cursor, server.patches, server.floor)
      && used == Pushed(out) <= server.granted
      && start == (if viewed.Some? && from < viewed.value then viewed.value else from)
      && (viewed.Some? ==> viewed.value <= |server.patches|)
    }

    ghost function Bounds(): Limits<P> {
      Limits(server.ring.capacity, server.size, server.encoded, push, pushBytes)
    }

    ghost function Stands(): Standing<P>
      reads this, server, server.ring
    {
      Standing(server.Here(), cursor, used, out)
    }

    constructor (server: Server<P>, from: nat, push: nat, pushBytes: nat)
      requires server.Valid() && push > 0
      ensures Valid() && this.server == server && this.from == from && this.push == push && this.pushBytes == pushBytes
      ensures out == [] && viewed == None && cursor == from && used == 0
    {
      this.server, this.from, this.push, this.pushBytes := server, from, push, pushBytes;
      cursor, used, out, viewed, start := from, 0, [], None, from;
    }

    /** The server moves on. */
    method Wait(events: seq<Event<P>>)
      requires Valid()
      modifies server, server.ring
      ensures Valid() && server.Later() && server.Here() == Past(Bounds(), old(server.Here()), events)
    {
      hide Tiles, Pushed, RingHolds, FrontOf, AfterAll;
      server.Interfere(events);
      TilesStay(out, start, cursor, old(server.patches), old(server.floor), server.patches, server.floor);
    }

    /** A reducible stream opens with the current view, which already carries every
        version up to its own. */
    method Open(reducible: bool, events: seq<Event<P>>)
      requires Valid() && out == [] && viewed == None
      modifies this, server, server.ring
      ensures Valid() && out == [] && server.Later() && used == old(used) && start == cursor
      ensures reducible ==>
        && server.Here() == Past(Bounds(), old(server.Here()), events + [Pushes, Announces])
        && viewed == Some(server.published) && |server.patches| == server.published
        && cursor == if old(cursor) < server.published then server.published else old(cursor)
      ensures !reducible ==> server.Here() == old(server.Here()) && viewed == None && cursor == old(cursor)
    {
      hide RingHolds, FrontOf, AfterAll;
      if reducible {
        server.ComeToRest(events);
        var version := server.published;
        viewed := Some(version);
        cursor := if cursor < version then version else cursor;
        start := cursor;
      }
    }

    /** Push records and move past them. */
    method Deliver(entries: seq<Rings.Entry<P>>)
      requires Valid() && entries != [] && RunOf(entries, server.patches, cursor) && used + |entries| <= server.granted
      modifies this`used, this`cursor, this`out
      ensures Valid() && Stands() == Delivered(old(Stands()), entries)
      ensures cursor == old(cursor) + |entries|
    {
      hide Tiles, Pushed, RingHolds;
      TilesMore(out, start, cursor, server.patches, server.floor, Records(entries));
      used := used + |entries|;
      cursor := entries[|entries| - 1].version;
      out := out + [Records(entries)];
    }

    /** Take what the ring holds above the cursor. */
    method FromRing(allowance: nat) returns (entries: seq<Rings.Entry<P>>)
      requires Valid() && allowance > 0 && cursor < server.held
      ensures
        var read := Rings.ReadOf(server.ring.entries, cursor, allowance, pushBytes);
        entries == if read.Records? then read.entries else []
      ensures RunOf(entries, server.patches, cursor) && |entries| <= allowance
      ensures entries == [] ==> cursor + 1 < FrontOf(server.ring.entries, server.held)
    {
      hide Tiles, Pushed, RingHolds, Rings.Capped, Rings.ReadOf;
      RingContiguous(server.ring.entries, server.patches[..server.held], server.size);
      var read := server.ring.ReadAfter(cursor, allowance, pushBytes);
      if read.TooOld? {
        return [];
      }
      entries := read.entries;
      Rings.ReadContiguous(server.ring.entries, cursor, allowance, pushBytes, |entries|);
      RingRun(server.ring.entries, server.patches, server.held, server.size, cursor, entries);
    }

    /** Say what was reclaimed and move past it. */
    method Skip(to: nat)
      requires Valid() && cursor < to < server.floor
      modifies this`cursor, this`out
      ensures Valid() && cursor == to && out == old(out) + [Gapped(old(cursor), to)]
    {
      hide Tiles, Pushed, RingHolds;
      TilesMore(out, start, cursor, server.patches, server.floor, Gapped(cursor, to));
      out := out + [Gapped(cursor, to)];
      cursor := to;
    }

    /** Ask the actor for what the ring no longer holds; only a refused read is no
        answer. */
    method FromStorage(allowance: nat, turn: Turn<P>) returns (failed: bool, caught: CaughtUp<P>)
      requires Valid() && 0 < allowance && used + allowance <= server.granted
      requires cursor + 1 < FrontOf(server.ring.entries, server.held)
      modifies server, server.ring
      ensures Valid() && server.Later()
      ensures server.Here() == Past(Bounds(), old(server.Here()), turn.rest + [Pushes, Announces])
      ensures
        var oldest := if turn.oldest <= server.floor then turn.oldest else server.floor;
        && failed == (cursor + 1 >= oldest && !turn.works)
        && caught == Caught(server.patches, server.floor, oldest, server.ring.entries, cursor, allowance,
            server.encoded)
      ensures
        match caught
        case Run(es) => RunOf(es, server.patches, cursor) && |es| <= allowance
        case Gap(to) => cursor < to < server.floor
      ensures caught.Run? && cursor < |server.patches| ==> caught.entries != []
    {
      hide Tiles, Pushed, RingHolds, AfterAll, Caught;
      server.ComeToRest(turn.rest);
      TilesStay(out, start, cursor, old(server.patches), old(server.floor), server.patches, server.floor);
      var ok;
      var oldest := if turn.oldest <= server.floor then turn.oldest else server.floor;
      ok, caught := server.CatchUp(cursor, allowance, turn.works, oldest);
      failed := !ok;
    }

    /** What comes next above the cursor, from the ring or else from storage; a hole
        is told at once. */
    method Gather(allowance: nat, turn: Turn<P>) returns (failed: bool, entries: seq<Rings.Entry<P>>)
      requires Valid() && 0 < allowance && used + allowance <= server.granted && cursor < server.published
      modifies this`cursor, this`out, server, server.ring
      ensures Valid() && server.Later()
      ensures Found(Stands(), failed, entries) == Gathered(Bounds(), old(Stands()), turn, allowance)
      ensures failed ==> !turn.works && out == old(out)
      ensures failed || entries != [] ==> cursor == old(cursor)
      ensures entries != [] ==> RunOf(entries, server.patches, cursor) && |entries| <= allowance && out == old(out)
      ensures !failed && entries == [] ==> out == old(out) + [Gapped(old(cursor), cursor)] && old(cursor) < cursor
    {
      hide Tiles, Pushed, RingHolds, FrontOf, RunOf, AfterAll, Caught, Rings.ReadOf;
      failed := false;
      entries := FromRing(allowance);
      if entries != [] {
        return;
      }
      var caught;
      failed, caught := FromStorage(allowance, turn);
      if failed {
        return;
      }
      match caught {
        case Gap(to) =>
          Skip(to);
        case Run(found) =>
          entries := found;
      }
    }

    /** Push what comes next above the cursor, or say what is gone. */
    method Advance(allowance: nat, turn: Turn<P>) returns (failed: bool)
      requires Valid() && 0 < allowance <= push && used + allowance <= server.granted && cursor < server.published
      modifies this`cursor, this`used, this`out, server, server.ring
      ensures Valid() && server.Later()
      ensures (Stands(), failed) == Advanced(Bounds(), old(Stands()), turn, allowance)
      ensures failed ==> !turn.works && out == old(out) && cursor == old(cursor)
      ensures !failed ==> old(cursor) < cursor
      ensures out == old(out) || exists f :: out == old(out) + [f] && (f.Records? ==> |f.entries| <= push)
      ensures old(used) <= used
    {
      hide Tiles, Pushed, RingHolds, FrontOf, RunOf, Past, Gathered, Sound, AfterAll, After;
      var entries;
      failed, entries := Gather(allowance, turn);
      if failed || entries == [] {
        return;
      }
      ghost var seen := server.patches;
      Wait(turn.last);
      RunStays(entries, seen, server.patches, cursor);
      Deliver(entries);
    }

    /** One turn of the loop, whatever happens around it between any two of its steps.
        With credit left and something announced above the cursor, the cursor moves
        unless the storage refuses a read, which is the only way to fail. */
    method Wake(turn: Turn<P>) returns (failed: bool)
      requires Valid()
      modifies this`cursor, this`used, this`out, server, server.ring
      ensures Valid() && server.Later()
      ensures (Stands(), failed) == Turned(Bounds(), old(Stands()), turn)
      ensures failed ==> !turn.works && out == old(out) && cursor == old(cursor)
      ensures old(used) < old(server.granted) && old(cursor) < old(server.published) && !failed ==> old(cursor) < cursor
      ensures out == old(out) || exists f :: out == old(out) + [f] && (f.Records? ==> |f.entries| <= push)
      ensures old(cursor) <= cursor && old(used) <= used
    {
      hide Tiles, Pushed, RingHolds, FrontOf, RunOf, Past, Advanced, Sound, AfterAll, After;
      failed := false;
      Wait(turn.first);
      var granted := server.granted;
      Wait(turn.second);
      if used >= granted {
        return;
      }
      var watermark := server.published;
      Wait(turn.third);
      if cursor >= watermark {
        return;
      }
      var allowance := if granted - used < push then granted - used else push;
      failed := Advance(allowance, turn);
    }

    /** The loop, over any turns: with credit for it, and reads that work, each brings
        the cursor nearer to what was announced. */
    method Serve(reducible: bool, opening: seq<Event<P>>, turns: seq<Turn<P>>) returns (failed: bool)
      requires Valid() && out == [] && viewed == None
      modifies this, server, server.ring
      ensures Valid() && (viewed.Some? <==> reducible) && server.Later()
      ensures
        var around := if reducible then Past(Bounds(), old(server.Here()), opening + [Pushes, Announces])
          else old(server.Here());
        && start ==
            (if reducible && old(cursor) < around.shared.published then around.shared.published else old(cursor))
        && (Stands(), failed) == TurnedAll(Bounds(), Standing(around, start, old(used), []), turns)
      ensures failed ==> exists i :: 0 <= i < |turns| && !turns[i].works
      ensures failed || used >= old(server.granted) || cursor >= old(server.published)
        || cursor >= old(cursor) + |turns|
    {
      hide Tiles, Pushed, RingHolds, FrontOf, AfterAll, Turned, TurnedAll;
      Open(reducible, opening);
      failed := false;
      ghost var st := Stands();
      NoTurns(Bounds(), st);
      assert turns[..0] == [];
      for i := 0 to |turns|
        invariant Valid() && server.Later() && !failed && viewed.Some? == reducible
        invariant (Stands(), false) == TurnedAll(Bounds(), st, turns[..i])
        invariant start == st.cursor && st.cursor >= old(cursor)
        invariant used >= old(server.granted) || cursor >= old(server.published) || cursor >= old(cursor) + i
      {
        TurnedNext(Bounds(), st, turns, i);
        failed := Wake(turns[i]);
        if failed {
          FailedStays(Bounds(), st, turns, i + 1);
          return;
        }
      }
      assert turns[..|turns|] == turns;
    }
  }

  lemma NoTurns<P>(k: Limits<P>, st: Standing<P>)
    ensures TurnedAll(k, st, []) == (st, false)
  {
  }

  /** The actor itself makes only moves its streams survive, whatever its storage
      fails: what was pushed still tiles its log after any queue it takes, and a
      catch-up it answers then is one more frame. */
  method AcrossDrain<S, P(==,!new)>(actor: Actor<S, P>, queue: seq<Command<P>>, limit: nat, ghost out: seq<Frame<P>>,
          ghost from: nat, cursor: nat)
    returns (caught: Logs.Outcome<CaughtUp<P>>)
    requires actor.Valid() && limit > 0
    requires Tiles(out, from, cursor, actor.log.patches, actor.log.storage.Floor())
    modifies actor, actor.log, actor.log.data, actor.log.storage, actor.ring
    ensures actor.Valid()
    ensures
      var patches, floor := actor.log.patches, actor.log.storage.Floor();
      && Tiles(out, from, cursor, patches, floor)
      && (caught.Done? && cursor + 1 < FrontOf(actor.ring.entries, |patches|) ==>
            match caught.value
            case Run(es) => es == [] || Tiles(out + [Records(es)], from, cursor + |es|, patches, floor)
            case Gap(to) => Tiles(out + [Gapped(cursor, to)], from, to, patches, floor))
  {
    hide Tiles, Pushed, RingHolds, RingOf, FrontOf, RunOf, Moves, Logs.History, Logs.Stored, AllAgree, Met, ToldTo,
      KeptOf, Requests, Actor.Valid, Actor.Whole, Actor.AsMet, Feeds, SyncedIn, NoneBroken, Known, Caught, AckedAll,
      Logs.AllWork;
    var responses := actor.Drain(queue);
    TilesStay(out, from, cursor, old(actor.log.patches), old(actor.log.storage.Floor()), actor.log.patches,
      actor.log.storage.Floor());
    caught := actor.CatchUp(cursor, limit);
    if caught.Done? && cursor + 1 < FrontOf(actor.ring.entries, |actor.log.patches|) {
      FrontBelow(actor.ring.entries, |actor.log.patches|);
      var frame := match caught.value case Run(es) => Records(es) case Gap(to) => Gapped(cursor, to);
      TilesMore(out, from, cursor, actor.log.patches, actor.log.storage.Floor(), frame);
    }
  }

  lemma FrontBelow<P>(ring: seq<Rings.Entry<P>>, held: nat)
    ensures ring == [] || FrontOf(ring, held) == ring[0].version
  {
  }

  lemma RunStays<P>(es: seq<Rings.Entry<P>>, patches: seq<P>, later: seq<P>, after: nat)
    requires RunOf(es, patches, after) && patches <= later
    ensures RunOf(es, later, after)
  {
  }

  /** What the ring hands out is the log's own. */
  lemma RingRun<P>(ring: seq<Rings.Entry<P>>, patches: seq<P>, held: nat, size: P -> nat, after: nat,
          out: seq<Rings.Entry<P>>)
    requires held <= |patches| && RingHolds(ring, patches[..held], size)
    requires forall i :: 0 <= i < |out| ==> out[i].version == after + 1 + i && out[i] in ring
    ensures RunOf(out, patches, after)
  {
    RingContiguous(ring, patches[..held], size);
    forall i | 0 <= i < |out|
      ensures after + i < held && out[i].patch == patches[after + i]
    {
      var k :| 0 <= k < |ring| && ring[k] == out[i];
      assert ring[k] ==
        Rings.Entry(held - |ring| + 1 + k, patches[..held][held - |ring| + k],
        size(patches[..held][held - |ring| + k]));
    }
    if out != [] {
      assert out[|out| - 1] in ring;
    }
  }
}
