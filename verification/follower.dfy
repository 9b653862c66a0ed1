/** The follower: a log rebuilt and kept live in a client, over a channel of events
    that may stall. */
module Followers {
  import opened Common
  import opened Logs

  datatype Mode = Reducible | Plain

  /** What a subscription may bring. */
  datatype Frame<S, P> =
    | Preamble(view: View<S>)
    | Batch(records: seq<Record<P>>)
    | Hole(from: nat, to: nat)
    | NotReducible
    | Lost(fatal: bool)
    | End

  datatype Event<P> = Arrived(record: Record<P>) | Gap(from: nat, to: nat)

  datatype Step = Ended | Restart | Closed | Broke(fatal: bool)

  datatype Status = Live | Reconnecting | Finished | Stopped

  // ---- what the consumer can conclude ---------------------------------------

  function StartOf<P>(e: Event<P>): nat {
    match e
    case Arrived(r) => if r.version == 0 then 0 else r.version - 1
    case Gap(from, _) => from
  }

  function EndOf<P>(e: Event<P>): nat {
    match e
    case Arrived(r) => r.version
    case Gap(_, to) => to
  }

  /** Where a consumer stands after the events it was given. */
  function Position<P>(events: seq<Event<P>>, base: nat): nat {
    if events == [] then base else EndOf(events[|events| - 1])
  }

  predicate IsRecord<P(==)>(r: Record<P>, patches: seq<P>) {
    1 <= r.version <= |patches| && r.patch == patches[r.version - 1]
  }

  /** Events tell of the log alone: records are its own, and no event takes the
      consumer lower. */
  ghost predicate Truthful<P>(events: seq<Event<P>>, base: nat, patches: seq<P>) {
    forall i :: 0 <= i < |events| ==>
      && Position(events[..i], base) <= EndOf(events[i]) <= |patches|
      && (events[i].Arrived? ==> IsRecord(events[i].record, patches))
  }

  /** No version is skipped in silence: each event starts at or below where the
      consumer stands. */
  ghost predicate NoSilentHole<P>(events: seq<Event<P>>, base: nat, patches: seq<P>) {
    && Truthful(events, base, patches)
    && forall i :: 0 <= i < |events| ==> StartOf(events[i]) <= Position(events[..i], base)
  }

  /** How often an event starts above where the consumer stands. */
  function Jumps<P>(events: seq<Event<P>>, base: nat): nat {
    if events == [] then 0
    else Jumps(Init(events), base) + if StartOf(Last(events)) > Position(Init(events), base) then 1 else 0
  }

  lemma EventsMore<P>(events: seq<Event<P>>, base: nat, patches: seq<P>, e: Event<P>)
    requires Truthful(events, base, patches) && Position(events, base) <= EndOf(e) <= |patches|
    requires e.Arrived? ==> IsRecord(e.record, patches)
    ensures Truthful(events + [e], base, patches) && Position(events + [e], base) == EndOf(e)
    ensures Jumps(events + [e], base) == Jumps(events, base) + if StartOf(e) > Position(events, base) then 1 else 0
  {
    hide IsRecord;
    var more := events + [e];
    assert Init(more) == events && Last(more) == e;
    forall i | 0 <= i < |more|
      ensures Position(more[..i], base) <= EndOf(more[i]) <= |patches|
      ensures more[i].Arrived? ==> IsRecord(more[i].record, patches)
    {
      if i < |events| {
        assert more[..i] == events[..i] && more[i] == events[i];
      } else {
        assert more[..i] == events;
      }
    }
  }

  /** Truthful events skip nothing in silence exactly when none of them jumps. */
  lemma {:induction false} SilentWhen<P>(events: seq<Event<P>>, base: nat, patches: seq<P>)
    requires Truthful(events, base, patches)
    ensures NoSilentHole(events, base, patches) <==> Jumps(events, base) == 0
    decreases |events|
  {
    hide IsRecord;
    if events == [] {
    } else {
      var n, before := |events| - 1, Init(events);
      forall i | 0 <= i < n
        ensures before[i] == events[i] && before[..i] == events[..i]
      {
      }
      assert events[..n] == before && events[n] == Last(events);
      SilentWhen(before, base, patches);
      if NoSilentHole(before, base, patches) {
        forall i | 0 <= i < |events|
          ensures StartOf(events[i]) <= Position(events[..i], base)
            || (i == n && StartOf(events[n]) > Position(before, base))
        {
          assert i < n ==> StartOf(before[i]) <= Position(before[..i], base);
        }
      } else {
        var i :| 0 <= i < n && StartOf(before[i]) > Position(before[..i], base);
        assert StartOf(events[i]) > Position(events[..i], base);
      }
    }
  }

  /** The consumer stands no higher than what is owed to it, and each jump, counting
      the one the next event will be, is the work of one abandoned gap. */
  ghost predicate Counted<P>(events: seq<Event<P>>, base: nat, owed: nat, gone: bool, abandoned: nat) {
    && Position(events, base) <= owed
    && Jumps(events, base) + (if !gone && Position(events, base) < owed then 1 else 0) <= abandoned
  }

  /** How long waiting to hand over a gap lasted: until there was room, until the
      consumer dropped its receiver, or until every handle on the mirror was gone. */
  datatype Waited = Taken | ReceiverDropped | HandlesClosed

  // ---- batches ------------------------------------------------------------------

  /** Where a follower stands after a batch none of whose records jumps. */
  function Reach<P>(records: seq<Record<P>>, cursor: nat): nat {
    if records == [] then cursor
    else
      var before := Reach(Init(records), cursor);
      if Last(records).version <= before then before else Last(records).version
  }

  /** No record jumps past the one after those before it. */
  predicate NoJump<P>(records: seq<Record<P>>, cursor: nat) {
    records == [] || (NoJump(Init(records), cursor) && Last(records).version <= Reach(Init(records), cursor) + 1)
  }

  /** Record `j` is the first that jumps. */
  ghost predicate JumpsAt<P>(records: seq<Record<P>>, cursor: nat, j: nat) {
    j < |records| && NoJump(records[..j], cursor) && records[j].version > Reach(records[..j], cursor) + 1
  }

  lemma NoJumpNext<P>(records: seq<Record<P>>, cursor: nat, i: nat)
    requires i < |records|
    ensures NoJump(records[..i + 1], cursor) <==>
      NoJump(records[..i], cursor) && records[i].version <= Reach(records[..i], cursor) + 1
    ensures Reach(records[..i + 1], cursor) ==
      if records[i].version <= Reach(records[..i], cursor) then Reach(records[..i], cursor) else records[i].version
  {
    assert Init(records[..i + 1]) == records[..i] && Last(records[..i + 1]) == records[i];
  }

  lemma {:induction false} JumpStays<P>(records: seq<Record<P>>, cursor: nat, i: nat)
    requires i <= |records| && !NoJump(records[..i], cursor)
    ensures !NoJump(records, cursor)
    decreases |records| - i
  {
    if i < |records| {
      NoJumpNext(records, cursor, i);
      JumpStays(records, cursor, i + 1);
    } else {
      assert records[..i] == records;
    }
  }

  /** A stretch of consecutive versions that starts no higher than just above the
      cursor has no jump, and leads to its end. */
  lemma {:induction false} StretchReaches<P>(records: seq<Record<P>>, cursor: nat, from: nat)
    requires from <= cursor && forall i :: 0 <= i < |records| ==> records[i].version == from + 1 + i
    ensures NoJump(records, cursor)
    ensures Reach(records, cursor) == if from + |records| <= cursor then cursor else from + |records|
    decreases |records|
  {
    if records != [] {
      StretchReaches(Init(records), cursor, from);
    }
  }

  /** Whether the channel has room, for what is owed and for a record. */
  datatype Room = Room(forGap: bool, forRecord: bool)

  function RoomAt(rooms: seq<Room>, i: nat): Room {
    if i < |rooms| then rooms[i] else Room(true, true)
  }

  /** The records of a batch that are news to a follower. */
  function News<P>(records: seq<Record<P>>, cursor: nat): seq<Event<P>> {
    if records == [] then []
    else
      News(Init(records), cursor) +
      if Last(records).version <= Reach(Init(records), cursor) then [] else [Arrived(Last(records))]
  }

  lemma NewsNext<P>(records: seq<Record<P>>, cursor: nat, i: nat)
    requires i < |records|
    ensures News(records[..i + 1], cursor) ==
      News(records[..i], cursor) +
        if records[i].version <= Reach(records[..i], cursor) then [] else [Arrived(records[i])]
  {
    assert Init(records[..i + 1]) == records[..i] && Last(records[..i + 1]) == records[i];
  }

  lemma NextIsNews<P>(r: Record<P>, cursor: nat)
    requires r.version == cursor + 1
    ensures NoJump([r], cursor) && Reach([r], cursor) == r.version && News([r], cursor) == [Arrived(r)]
  {
    assert Init([r]) == [] && Last([r]) == r;
  }

  // ---- what a follower does, step by step ----------------------------------

  /** What a server says when asked for its view; the view is no older than where the
      follower stands, and some versions ahead of it. */
  datatype Answer = Current(ahead: nat) | Transient | Refused(fatal: bool)

  /** The version of such a view, where there are as many. */
  function VersionFrom(cursor: nat, ahead: nat, count: nat): nat {
    if cursor + ahead < count then cursor + ahead else cursor
  }

  /** How everyone else behaves while a frame is taken: the consumer while a gap waits
      and while records arrive, and the server if it is asked for its view. */
  datatype Meanwhile = Meanwhile(wait: Waited, rooms: seq<Room>, answer: Answer)

  /** All of a follower but the structure it holds, which is the server's state at the
      cursor. */
  datatype Mirror<S, P> = Mirror(cursor: nat, held: bool, mode: Mode, dropped: Option<(nat, nat)>,
    events: seq<Event<P>>, gone: bool, closed: bool, abandoned: nat, shown: Option<View<S>>, version: nat,
    status: Status, base: nat)

  function GapFrom(dropped: Option<(nat, nat)>, from: nat): nat {
    if dropped.None? then from else if dropped.value.0 < from then dropped.value.0 else from
  }

  /** What renderers see is brought up to date. */
  function Displayed<S, P>(m: Mirror<S, P>, past: seq<S>, status: Status): Mirror<S, P> {
    var shown := if m.held && m.cursor < |past| then Some(View(m.cursor, past[m.cursor])) else None;
    m.(shown := shown, version := m.cursor, status := status)
  }

  /** A gap is given, or dropped with the receiver, or abandoned with the handles. */
  function Announced<S, P>(m: Mirror<S, P>, from: nat, to: nat, wait: Waited): Mirror<S, P> {
    if m.gone || wait.ReceiverDropped? then m.(dropped := None, gone := true)
    else if wait.HandlesClosed? then m.(dropped := None, closed := true, abandoned := m.abandoned + 1)
    else m.(dropped := None, events := m.events + [Gap(GapFrom(m.dropped, from), to)])
  }

  /** A record is given after what is owed, or owed with it. */
  function Offered<S, P>(m: Mirror<S, P>, r: Record<P>, room: Room): Mirror<S, P> {
    var due := if m.dropped.Some? then m.dropped.value.0 else StartOf(Arrived(r));
    if m.gone || (if m.dropped.Some? then !room.forGap else !room.forRecord) then m.(dropped := Some((due, r.version)))
    else
      var owed := if m.dropped.Some? then [Gap(due, m.dropped.value.1)] else [];
      if room.forRecord then m.(dropped := None, events := m.events + owed + [Arrived(r)])
      else m.(dropped := Some((StartOf(Arrived(r)), r.version)), events := m.events + owed)
  }

  /** A view replaces whatever was held. */
  function Adopted<S, P>(m: Mirror<S, P>, past: seq<S>, version: nat): Mirror<S, P> {
    Displayed(m.(cursor := version, held := true, base := if m.held then m.base else version), past, Live)
  }

  /** A hole is stepped over on a plain log; otherwise the server's view is asked for. */
  function Recovered<S, P>(m: Mirror<S, P>, past: seq<S>, from: nat, to: nat, env: Meanwhile)
    : (Mirror<S, P>, Option<Step>)
  {
    if m.mode == Plain then (Displayed(Announced(m.(cursor := to), from, to, env.wait), past, Live), None)
    else
      match env.answer
      case Transient => (m, Some(Restart))
      case Refused(fatal) => (m, Some(Broke(fatal)))
      case Current(ahead) =>
        var version := VersionFrom(m.cursor, ahead, |past|);
        if version < to then (m, Some(Restart))
        else (Adopted(Announced(m, from, version, env.wait), past, version), None)
  }

  /** The first records of a batch, as long as none jumps. */
  function TakenTo<S, P>(m: Mirror<S, P>, records: seq<Record<P>>, rooms: seq<Room>, n: nat): Mirror<S, P>
    requires n <= |records|
  {
    if n == 0 then m
    else
      var before := TakenTo(m, records, rooms, n - 1);
      var r := records[n - 1];
      if r.version <= before.cursor then before else Offered(before.(cursor := r.version), r, RoomAt(rooms, n - 1))
  }

  /** Where the first jump of a batch is, if it has one. */
  function FirstJump<P>(records: seq<Record<P>>, cursor: nat): (j: nat)
    requires !NoJump(records, cursor)
    ensures j < |records|
  {
    if !NoJump(Init(records), cursor) then FirstJump(Init(records), cursor) else |records| - 1
  }

  /** A batch up to its first jump, the hole below which is recovered from. */
  function Folded<S, P>(m: Mirror<S, P>, past: seq<S>, records: seq<Record<P>>, env: Meanwhile)
    : (Mirror<S, P>, Option<Step>)
  {
    if NoJump(records, m.cursor) then (Displayed(TakenTo(m, records, env.rooms, |records|), past, Live), None)
    else
      var j := FirstJump(records, m.cursor);
      var before := TakenTo(m, records, env.rooms, j);
      var below := if records[j].version == 0 then 0 else records[j].version - 1;
      Recovered(before, past, before.cursor, below, env)
  }

  /** A frame. */
  function Heard<S, P>(m: Mirror<S, P>, past: seq<S>, frame: Frame<S, P>, env: Meanwhile)
    : (Mirror<S, P>, Option<Step>)
  {
    match frame
    case NotReducible => if m.mode == Reducible then (m.(mode := Plain), Some(Restart)) else (m, Some(Broke(false)))
    case Lost(fatal) => (m, Some(Broke(fatal)))
    case Preamble(view) =>
      var newer := m.held && view.version > m.cursor;
      (Adopted(if newer then Announced(m, m.cursor, view.version, env.wait) else m, past, view.version), None)
    case Batch(records) => Folded(m, past, records, env)
    case Hole(from, to) => Recovered(m, past, from, to, env)
    case End => (m, Some(Step.Ended))
  }

  /** What happens at a turn of a subscription: the consumer may drop its end, the
      handles may go, whether that is noticed first, and a frame. */
  datatype Move<S, P> = Move(dropping: bool, closing: bool, noticed: bool, frame: Frame<S, P>, env: Meanwhile)

  function Leaves<S, P>(m: Mirror<S, P>, move: Move<S, P>): Mirror<S, P> {
    m.(gone := m.gone || move.dropping, closed := m.closed || move.closing)
  }

  /** One turn: a frame no correct server could send does not come. */
  function Moved<S(==), P(==)>(m: Mirror<S, P>, past: seq<S>, patches: seq<P>, move: Move<S, P>)
    : (Mirror<S, P>, Option<Step>)
    requires |past| == |patches| + 1
  {
    var left := Leaves(m, move);
    if left.closed && move.noticed then (left, Some(Closed))
    else if !FairTo(left, past, patches, move.frame) then (left, None)
    else Heard(left, past, move.frame, move.env)
  }

  /** A subscription, until a turn ends it; one whose frames run out has broken. */
  function Subscribed<S(==), P(==)>(m: Mirror<S, P>, past: seq<S>, patches: seq<P>, moves: seq<Move<S, P>>)
    : (Mirror<S, P>, Step)
    requires |past| == |patches| + 1
    decreases |moves|
  {
    if moves == [] then (m, Broke(false))
    else
      var (next, step) := Moved(m, past, patches, moves[0]);
      if step.Some? then (next, step.value) else Subscribed(next, past, patches, moves[1..])
  }

  /** Subscriptions one after another, until the server ends the log, the handles are
      gone or a failure is final. */
  function Followed<S(==), P(==)>(m: Mirror<S, P>, past: seq<S>, patches: seq<P>, sessions: seq<seq<Move<S, P>>>)
    : Mirror<S, P>
    requires |past| == |patches| + 1
    decreases |sessions|
  {
    if sessions == [] then m
    else
      var (next, step) := Subscribed(m, past, patches, sessions[0]);
      match step
      case Closed => next
      case Ended => Displayed(next, past, Finished)
      case Restart => if next.closed then next else Followed(next, past, patches, sessions[1..])
      case Broke(fatal) =>
        var told := Displayed(next, past, if fatal then Stopped else Reconnecting);
        if fatal || told.closed then told else Followed(told, past, patches, sessions[1..])
  }

  /** A frame a correct server could send now: views are true and no older than the
      cursor, records are the log's own, and a gap starts at or below the cursor. A
      log that keeps a view sends it first. */
  predicate FairTo<S(==), P(==)>(m: Mirror<S, P>, past: seq<S>, patches: seq<P>, f: Frame<S, P>)
    requires |past| == |patches| + 1
  {
    match f
    case Preamble(view) => m.cursor <= view.version <= |patches| && view.state == past[view.version]
      && m.mode == Reducible
    case Batch(records) =>
      (forall i :: 0 <= i < |records| ==> IsRecord(records[i], patches)) && (m.mode == Reducible ==> m.held)
    case Hole(from, to) =>
      from <= m.cursor && to <= |patches| && (if m.mode == Reducible then m.held else m.cursor <= to)
    case NotReducible => m.mode == Plain || !m.held
    case _ => true
  }

  class Task<S(==), P(==)> {
    /** The server's history, as far as it will ever go. */
    const fold: (S, P) -> Fold<S>
    const past: seq<S>
    const patches: seq<P>

    var cursor: nat
    var store: Data?<S, P>
    var mode: Mode
    /** Versions a stalled consumer missed. */
    var dropped: Option<(nat, nat)>
    /** Events the channel took, and whether the consumer has dropped its end. */
    var events: seq<Event<P>>
    var gone: bool
    /** Whether every handle on the mirror is gone, and how many gaps were abandoned
        because of it while the consumer still listened. */
    var closed: bool
    ghost var abandoned: nat
    /** What a renderer sees. */
    var shown: Option<View<S>>
    var version: nat
    var status: Status
    /** Where the consumer started. */
    ghost var base: nat

    /** The store is the server's state at the cursor. */
    ghost predicate Mirrors()
      reads this, store
    {
      && History(fold, past, patches) && cursor <= |patches|
      && (store != null ==> store.Valid() && store.fold == fold && store.Now() == View(cursor, past[cursor]))
      && (mode == Plain ==> store == null)
    }

    /** Where the next event is to start: at what a stalled consumer missed, or at
        the cursor. */
    ghost function Owes(): nat
      reads this
    {
      if dropped.Some? then dropped.value.0 else cursor
    }

    /** Every event tells of the log, what is owed ends at the cursor, and a silent
        jump, made or to come, takes a gap abandoned when the handles closed. */
    ghost predicate Accounts()
      reads this
    {
      && Truthful(events, base, patches) && Counted(events, base, Owes(), gone, abandoned)
      && (dropped.Some? ==> dropped.value.0 < dropped.value.1 == cursor)
      && (abandoned > 0 ==> closed)
      && (mode == Reducible && store == null ==> events == [] && dropped == None)
    }

    /** A view on show is the server's state at the version on show. */
    ghost predicate Shows()
      reads this
    {
      version <= |patches| < |past| && (shown.Some? ==> shown.value == View(version, past[version]))
    }

    ghost predicate Valid()
      reads this, store
    {
      Mirrors() && Accounts() && Shows()
    }

    /** All of this but the structure held. */
    ghost function Snap(): Mirror<S, P>
      reads this
    {
      Mirror(cursor, store != null, mode, dropped, events, gone, closed, abandoned, shown, version, status, base)
    }

    /** Until a gap is abandoned, no version is skipped in silence. */
    lemma Accounted()
      requires Valid()
      ensures NoSilentHole(events, base, patches) <==> Jumps(events, base) == 0
      ensures Jumps(events, base) <= abandoned && (abandoned > 0 ==> closed)
    {
      hide Truthful, NoSilentHole;
      SilentWhen(events, base, patches);
    }

    constructor (fold: (S, P) -> Fold<S>, past: seq<S>, patches: seq<P>)
      requires History(fold, past, patches)
      ensures Valid() && this.fold == fold && this.past == past && this.patches == patches
      ensures cursor == 0 && events == [] && mode == Reducible && store == null && base == 0
      ensures !gone && !closed && abandoned == 0 && dropped == None
      ensures shown == None && version == 0 && status == Reconnecting
    {
      this.fold, this.past, this.patches := fold, past, patches;
      cursor, store, mode, dropped := 0, null, Reducible, None;
      events, gone, closed, abandoned, shown, version, status, base := [], false, false, 0, None, 0, Reconnecting, 0;
    }

    method Publish(s: Status)
      requires Mirrors() && Accounts()
      modifies this`shown, this`version, this`status
      ensures Valid() && Snap() == Displayed(old(Snap()), past, s)
      ensures version == cursor && (shown.Some? <==> store != null) && status == s
    {
      hide Truthful, Counted;
      shown := if store == null then None else Some(store.Now());
      status := s;
      version := cursor;
    }

    function GapStart(from: nat): nat
      reads this
    {
      GapFrom(dropped, from)
    }

    /** Give the consumer a gap, waiting for room; it also covers what was dropped.
        If every handle closes during the wait the gap is abandoned. A gap that is
        given jumps exactly when it starts above where the consumer stands. */
    method EmitGap(from: nat, to: nat, wait: Waited)
      requires Truthful(events, base, patches) && Position(events, base) <= to <= |patches|
      modifies this`dropped, this`events, this`gone, this`closed, this`abandoned
      ensures Truthful(events, base, patches) && dropped == None
      ensures Snap() == Announced(old(Snap()), from, to, wait)
      ensures events == old(events) + if old(gone) || !wait.Taken? then [] else [Gap(old(GapStart(from)), to)]
      ensures Position(events, base) == if old(gone) || !wait.Taken? then old(Position(events, base)) else to
      ensures Jumps(events, base) == old(Jumps(events, base)) +
        if !old(gone) && wait.Taken? && old(GapStart(from)) > old(Position(events, base)) then 1 else 0
      ensures gone == (old(gone) || wait.ReceiverDropped?)
      ensures closed == (old(closed) || (!old(gone) && wait.HandlesClosed?))
      ensures abandoned == old(abandoned) + if !old(gone) && wait.HandlesClosed? then 1 else 0
    {
      hide Truthful, Jumps, Position;
      var start := GapStart(from);
      dropped := None;
      assert events + [] == events;
      if gone || wait == ReceiverDropped {
        gone := true;
        return;
      }
      if wait == HandlesClosed {
        closed, abandoned := true, abandoned + 1;
        return;
      }
      EventsMore(events, base, patches, Gap(start, to));
      events := events + [Gap(start, to)];
    }

    /** Give the consumer a record if there is room, after the gap that is owed if
        there is room for that; otherwise owe it. Whatever is given jumps exactly when
        the consumer stands below what is due. */
    method EmitRecord(r: Record<P>, room: Room)
      requires Truthful(events, base, patches) && IsRecord(r, patches)
      requires dropped.Some? ==> dropped.value.0 < dropped.value.1 && dropped.value.1 + 1 == r.version
      requires Position(events, base) <= Due(r)
      modifies this`dropped, this`events
      ensures Truthful(events, base, patches)
      ensures Snap() == Offered(old(Snap()), r, room)
      ensures events != old(events) ==>
        && Position(events, base) == (if dropped.Some? then dropped.value.0 else r.version)
        && Jumps(events, base) == old(Jumps(events, base)) + if old(Position(events, base)) < old(Due(r)) then 1 else 0
    {
      hide Truthful, Jumps, Position;
      if dropped.Some? {
        if !gone && room.forGap {
          EventsMore(events, base, patches, Gap(dropped.value.0, dropped.value.1));
          events := events + [Gap(dropped.value.0, dropped.value.1)];
          dropped := None;
        } else {
          dropped := Some((dropped.value.0, r.version));
          return;
        }
      }
      if !gone && room.forRecord {
        EventsMore(events, base, patches, Arrived(r));
        events := events + [Arrived(r)];
      } else {
        dropped := Some((r.version - 1, r.version));
      }
    }

    /** Where what is given with a record starts. */
    ghost function Due(r: Record<P>): nat
      reads this
    {
      if dropped.Some? then dropped.value.0 else StartOf(Arrived(r))
    }

    /** Rebuild from a view: it replaces whatever was held. */
    method Adopt(view: View<S>)
      requires History(fold, past, patches) && view.version <= |patches| && view.state == past[view.version]
      requires Truthful(events, base, patches) && mode == Reducible && (abandoned > 0 ==> closed)
      requires store == null ==> events == [] && dropped == None
      requires store != null ==>
        Counted(events, base, if dropped.Some? then dropped.value.0 else view.version, gone, abandoned)
      requires dropped.Some? ==> dropped.value.0 < dropped.value.1 == view.version
      modifies this
      ensures Valid() && cursor == view.version && store != null && fresh(store) && mode == Reducible
      ensures Snap() == Adopted(old(Snap()), past, view.version)
      ensures events == old(events) && (old(store) != null ==> base == old(base))
      ensures gone == old(gone) && closed == old(closed) && abandoned == old(abandoned) && dropped == old(dropped)
    {
      hide History;
      HistoryBounds(fold, past, patches);
      cursor := view.version;
      if store == null {
        base := view.version;
      }
      store := new Data(fold, view);
      Publish(Live);
    }

    /** Ask the server for its current view. */
    method Read(answer: Answer) returns (r: Outcome<View<S>>, transient: bool, fatal: bool)
      requires |past| == |patches| + 1 && cursor <= |patches|
      ensures r.Done? <==> answer.Current?
      ensures answer.Current? ==>
        var version := VersionFrom(cursor, answer.ahead, |past|);
        && cursor <= version <= |patches| && r.value == View(version, past[version])
      ensures transient == answer.Transient? && (answer.Refused? ==> fatal == answer.fatal)
    {
      transient, fatal := answer.Transient?, answer.Refused? && answer.fatal;
      if !answer.Current? {
        return Failed(Fault.Data), transient, fatal;
      }
      var version := VersionFrom(cursor, answer.ahead, |past|);
      r := Done(View(version, past[version]));
    }

    /** Recover from a gap: on a plain log step over it, otherwise take the server's
        current view instead; either way the gap is announced first and nothing is
        owed for it any more. */
    method Recover(from: nat, to: nat, env: Meanwhile) returns (r: Option<Step>)
      requires Valid() && from <= cursor && to <= |patches|
      requires if mode == Reducible then store != null else cursor <= to
      modifies this
      ensures Valid() && (store == old(store) || fresh(store)) && mode == old(mode) && old(cursor) <= cursor
      ensures mode == Reducible ==> store != null
      ensures (Snap(), r) == Recovered(old(Snap()), past, from, to, env)
      ensures base == old(base)
      ensures r.None? ==> to <= cursor && dropped == None
      ensures mode == Plain ==> r.None? && cursor == to
      ensures r.None? ==>
        && events == old(events) + (if old(gone) || !env.wait.Taken? then [] else [Gap(old(GapStart(from)), cursor)])
        && gone == (old(gone) || env.wait.ReceiverDropped?)
        && closed == (old(closed) || (!old(gone) && env.wait.HandlesClosed?))
        && abandoned == old(abandoned) + (if !old(gone) && env.wait.HandlesClosed? then 1 else 0)
        && Jumps(events, base) == old(Jumps(events, base)) +
            if !old(gone) && env.wait.Taken? && old(GapStart(from)) > old(Position(events, base)) then 1 else 0
      ensures r.Some? ==> cursor == old(cursor) && events == old(events) && (r.value == Restart || r.value.Broke?)
      ensures r.Some? ==> abandoned == old(abandoned) && gone == old(gone) && closed == old(closed)
    {
      hide Truthful, Jumps, Position, History;
      HistoryBounds(fold, past, patches);
      if mode == Plain {
        cursor := to;
        EmitGap(from, to, env.wait);
        Publish(Live);
        return None;
      }
      var read, transient, fatal := Read(env.answer);
      if read.Failed? {
        return Some(if transient then Restart else Broke(fatal));
      }
      var view := read.value;
      if view.version < to {
        return Some(Restart);
      }
      EmitGap(from, view.version, env.wait);
      Adopt(view);
      r := None;
    }

    /** Fold one record just above the cursor. What the consumer is then given skips
        nothing in silence exactly when nothing was skipped before and the consumer
        stood at the cursor, or at what it was owed. */
    method FoldOne(r: Record<P>, room: Room)
      requires Valid() && IsRecord(r, patches) && r.version == cursor + 1 && (mode == Reducible ==> store != null)
      modifies this, store
      ensures Mirrors() && Accounts() && Shows()
      ensures store == old(store) && mode == old(mode) && cursor == old(cursor) + 1
      ensures gone == old(gone) && closed == old(closed) && abandoned == old(abandoned) && base == old(base)
      ensures Snap() == Offered(old(Snap()).(cursor := r.version), r, room) && old(events) <= events
      ensures !gone && room.forRecord && (old(dropped).Some? ==> room.forGap) ==>
        && dropped == None
        && events == old(events) + OwedAs(old(dropped)) + [Arrived(r)]
      ensures events != old(events) ==>
        (NoSilentHole(events, base, patches) <==>
          old(NoSilentHole(events, base, patches)) && old(Position(events, base)) == old(Owes()))
    {
      hide Truthful, NoSilentHole, Jumps, Position;
      HistoryAt(fold, past, patches, cursor);
      hide History;
      SilentWhen(events, base, patches);
      if store != null {
        var applied := store.Apply(r.patch);
        if applied.Rejected? || store.Now().version != r.version {
          assert false;
          return;
        }
      }
      cursor := r.version;
      EmitRecord(r, room);
      SilentWhen(events, base, patches);
    }

    /** Fold a batch: records already held are skipped and each next one folded. At
        the first that jumps, the hole below it is recovered from, and the rest of
        the batch is left: on a plain log the cursor then stands just below it. */
    method Fold(records: seq<Record<P>>, env: Meanwhile) returns (r: Option<Step>)
      requires Valid() && (forall i :: 0 <= i < |records| ==> IsRecord(records[i], patches))
      requires mode == Reducible ==> store != null
      modifies this, store
      ensures Valid() && (store == old(store) || fresh(store)) && mode == old(mode) && old(cursor) <= cursor
      ensures mode == Reducible ==> store != null
      ensures (Snap(), r) == Folded(old(Snap()), past, records, env)
      ensures old(events) <= events && base == old(base) && old(abandoned) <= abandoned
      ensures NoJump(records, old(cursor)) ==>
        && r.None? && cursor == Reach(records, old(cursor)) && version == cursor
        && gone == old(gone) && closed == old(closed) && abandoned == old(abandoned)
        && (!gone && AllRoom(env.rooms) && News(records, old(cursor)) != [] ==>
              dropped == None && events == old(events) + OwedAs(old(dropped)) + News(records, old(cursor)))
      ensures !NoJump(records, old(cursor)) ==> exists j: nat ::
        && JumpsAt(records, old(cursor), j)
        && Reach(records[..j], old(cursor)) <= cursor
        && (r.None? ==> records[j].version - 1 <= cursor && dropped == None)
        && (mode == Plain ==> r.None? && cursor == records[j].version - 1)
      ensures r.Some? ==> r.value == Restart || r.value.Broke?
    {
      hide NoSilentHole, Truthful, Counted, Jumps, Position, History, NoJump, Reach, News, TakenTo, FirstJump, Offered,
        Displayed, Recovered, AllRoom, OwedAs;
      ghost var was, from := Snap(), cursor;
      NoneReached(records, cursor);
      NoneTaken(was, records, env.rooms);
      for i := 0 to |records|
        invariant Valid() && store == old(store) && mode == old(mode) && from <= cursor
        invariant old(events) <= events && base == old(base)
        invariant gone == old(gone) && closed == old(closed) && abandoned == old(abandoned)
        invariant NoJump(records[..i], from) && cursor == Reach(records[..i], from)
        invariant Snap() == TakenTo(was, records, env.rooms, i)
      {
        NoJumpNext(records, from, i);
        TakenNext(was, records, env.rooms, i);
        if records[i].version <= cursor {
          continue;
        }
        if records[i].version != cursor + 1 {
          JumpStays(records, from, i + 1);
          FirstIs(records, from, i);
          assert JumpsAt(records, from, i);
          r := Recover(cursor, records[i].version - 1, env);
          return;
        }
        FoldOne(records[i], RoomAt(env.rooms, i));
      }
      assert records[..|records|] == records;
      AllGiven(was, records, env.rooms, |records|);
      Publish(Live);
      r := None;
    }

    /** Take one frame of a subscription; `env` says how everyone else behaves
        meanwhile. */
    method Take(frame: Frame<S, P>, env: Meanwhile) returns (r: Option<Step>)
      requires Valid() && Fair(frame)
      modifies this, store
      ensures Valid() && (store == old(store) || fresh(store)) && old(cursor) <= cursor
      ensures (Snap(), r) == Heard(old(Snap()), past, frame, env)
      ensures old(events) <= events && old(abandoned) <= abandoned
      ensures old(events) != [] ==> base == old(base)
      ensures
        frame.Preamble? && old(store) != null && frame.view.version > old(cursor) && !old(gone) && env.wait.Taken? ==>
        events == old(events) + [Gap(old(GapStart(cursor)), cursor)] && dropped == None
      ensures frame.Preamble? ==> r.None? && cursor == frame.view.version && store != null && mode == old(mode)
      ensures frame.Batch? && NoJump(frame.records, old(cursor)) ==>
        && r.None? && cursor == Reach(frame.records, old(cursor))
        && gone == old(gone) && closed == old(closed) && base == old(base)
        && (!gone && AllRoom(env.rooms) && News(frame.records, old(cursor)) != [] ==>
              dropped == None && events == old(events) + OwedAs(old(dropped)) + News(frame.records, old(cursor)))
      ensures frame.Hole? && r.None? ==>
        && frame.to <= cursor && (mode == Plain ==> cursor == frame.to) && dropped == None && base == old(base)
        && events == old(events) +
            (if old(gone) || !env.wait.Taken? then [] else [Gap(old(GapStart(frame.from)), cursor)])
        && gone == (old(gone) || env.wait.ReceiverDropped?)
        && closed == (old(closed) || (!old(gone) && env.wait.HandlesClosed?))
      ensures frame.Batch? || frame.Hole? ==>
        && mode == old(mode) && (mode == Plain ==> r.None?) && (mode == Reducible ==> store != null)
        && (r.Some? ==> r.value == Restart || r.value.Broke?)
      ensures frame.NotReducible? ==>
        && mode == Plain && r.Some? && cursor == old(cursor) && events == old(events) && dropped == old(dropped)
        && gone == old(gone) && closed == old(closed) && base == old(base)
      ensures r != Some(Closed) && (frame == Frame.End <==> r == Some(Step.Ended))
    {
      hide NoSilentHole, Truthful, Jumps, Position, History, IsRecord, NoJump, Reach, News, Folded, Recovered, AllRoom,
        OwedAs;
      HistoryBounds(fold, past, patches);
      match frame {
        case NotReducible =>
          if mode == Reducible {
            mode := Plain;
            return Some(Restart);
          }
          return Some(Broke(false));
        case Lost(fatal) =>
          return Some(Broke(fatal));
        case Preamble(view) =>
          if store != null && view.version > cursor {
            EmitGap(cursor, view.version, env.wait);
          }
          Adopt(view);
          r := None;
        case Batch(records) =>
          r := Fold(records, env);
        case Hole(from, to) =>
          r := Recover(from, to, env);
        case End =>
          r := Some(Step.Ended);
      }
    }

    /** The consumer may drop its end at any time, and so may everyone who holds the
        mirror. */
    method Leave(dropping: bool, closing: bool)
      requires Valid()
      modifies this`gone, this`closed
      ensures Valid() && gone == (old(gone) || dropping) && closed == (old(closed) || closing)
    {
      hide Truthful, Jumps, Position, History;
      gone, closed := gone || dropping, closed || closing;
    }

    /** One turn of a subscription. A mirror nobody holds ends it, though a frame that
        has arrived may still be taken first; a consumer that has dropped its end does
        not. */
    method Attend(move: Move<S, P>) returns (r: Option<Step>)
      requires Valid() && |past| == |patches| + 1
      modifies this, store
      ensures Valid() && (store == old(store) || fresh(store)) && old(cursor) <= cursor
      ensures (Snap(), r) == Moved(old(Snap()), past, patches, move)
      ensures old(events) <= events && old(abandoned) <= abandoned && (old(events) != [] ==> base == old(base))
      ensures r == Some(Closed) ==> closed
    {
      hide NoSilentHole, Truthful, Counted, History, Heard, Jumps, Position, News, NoJump, Reach, AllRoom, OwedAs;
      Leave(move.dropping, move.closing);
      if closed && move.noticed {
        return Some(Closed);
      }
      if !Fair(move.frame) {
        return None;
      }
      r := Take(move.frame, move.env);
    }

    /** One subscription, from open until it ends or breaks. */
    method Session(moves: seq<Move<S, P>>) returns (r: Step)
      requires Valid() && |past| == |patches| + 1
      modifies this, store
      ensures Valid() && (store == old(store) || fresh(store)) && old(cursor) <= cursor
      ensures (Snap(), r) == Subscribed(old(Snap()), past, patches, moves)
      ensures old(events) <= events && old(abandoned) <= abandoned && (old(events) != [] ==> base == old(base))
      ensures r == Closed ==> closed
    {
      hide Valid, Moved;
      ghost var was := Snap();
      assert moves[0..] == moves;
      for i := 0 to |moves|
        invariant Valid() && (store == old(store) || fresh(store)) && old(cursor) <= cursor
        invariant old(events) <= events && old(abandoned) <= abandoned && (old(events) != [] ==> base == old(base))
        invariant Subscribed(was, past, patches, moves) == Subscribed(Snap(), past, patches, moves[i..])
      {
        assert moves[i..][0] == moves[i] && moves[i..][1..] == moves[i + 1..];
        var step := Attend(moves[i]);
        if step.Some? {
          return step.value;
        }
      }
      r := Broke(false);
    }

    /** Sessions one after another, until the server closes the log, every handle is
        gone, or the failure is final. */
    method Run(sessions: seq<seq<Move<S, P>>>)
      requires Valid()
      modifies this, store
      ensures Valid() && old(cursor) <= cursor && |past| == |patches| + 1
      ensures Snap() == Followed(old(Snap()), past, patches, sessions)
      ensures old(events) <= events && old(abandoned) <= abandoned && (old(events) != [] ==> base == old(base))
    {
      hide Truthful, Counted, History, Jumps, Position, Subscribed, Displayed;
      HistoryBounds(fold, past, patches);
      ghost var was := Snap();
      assert sessions[0..] == sessions;
      for i := 0 to |sessions|
        invariant Valid() && (store == old(store) || fresh(store)) && old(cursor) <= cursor
        invariant old(events) <= events && old(abandoned) <= abandoned && (old(events) != [] ==> base == old(base))
        invariant Followed(was, past, patches, sessions) == Followed(Snap(), past, patches, sessions[i..])
      {
        assert sessions[i..][0] == sessions[i] && sessions[i..][1..] == sessions[i + 1..];
        var step := Session(sessions[i]);
        match step {
          case Closed =>
            return;
          case Restart =>
          case Ended =>
            Publish(Finished);
            return;
          case Broke(fatal) =>
            Publish(if fatal then Stopped else Reconnecting);
            if fatal {
              return;
            }
        }
        if closed {
          return;
        }
      }
    }

    predicate Fair(f: Frame<S, P>)
      requires |past| == |patches| + 1
      reads this
    {
      FairTo(Mirror(cursor, store != null, mode, dropped, events, gone, closed, 0, shown, version, status, 0),
        past, patches, f)
    }
  }

  /** What a stalled consumer is owed comes first. */
  function OwedAs<P>(dropped: Option<(nat, nat)>): seq<Event<P>> {
    if dropped.Some? then [Gap(dropped.value.0, dropped.value.1)] else []
  }

  /** The channel has room throughout. */
  ghost predicate AllRoom(rooms: seq<Room>) {
    forall i :: 0 <= i < |rooms| ==> rooms[i].forGap && rooms[i].forRecord
  }

  lemma NoneTaken<S, P>(m: Mirror<S, P>, records: seq<Record<P>>, rooms: seq<Room>)
    ensures TakenTo(m, records, rooms, 0) == m
  {
  }

  lemma TakenNext<S, P>(m: Mirror<S, P>, records: seq<Record<P>>, rooms: seq<Room>, i: nat)
    requires i < |records|
    ensures
      var before := TakenTo(m, records, rooms, i);
      TakenTo(m, records, rooms, i + 1) ==
        if records[i].version <= before.cursor then before
        else Offered(before.(cursor := records[i].version), records[i], RoomAt(rooms, i))
  {
  }

  lemma {:induction false} FirstIs<P>(records: seq<Record<P>>, cursor: nat, i: nat)
    requires i < |records| && NoJump(records[..i], cursor) && !NoJump(records[..i + 1], cursor)
    ensures !NoJump(records, cursor) && FirstJump(records, cursor) == i
    decreases |records|
  {
    if i == |records| - 1 {
      assert records[..i + 1] == records && Init(records) == records[..i];
    } else {
      assert Init(records)[..i] == records[..i] && Init(records)[..i + 1] == records[..i + 1];
      FirstIs(Init(records), cursor, i);
    }
  }

  /** With room throughout, a consumer that listens is given what it is owed and then
      the news. */
  lemma {:induction false} AllGiven<S, P>(m: Mirror<S, P>, records: seq<Record<P>>, rooms: seq<Room>, n: nat)
    requires n <= |records| && NoJump(records[..n], m.cursor)
    ensures
      var t, news := TakenTo(m, records, rooms, n), News(records[..n], m.cursor);
      && t.cursor == Reach(records[..n], m.cursor) && t.gone == m.gone
      && (!m.gone && AllRoom(rooms) ==>
            if news == [] then t.dropped == m.dropped && t.events == m.events
            else t.dropped == None && t.events == m.events + OwedAs(m.dropped) + news)
  {
    hide AllRoom, NoJump, Reach, News;
    NoneReached(records, m.cursor);
    if n > 0 {
      NoJumpNext(records, m.cursor, n - 1);
      NewsNext(records, m.cursor, n - 1);
      AllGiven(m, records, rooms, n - 1);
      RoomWhen(rooms, n - 1);
    }
  }

  lemma RoomWhen(rooms: seq<Room>, i: nat)
    ensures AllRoom(rooms) ==> RoomAt(rooms, i) == Room(true, true)
  {
  }

  lemma NoneReached<P>(records: seq<Record<P>>, cursor: nat)
    ensures NoJump(records[..0], cursor) && Reach(records[..0], cursor) == cursor && News(records[..0], cursor) == []
  {
  }

  /** The condition on closing is needed: where every handle goes while a gap waits
      for room and the consumer keeps its receiver, a record that has already arrived
      is still delivered, and the versions jump in silence. On any history of three
      patches the frames of a plain log get there. */
  method SilentAfterClose<S(==), P(==)>(fold: (S, P) -> Fold<S>, past: seq<S>, patches: seq<P>)
    returns (t: Task<S, P>)
    requires History(fold, past, patches) && |patches| >= 3
    ensures t.Valid() && t.closed && !t.gone && t.cursor == 3
    ensures t.events == [Arrived(Record(3, patches[2]))] && t.base == 0
    ensures !NoSilentHole(t.events, t.base, patches)
  {
    hide History, Truthful, Counted, NoSilentHole, NoJump, Reach, News, Jumps, Position;
    HistoryBounds(fold, past, patches);
    t := new Task(fold, past, patches);
    var step := t.Take(NotReducible, Meanwhile(Waited.Taken, [], Transient));
    step := t.Take(Hole(0, 2), Meanwhile(HandlesClosed, [], Transient));
    NextIsNews(Record(3, patches[2]), 2);
    step := t.Take(Batch([Record(3, patches[2])]), Meanwhile(Waited.Taken, [], Transient));
    JumpsAlone(Record(3, patches[2]), 0, patches);
  }

  lemma JumpsAlone<P>(r: Record<P>, base: nat, patches: seq<P>)
    requires r.version > base + 1
    ensures !NoSilentHole([Arrived(r)], base, patches)
  {
    assert StartOf([Arrived(r)][0]) > Position([Arrived(r)][..0], base);
  }

  lemma HistoryBounds<S, P>(fold: (S, P) -> Fold<S>, past: seq<S>, patches: seq<P>)
    requires History(fold, past, patches)
    ensures |past| == |patches| + 1 && |patches| <= MAX_VERSION
  {
  }

  /** Without a silent hole, every version up to where the consumer stands was
      delivered: as the log's own record, or inside an announced gap. */
  lemma {:induction false} EveryVersionTold<P>(events: seq<Event<P>>, base: nat, patches: seq<P>, version: nat)
    returns (i: nat)
    requires NoSilentHole(events, base, patches) && base < version <= Position(events, base)
    ensures i < |events| && StartOf(events[i]) < version <= EndOf(events[i])
    ensures events[i].Arrived? ==> events[i].record == Record(version, patches[version - 1])
    decreases |events|
  {
    var n := |events| - 1;
    var before := events[..n];
    assert StartOf(events[n]) <= Position(before, base) <= EndOf(events[n]);
    if version > Position(before, base) {
      i := n;
    } else {
      forall j | 0 <= j < n
        ensures StartOf(before[j]) <= Position(before[..j], base) <= EndOf(before[j]) <= |patches|
        ensures before[j].Arrived? ==> IsRecord(before[j].record, patches)
      {
        assert before[j] == events[j] && before[..j] == events[..j];
      }
      i := EveryVersionTold(before, base, patches, version);
    }
  }
}
