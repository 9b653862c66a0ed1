/** Credit end to end: the client grants what its consumer has drained, the server
    pushes no more than it was granted. */
module Credit {
  const MAX_U32: nat := 0xFFFF_FFFF
  const MAX_U64: nat := 0xFFFF_FFFF_FFFF_FFFF

  /** What the server sends down a stream. Only records cost credit. */
  datatype Message = Plumbing | Records(count: nat) | Other | End | Broken

  datatype Polled = Waiting | Closed | Failed | Got(m: Message)

  function Sum(s: seq<nat>): nat {
    if s == [] then 0 else Sum(s[..|s| - 1]) + s[|s| - 1]
  }

  function Cost(m: Message): nat {
    if m.Records? then m.count else 0
  }

  function InFlight(s: seq<Message>): nat {
    if s == [] then 0 else InFlight(s[..|s| - 1]) + Cost(s[|s| - 1])
  }

  lemma {:induction false} SumFirst(s: seq<nat>)
    requires s != []
    ensures Sum(s) == s[0] + Sum(s[1..])
    decreases |s|
  {
    if |s| > 1 {
      SumFirst(s[..|s| - 1]);
      assert s[..|s| - 1][1..] == s[1..][..|s| - 2];
    }
  }

  lemma {:induction false} InFlightFirst(s: seq<Message>)
    requires s != []
    ensures InFlight(s) == Cost(s[0]) + InFlight(s[1..])
    decreases |s|
  {
    if |s| > 1 {
      InFlightFirst(s[..|s| - 1]);
      assert s[..|s| - 1][1..] == s[1..][..|s| - 2];
    }
  }

  lemma SumMore(s: seq<nat>, x: nat)
    ensures Sum(s + [x]) == Sum(s) + x
  {
    assert (s + [x])[..|s|] == s;
  }

  lemma InFlightMore(s: seq<Message>, m: Message)
    ensures InFlight(s + [m]) == InFlight(s) + Cost(m)
  {
    assert (s + [m])[..|s|] == s;
  }

  function Saturating(a: nat, b: nat, most: nat): nat {
    if a + b <= most then a + b else most
  }

  function Threshold(window: nat): nat {
    if window / 2 < 1 then 1 else window / 2
  }

  /** What a client has drained and not turned into credit, what credit it has not
      sent, and the grants on the wire. */
  datatype Meter = Meter(drained: nat, pending: nat, up: seq<nat>)

  /** A try at granting: half a window drained becomes credit, and all the credit
      there is goes out as one grant if the command queue has room. */
  function Tried(m: Meter, window: nat, room: bool): Meter {
    var due := if m.drained >= Threshold(window) then m.drained else 0;
    var owed := m.pending + due;
    if owed > 0 && room then Meter(m.drained - due, 0, m.up + [owed]) else Meter(m.drained - due, owed, m.up)
  }

  /** So many tries, where `rooms` says at which of them there is room. */
  function TriedTimes(m: Meter, window: nat, rooms: nat -> bool, n: nat): Meter {
    if n == 0 then m else Tried(TriedTimes(m, window, rooms, n - 1), window, rooms(n - 1))
  }

  lemma NoTry(m: Meter, window: nat, rooms: nat -> bool)
    ensures TriedTimes(m, window, rooms, 0) == m
  {
  }

  lemma NextTry(m: Meter, window: nat, rooms: nat -> bool, n: nat)
    ensures TriedTimes(m, window, rooms, n + 1) == Tried(TriedTimes(m, window, rooms, n), window, rooms(n))
  {
  }

  lemma Sliced<T>(s: seq<T>, i: nat)
    requires i <= |s|
    ensures i < |s| ==> s[i..][0] == s[i] && s[i..][1..] == s[i + 1..]
    ensures s[i..] == [] <==> i == |s|
  {
  }

  /** Tries lose nothing, and one with room leaves no credit unsent. */
  lemma {:induction false} TriesKeep(m: Meter, window: nat, rooms: nat -> bool, n: nat)
    ensures
      var t := TriedTimes(m, window, rooms, n);
      && t.drained + t.pending + Sum(t.up) == m.drained + m.pending + Sum(m.up)
      && (n > 0 ==> t.drained < Threshold(window) && (rooms(n - 1) ==> t.pending == 0))
  {
    if n > 0 {
      TriesKeep(m, window, rooms, n - 1);
      var b := TriedTimes(m, window, rooms, n - 1);
      var due := if b.drained >= Threshold(window) then b.drained else 0;
      SumMore(b.up, b.pending + due);
    }
  }

  /** How many messages at the front are plumbing. */
  function Plumbed(down: seq<Message>): (n: nat)
    ensures n <= |down| && (n < |down| ==> !down[n].Plumbing?)
    ensures forall i :: 0 <= i < n ==> down[i].Plumbing?
  {
    if down == [] || !down[0].Plumbing? then 0 else 1 + Plumbed(down[1..])
  }

  /** What a consumer is handed for a message that is not plumbing. */
  function Handed(m: Message): Polled {
    match m
    case Broken => Failed
    case End => Closed
    case _ => Got(m)
  }

  /** One subscription and the two queues between client and server. */
  class Link {
    const window: nat
    // the server's flow
    var granted: nat
    var used: nat
    // the wire
    var up: seq<nat>
    var down: seq<Message>
    // the client
    var drained: nat
    var pending: nat
    var done: bool
    /** Records handed to the consumer, grants sent, grants the server has taken. */
    ghost var consumed: nat
    ghost var sent: nat
    ghost var received: nat

    ghost predicate Valid()
      reads this
    {
      && window <= MAX_U32
      && granted == Saturating(window, received, MAX_U64)
      && used <= granted
      && sent == received + Sum(up)
      && sent + pending + drained == consumed
      && used == consumed + InFlight(down)
    }

    constructor (window: nat)
      requires window <= MAX_U32
      ensures Valid() && this.window == window && up == [] && down == [] && consumed == received == 0 && !done
      ensures granted == window && used == 0 && Metered() == Meter(0, 0, [])
    {
      this.window := window;
      granted, used, up, down, drained, pending, done := window, 0, [], [], 0, 0, false;
      consumed, sent, received := 0, 0, 0;
    }

    function Metered(): Meter
      reads this`drained, this`pending, this`up
    {
      Meter(drained, pending, up)
    }

    /** Everything granted and not yet pushed, in flight, consumed but not granted
        again, or granted and on its way adds up to the window. */
    lemma Conserved()
      requires Valid()
      ensures granted - used + InFlight(down) + drained + pending + Sum(up) <= window
      ensures window + received <= MAX_U64 ==> granted - used + InFlight(down) + drained + pending + Sum(up) == window
    {
    }

    /** The server pushes records it has credit for. */
    method Push(count: nat)
      requires Valid() && 0 < count <= granted - used
      modifies this`used, this`down
      ensures Valid() && used == old(used) + count && down == old(down) + [Records(count)]
    {
      InFlightMore(down, Records(count));
      used := used + count;
      down := down + [Records(count)];
    }

    /** Anything else costs nothing. */
    method Say(m: Message)
      requires Valid() && !m.Records?
      modifies this`down
      ensures Valid() && down == old(down) + [m]
    {
      InFlightMore(down, m);
      down := down + [m];
    }

    /** The server takes a grant off the wire, saturating. */
    method Grant()
      requires Valid() && up != []
      modifies this`up, this`granted, this`received
      ensures Valid() && up == old(up)[1..] && granted == Saturating(old(granted), old(up)[0], MAX_U64)
      ensures received == old(received) + old(up)[0]
    {
      SumFirst(up);
      received := received + up[0];
      granted := Saturating(granted, up[0], MAX_U64);
      up := up[1..];
    }

    /** Turn what was drained into credit once there is half a window of it, and
        send all the credit there is if the command queue has room. */
    method MaybeGrant(room: bool)
      requires Valid()
      modifies this`drained, this`pending, this`up, this`sent
      ensures Valid() && Metered() == Tried(old(Metered()), window, room)
      ensures drained < Threshold(window) && (room ==> pending == 0)
    {
      hide Sum, InFlight, Threshold;
      Conserved();
      ThresholdIs(window);
      if drained >= Threshold(window) {
        pending := Saturating(pending, drained, MAX_U32);
        drained := 0;
      }
      if pending > 0 && room {
        var grant := pending;
        pending := 0;
        SumMore(up, grant);
        up := up + [grant];
        sent := sent + grant;
      }
    }

    /** Hand the consumer the next frame, passing over plumbing; every message taken
        is a chance to grant, and `rooms` says where the command queue has room. */
    method PollNext(rooms: nat -> bool) returns (r: Polled)
      requires Valid()
      modifies this`drained, this`pending, this`up, this`sent, this`done, this`down, this`consumed
      ensures Valid()
      ensures old(done) ==> r == Closed && done && down == old(down) && Metered() == old(Metered())
      ensures old(done) ==> consumed == old(consumed)
      ensures !old(done) ==>
        var n := Plumbed(old(down));
        var tried := TriedTimes(old(Metered()), window, rooms, n + 1);
        if n == |old(down)| then
          r == Waiting && !done && down == [] && Metered() == tried && consumed == old(consumed)
        else
          var m := old(down)[n];
          && r == Handed(m) && down == old(down)[n + 1..] && done == (m.Broken? || m.End?)
          && consumed == old(consumed) + Cost(m)
          && Metered() ==
            if m.Records? then Tried(tried.(drained := tried.drained + m.count), window, rooms(n + 1)) else tried
      ensures !r.Closed? && !r.Failed? ==> drained < Threshold(window)
    {
      hide Sum, InFlight, Threshold, Plumbed, Tried, TriedTimes, Handed;
      if done {
        return Closed;
      }
      ghost var n, was, all := Plumbed(down), Metered(), down;
      NoTry(was, window, rooms);
      var i := 0;
      while true
        invariant Valid() && consumed == old(consumed) && !done && i <= n && down == old(down)[i..]
        invariant Metered() == TriedTimes(was, window, rooms, i)
        decreases |down|
      {
        NextTry(was, window, rooms, i);
        Sliced(all, i);
        MaybeGrant(rooms(i));
        if down == [] {
          return Waiting;
        }
        if down[0].Plumbing? {
          Pass();
          i := i + 1;
          continue;
        }
        r := Hand(rooms(i + 1));
        return;
      }
    }

    /** Take a message that is not data. */
    method Pass()
      requires Valid() && down != [] && down[0].Plumbing?
      modifies this`down
      ensures Valid() && down == old(down)[1..]
    {
      hide Sum, InFlight;
      InFlightFirst(down);
      down := down[1..];
    }

    /** Take a message for the consumer; records are drained, with a try at granting
        at once. */
    method Hand(room: bool) returns (r: Polled)
      requires Valid() && !done && down != [] && !down[0].Plumbing?
      modifies this`drained, this`pending, this`up, this`sent, this`done, this`down, this`consumed
      ensures Valid()
      ensures
        var m := old(down)[0];
        && r == Handed(m) && down == old(down)[1..] && done == (m.Broken? || m.End?)
        && consumed == old(consumed) + Cost(m)
        && Metered() ==
          if m.Records? then Tried(old(Metered()).(drained := old(drained) + m.count), window, room) else old(Metered())
      ensures old(drained) < Threshold(window) ==> drained < Threshold(window)
    {
      hide Sum, InFlight, Threshold, Tried;
      InFlightFirst(down);
      Conserved();
      var m := down[0];
      down := down[1..];
      match m {
        case Broken =>
          done := true;
          r := Failed;
        case End =>
          done := true;
          r := Closed;
        case Records(count) =>
          drained := Saturating(drained, count, MAX_U32);
          consumed := consumed + count;
          MaybeGrant(room);
          r := Got(m);
        case Other =>
          r := Got(m);
      }
    }
  }

  /** A consumer that waits is never stuck: when its poll found room to grant, then
      once the server has taken every grant on the wire there is credit left exactly
      when the window is not zero, namely all of it but what was drained since. */
  method NoDeadlock(l: Link, rooms: nat -> bool) returns (r: Polled)
    requires l.Valid() && rooms(Plumbed(l.down))
    modifies l
    ensures l.Valid() && l.window + old(l.received + Sum(l.up) + l.pending + l.drained) <= MAX_U64 && r.Waiting? ==>
      && l.up == [] && l.down == [] && l.granted - l.used == l.window - l.drained
      && (l.granted - l.used >= 1 <==> l.window >= 1)
    ensures r.Waiting? <==> !old(l.done) && Plumbed(old(l.down)) == |old(l.down)|
  {
    hide Sum, Threshold;
    TriesKeep(l.Metered(), l.window, rooms, Plumbed(l.down) + 1);
    r := l.PollNext(rooms);
    if r.Waiting? {
      TakeAll(l);
    }
    l.Conserved();
    ThresholdIs(l.window);
  }

  lemma ThresholdIs(window: nat)
    ensures 1 <= Threshold(window) && (window > 0 ==> Threshold(window) <= window)
  {
  }

  /** The server takes every grant on the wire. */
  method TakeAll(l: Link)
    requires l.Valid()
    modifies l`up, l`granted, l`received
    ensures l.Valid() && l.up == [] && l.received == old(l.received + Sum(l.up))
  {
    hide Sum, InFlight;
    while l.up != []
      invariant l.Valid() && l.received + Sum(l.up) == old(l.received + Sum(l.up))
      decreases |l.up|
    {
      SumFirst(l.up);
      l.Grant();
    }
    NothingUp();
  }

  lemma NothingUp()
    ensures Sum([]) == 0
  {
  }

  /** What the server may still push never exceeds the window, nor does what it has
      pushed and the consumer not yet taken. */
  lemma OutstandingBounded(l: Link)
    requires l.Valid()
    ensures l.used <= l.granted
    ensures l.granted - l.used + InFlight(l.down) <= l.window
  {
    l.Conserved();
  }

  /** What may happen next to a link. */
  datatype Act = Pushes(count: nat) | Says(m: Message) | Takes | Polls(rooms: nat -> bool)

  datatype State = State(granted: nat, used: nat, down: seq<Message>, meter: Meter, done: bool)

  /** What an act makes of a link; a push beyond the credit, and a grant taken where
      there is none, do not happen. */
  function Acted(s: State, window: nat, act: Act): State {
    match act
    case Pushes(count) =>
      if 0 < count && s.used + count <= s.granted then
        s.(used := s.used + count, down := s.down + [Records(count)])
      else s
    case Says(m) =>
      if m.Records? then s else s.(down := s.down + [m])
    case Takes =>
      if s.meter.up == [] then s
      else s.(granted := Saturating(s.granted, s.meter.up[0], MAX_U64), meter := s.meter.(up := s.meter.up[1..]))
    case Polls(rooms) =>
      if s.done then s
      else
        var n := Plumbed(s.down);
        var tried := TriedTimes(s.meter, window, rooms, n + 1);
        if n == |s.down| then s.(down := [], meter := tried)
        else
          var m := s.down[n];
          var more := Tried(tried.(drained := tried.drained + Cost(m)), window, rooms(n + 1));
          s.(down := s.down[n + 1..], meter := if m.Records? then more else tried, done := m.Broken? || m.End?)
  }

  function Reached(window: nat, acts: seq<Act>): State {
    if acts == [] then State(window, 0, [], Meter(0, 0, []), false)
    else Acted(Reached(window, acts[..|acts| - 1]), window, acts[|acts| - 1])
  }

  ghost function StateOf(l: Link): State
    reads l
  {
    State(l.granted, l.used, l.down, l.Metered(), l.done)
  }

  method Perform(l: Link, act: Act)
    requires l.Valid()
    modifies l
    ensures l.Valid() && StateOf(l) == Acted(old(StateOf(l)), l.window, act)
  {
    hide Sum, InFlight, Plumbed, TriedTimes, Tried, Handed;
    match act {
      case Pushes(count) =>
        if 0 < count && l.used + count <= l.granted {
          l.Push(count);
        }
      case Says(m) =>
        if !m.Records? {
          l.Say(m);
        }
      case Takes =>
        if l.up != [] {
          l.Grant();
        }
      case Polls(rooms) =>
        var polled := l.PollNext(rooms);
    }
  }

  /** A run of a link: any acts of the server, the wire and the consumer, with endings
      and breaks among them, lead where they should and keep the balance. */
  method AnyRun(window: nat, acts: seq<Act>) returns (l: Link)
    requires window <= MAX_U32
    ensures l.Valid() && l.window == window && StateOf(l) == Reached(window, acts)
  {
    hide Link.Valid, Acted;
    l := new Link(window);
    assert acts[..0] == [];
    for i := 0 to |acts|
      invariant fresh(l) && l.Valid() && l.window == window && StateOf(l) == Reached(window, acts[..i])
    {
      assert acts[..i + 1][..i] == acts[..i];
      Perform(l, acts[i]);
    }
    assert acts[..|acts|] == acts;
  }
}
