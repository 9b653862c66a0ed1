/** What an actor shares with everyone else: the ring, the watermark and the storage
    floor, and what its steps do to them. */
module SharedState {
  import opened Common
  import Rings

  // ---- the ring as the end of a log ------------------------------------------

  function EntriesOf<P>(after: nat, ps: seq<P>, size: P -> nat): seq<Rings.Entry<P>> {
    seq(|ps|, i requires 0 <= i < |ps| => Rings.Entry(after + 1 + i, ps[i], size(ps[i])))
  }

  lemma EntriesMore<P>(after: nat, ps: seq<P>, p: P, size: P -> nat)
    ensures EntriesOf(after, ps + [p], size) == EntriesOf(after, ps, size) + [Rings.Entry(after + 1 + |ps|, p, size(p))]
  {
  }

  /** The ring holds the last records of the log. */
  ghost predicate RingHolds<P>(entries: seq<Rings.Entry<P>>, patches: seq<P>, size: P -> nat) {
    && |entries| <= |patches|
    && entries == EntriesOf(|patches| - |entries|, patches[|patches| - |entries|..], size)
  }

  lemma RingGrows<P>(entries: seq<Rings.Entry<P>>, patches: seq<P>, more: seq<P>, size: P -> nat, capacity: nat)
    requires RingHolds(entries, patches, size) && capacity > 0
    ensures RingHolds(Rings.LastOf(entries + EntriesOf(|patches|, more, size), capacity), patches + more, size)
  {
    var all, n := patches + more, |patches| - |entries|;
    assert all[n..] == patches[n..] + more;
    var whole := entries + EntriesOf(|patches|, more, size);
    assert whole == EntriesOf(n, all[n..], size);
    Rings.LastOfAt(whole, capacity);
    hide Rings.LastOf;
    var last := Rings.LastOf(whole, capacity);
    var drop := |whole| - |last|;
    assert last == EntriesOf(n + drop, all[n + drop..], size);
  }

  lemma EntriesLength<P>(after: nat, ps: seq<P>, size: P -> nat)
    ensures |EntriesOf(after, ps, size)| == |ps|
  {
  }

  lemma RingContiguous<P>(entries: seq<Rings.Entry<P>>, patches: seq<P>, size: P -> nat)
    requires RingHolds(entries, patches, size)
    ensures Rings.Contiguous(entries)
    ensures forall i :: 0 <= i < |entries| ==>
      entries[i] == Rings.Entry(|patches| - |entries| + 1 + i, patches[|patches| - |entries| + i],
        size(patches[|patches| - |entries| + i]))
  {
  }

  /** Versions a log has. */
  ghost predicate Known(versions: seq<nat>, n: nat) {
    forall i :: 0 <= i < |versions| ==> 1 <= versions[i] <= n
  }

  lemma KnownJoin(a: seq<nat>, b: seq<nat>, n: nat, m: nat)
    requires Known(a, n) && Known(b, m) && n <= m
    ensures Known(a + b, m)
  {
  }

  /** The entries of some versions of a log. */
  function Picked<P>(versions: seq<nat>, patches: seq<P>, size: P -> nat): seq<Rings.Entry<P>>
    requires Known(versions, |patches|)
  {
    seq(|versions|, i requires 0 <= i < |versions| =>
      Rings.Entry(versions[i], patches[versions[i] - 1], size(patches[versions[i] - 1])))
  }

  lemma PickedLater<P>(versions: seq<nat>, patches: seq<P>, later: seq<P>, size: P -> nat)
    requires Known(versions, |patches|) && patches <= later
    ensures Known(versions, |later|) && Picked(versions, later, size) == Picked(versions, patches, size)
  {
  }

  lemma PickedJoin<P>(a: seq<nat>, b: seq<nat>, patches: seq<P>, size: P -> nat)
    requires Known(a, |patches|) && Known(b, |patches|)
    ensures Known(a + b, |patches|)
    ensures Picked(a + b, patches, size) == Picked(a, patches, size) + Picked(b, patches, size)
  {
  }

  /** A ring was given these versions of a log, in order. */
  ghost predicate Feeds<P>(before: seq<Rings.Entry<P>>, after: seq<Rings.Entry<P>>, versions: seq<nat>, patches: seq<P>,
          size: P -> nat, capacity: nat) {
    Known(versions, |patches|) && after == Rings.LastOf(before + Picked(versions, patches, size), capacity)
  }

  lemma FeedsNone<P>(ring: seq<Rings.Entry<P>>, patches: seq<P>, size: P -> nat, capacity: nat)
    requires |ring| <= capacity
    ensures Feeds(ring, ring, [], patches, size, capacity)
  {
    assert ring + Picked([], patches, size) == ring;
  }

  lemma FeedsJoin<P>(s: seq<Rings.Entry<P>>, t: seq<Rings.Entry<P>>, u: seq<Rings.Entry<P>>, a: seq<nat>, b: seq<nat>,
          patches: seq<P>, later: seq<P>, size: P -> nat, capacity: nat)
    requires Feeds(s, t, a, patches, size, capacity) && Feeds(t, u, b, later, size, capacity) && patches <= later
    ensures Feeds(s, u, a + b, later, size, capacity)
  {
    hide Rings.LastOf, Picked, Known;
    PickedLater(a, patches, later, size);
    PickedJoin(a, b, later, size);
    var x, y := Picked(a, later, size), Picked(b, later, size);
    Rings.LastOfTwice(s + x, y, capacity);
    Reassociate(s, x, y);
  }

  // ---- a ring that some records never entered --------------------------------

  /** The ring holds records of the log in order, none of them at `holed`, and those
      above it are the last ones there are. */
  ghost predicate RingOf<P>(entries: seq<Rings.Entry<P>>, patches: seq<P>, holed: nat, size: P -> nat) {
    && (forall i :: 0 <= i < |entries| ==> EntryOf(entries[i], patches, size))
    && (forall i, j :: 0 <= i < j < |entries| ==> entries[i].version < entries[j].version)
    && (forall i :: 0 <= i < |entries| ==> entries[i].version != holed)
    && (forall i :: 0 <= i < |entries| && entries[i].version > holed ==>
        entries[i].version + |entries| == |patches| + 1 + i)
  }

  ghost predicate EntryOf<P>(e: Rings.Entry<P>, patches: seq<P>, size: P -> nat) {
    1 <= e.version <= |patches| && e == Rings.Entry(e.version, patches[e.version - 1], size(patches[e.version - 1]))
  }

  /** Such a ring is the end of the log exactly when the hole lies below its front. */
  lemma WholeAgain<P>(entries: seq<Rings.Entry<P>>, patches: seq<P>, holed: nat, size: P -> nat)
    requires RingOf(entries, patches, holed, size) && holed <= |patches|
    ensures RingHolds(entries, patches, size) <==> entries == [] || entries[0].version > holed
  {
    if entries != [] && entries[0].version > holed {
      var n := |patches| - |entries|;
      forall i | 0 <= i < |entries|
        ensures entries[i] == EntriesOf(n, patches[n..], size)[i]
      {
        assert EntryOf(entries[i], patches, size);
        assert i == 0 || entries[0].version < entries[i].version;
      }
      assert entries[0].version + |entries| == |patches| + 1;
    }
    if RingHolds(entries, patches, size) {
      RingHasAll(entries, patches, size, holed);
    }
  }

  /** Where such a ring starts, in the log and against the hole. */
  lemma FrontIs<P>(entries: seq<Rings.Entry<P>>, patches: seq<P>, holed: nat, size: P -> nat)
    requires RingOf(entries, patches, holed, size)
    ensures entries != [] ==> 1 <= entries[0].version <= |patches| && entries[0].version != holed
  {
    if entries != [] {
      assert EntryOf(entries[0], patches, size);
    }
  }

  lemma RingHasAll<P>(entries: seq<Rings.Entry<P>>, patches: seq<P>, size: P -> nat, version: nat)
    requires RingHolds(entries, patches, size) && version <= |patches|
    ensures entries != [] && entries[0].version <= version ==>
      exists i :: 0 <= i < |entries| && entries[i].version == version
  {
    RingContiguous(entries, patches, size);
    if entries != [] && entries[0].version <= version {
      assert entries[version - entries[0].version].version == version;
    }
  }

  /** A ring without a hole. */
  lemma HoldsIsOf<P>(entries: seq<Rings.Entry<P>>, patches: seq<P>, size: P -> nat)
    requires RingHolds(entries, patches, size)
    ensures RingOf(entries, patches, 0, size)
  {
    RingContiguous(entries, patches, size);
  }

  lemma HoledGrows<P>(entries: seq<Rings.Entry<P>>, patches: seq<P>, more: seq<P>, holed: nat, size: P -> nat,
          capacity: nat)
    requires RingOf(entries, patches, holed, size) && holed <= |patches| && capacity > 0
    ensures RingOf(Rings.LastOf(entries + EntriesOf(|patches|, more, size), capacity), patches + more, holed, size)
  {
    var all, later := entries + EntriesOf(|patches|, more, size), patches + more;
    forall i | 0 <= i < |all|
      ensures EntryOf(all[i], later, size) && all[i].version != holed
      ensures all[i].version > holed ==> all[i].version + |all| == |later| + 1 + i
    {
      if i < |entries| {
        assert EntryOf(entries[i], patches, size);
      } else {
        assert later[|patches| + (i - |entries|)] == more[i - |entries|];
      }
    }
    forall i, j | 0 <= i < j < |all|
      ensures all[i].version < all[j].version
    {
      if i < |entries| {
        assert EntryOf(entries[i], patches, size);
      }
    }
    LastKeeps(all, later, holed, size, capacity);
  }

  lemma LastKeeps<P>(entries: seq<Rings.Entry<P>>, patches: seq<P>, holed: nat, size: P -> nat, capacity: nat)
    requires RingOf(entries, patches, holed, size)
    ensures RingOf(Rings.LastOf(entries, capacity), patches, holed, size)
  {
    hide EntryOf;
    var last := Rings.LastOf(entries, capacity);
    Rings.LastOfAt(entries, capacity);
    hide Rings.LastOf;
    var drop := |entries| - |last|;
    forall i, j | 0 <= i < j < |last|
      ensures last[i].version < last[j].version
    {
      assert last[i] == entries[drop + i] && last[j] == entries[drop + j];
    }
    forall i | 0 <= i < |last|
      ensures EntryOf(last[i], patches, size) && last[i].version != holed
      ensures last[i].version > holed ==> last[i].version + |last| == |patches| + 1 + i
    {
      assert last[i] == entries[drop + i];
    }
  }

  /** Records that are written and never handed over leave a hole at their end. */
  lemma HoleOpens<P>(entries: seq<Rings.Entry<P>>, patches: seq<P>, holed: nat, later: seq<P>, size: P -> nat)
    requires RingOf(entries, patches, holed, size) && patches <= later && |patches| < |later|
    ensures RingOf(entries, later, |later|, size)
  {
    forall i | 0 <= i < |entries|
      ensures EntryOf(entries[i], later, size) && entries[i].version < |later|
    {
      assert EntryOf(entries[i], patches, size);
    }
  }

  /** The oldest version a ring could still hand out. */
  function FrontOf<P>(entries: seq<Rings.Entry<P>>, held: nat): nat {
    if entries == [] then held + 1 else entries[0].version
  }

  lemma RingFront<P>(entries: seq<Rings.Entry<P>>, patches: seq<P>, more: seq<P>, size: P -> nat, capacity: nat)
    requires RingHolds(entries, patches, size) && capacity > 0 && more != []
    ensures FrontOf(entries, |patches|) <=
      FrontOf(Rings.LastOf(entries + EntriesOf(|patches|, more, size), capacity), |patches| + |more|)
  {
    var all := entries + EntriesOf(|patches|, more, size);
    RingContiguous(entries, patches, size);
    assert forall i :: 0 <= i < |all| ==> all[i].version == |patches| - |entries| + 1 + i;
  }

  // ---- what an actor does to it ----------------------------------------------

  /** The records written, how many of them the ring was given and how many were
      announced, the first version the storage can serve, and the ring. */
  datatype Shared<P> = Shared(patches: seq<P>, held: nat, published: nat, floor: nat, ring: seq<Rings.Entry<P>>)

  /** Everything written has been told. */
  predicate AtRest<P>(s: Shared<P>) {
    s.published == s.held == |s.patches|
  }

  ghost predicate Sound<P>(s: Shared<P>, size: P -> nat) {
    && s.published <= s.held <= |s.patches| && s.floor <= |s.patches| + 1
    && RingHolds(s.ring, s.patches[..s.held], size)
  }

  /** One step of an actor: write records, hand them to the ring, announce them, or
      drop what a checkpoint covers. */
  ghost predicate Step<P>(s: Shared<P>, t: Shared<P>, capacity: nat, size: P -> nat) {
    || (AtRest(s) && s.patches <= t.patches && t == s.(patches := t.patches))
    || (s.held < |s.patches| &&
        var pushed := Rings.LastOf(s.ring + EntriesOf(s.held, s.patches[s.held..], size), capacity);
        t == s.(held := |s.patches|, ring := pushed))
    || t == s.(published := s.held)
    || (s.floor <= t.floor <= |s.patches| + 1 && t == s.(floor := t.floor))
  }

  ghost predicate Trail<P>(trail: seq<Shared<P>>, capacity: nat, size: P -> nat) {
    trail != [] && forall i :: 0 <= i < |trail| - 1 ==> Step(trail[i], trail[i + 1], capacity, size)
  }

  /** Some number of steps leads there. */
  ghost predicate Reaches<P(!new)>(s: Shared<P>, t: Shared<P>, capacity: nat, size: P -> nat) {
    exists trail: seq<Shared<P>> :: Trail(trail, capacity, size) && trail[0] == s && Last(trail) == t
  }

  lemma ReachesSelf<P(!new)>(s: Shared<P>, capacity: nat, size: P -> nat)
    ensures Reaches(s, s, capacity, size)
  {
    hide Step;
    assert Trail([s], capacity, size) && Last([s]) == s;
  }

  lemma ReachesOne<P(!new)>(s: Shared<P>, t: Shared<P>, capacity: nat, size: P -> nat)
    requires Step(s, t, capacity, size)
    ensures Reaches(s, t, capacity, size)
  {
    hide Step;
    var trail := [s, t];
    assert Trail(trail, capacity, size) && Last(trail) == t;
  }

  lemma ReachesJoin<P(!new)>(s: Shared<P>, t: Shared<P>, u: Shared<P>, capacity: nat, size: P -> nat)
    requires Reaches(s, t, capacity, size) && Reaches(t, u, capacity, size)
    ensures Reaches(s, u, capacity, size)
  {
    hide Step;
    var a: seq<Shared<P>> :| Trail(a, capacity, size) && a[0] == s && Last(a) == t;
    var b: seq<Shared<P>> :| Trail(b, capacity, size) && b[0] == t && Last(b) == u;
    var both := Init(a) + b;
    forall i | 0 <= i < |both| - 1
      ensures Step(both[i], both[i + 1], capacity, size)
    {
      if i < |a| - 1 {
        assert both[i] == a[i] && both[i + 1] == a[i + 1];
      } else {
        assert both[i] == b[i - (|a| - 1)] && both[i + 1] == b[i - (|a| - 1) + 1];
      }
    }
    assert Trail(both, capacity, size) && both[0] == s && Last(both) == u;
  }

  /** Nothing seen before is taken back. */
  ghost predicate Onward<P>(s: Shared<P>, t: Shared<P>) {
    && s.patches <= t.patches && s.held <= t.held && s.published <= t.published && s.floor <= t.floor
    && FrontOf(s.ring, s.held) <= FrontOf(t.ring, t.held)
  }

  lemma StepOnward<P>(s: Shared<P>, t: Shared<P>, capacity: nat, size: P -> nat)
    requires Sound(s, size) && Step(s, t, capacity, size) && capacity > 0
    ensures Sound(t, size) && Onward(s, t)
  {
    hide RingHolds, Rings.LastOf, EntriesOf, FrontOf;
    if AtRest(s) && s.patches <= t.patches && t == s.(patches := t.patches) {
      assert t.patches[..s.held] == s.patches[..s.held];
    } else if s.held < |s.patches| && t.held == |s.patches| && t.ring != s.ring {
      var more := s.patches[s.held..];
      RingGrows(s.ring, s.patches[..s.held], more, size, capacity);
      RingFront(s.ring, s.patches[..s.held], more, size, capacity);
      assert s.patches[..s.held] + more == t.patches[..t.held];
    } else if s.held < |s.patches| && t.held == |s.patches| {
      var more := s.patches[s.held..];
      RingGrows(s.ring, s.patches[..s.held], more, size, capacity);
      RingFront(s.ring, s.patches[..s.held], more, size, capacity);
      assert s.patches[..s.held] + more == t.patches[..t.held];
    }
  }

  lemma OnwardJoin<P>(s: Shared<P>, t: Shared<P>, u: Shared<P>)
    requires Onward(s, t) && Onward(t, u)
    ensures Onward(s, u)
  {
    hide FrontOf;
  }

  /** Whatever an actor does, the ring stays the end of what it was given, and
      records, announcements, floor and ring front never go back. */
  lemma {:induction false} OnwardAlong<P>(trail: seq<Shared<P>>, capacity: nat, size: P -> nat)
    requires Trail(trail, capacity, size) && Sound(trail[0], size) && capacity > 0
    ensures Sound(Last(trail), size) && Onward(trail[0], Last(trail))
    decreases |trail|
  {
    hide Step, Sound, FrontOf;
    if |trail| == 1 {
      assert Last(trail) == trail[0];
      assert Onward(trail[0], trail[0]);
    } else {
      var n := |trail| - 2;
      OnwardAlong(Init(trail), capacity, size);
      assert Last(Init(trail)) == trail[n] && Init(trail)[0] == trail[0];
      assert Step(trail[n], trail[n + 1], capacity, size);
      StepOnward(trail[n], trail[n + 1], capacity, size);
      OnwardJoin(trail[0], trail[n], trail[n + 1]);
    }
  }

  lemma ReachesOnward<P(!new)>(s: Shared<P>, t: Shared<P>, capacity: nat, size: P -> nat)
    requires Reaches(s, t, capacity, size) && Sound(s, size) && capacity > 0
    ensures Sound(t, size) && Onward(s, t)
  {
    hide Step, Sound, Onward;
    var trail: seq<Shared<P>> :| Trail(trail, capacity, size) && trail[0] == s && Last(trail) == t;
    OnwardAlong(trail, capacity, size);
  }

  /** A run of an actor, and what it never takes back. */
  ghost predicate Moves<P(!new)>(s: Shared<P>, t: Shared<P>, capacity: nat, size: P -> nat) {
    Reaches(s, t, capacity, size) && Onward(s, t)
  }

  lemma MovesTo<P(!new)>(s: Shared<P>, t: Shared<P>, capacity: nat, size: P -> nat)
    requires Reaches(s, t, capacity, size) && Sound(s, size) && capacity > 0
    ensures Moves(s, t, capacity, size)
  {
    hide Reaches, Onward, Sound;
    ReachesOnward(s, t, capacity, size);
  }

  lemma MovesSelf<P(!new)>(s: Shared<P>, capacity: nat, size: P -> nat)
    ensures Moves(s, s, capacity, size)
  {
    hide Reaches;
    ReachesSelf(s, capacity, size);
  }

  lemma MovesOnward<P(!new)>(s: Shared<P>, t: Shared<P>, capacity: nat, size: P -> nat)
    requires Moves(s, t, capacity, size)
    ensures Onward(s, t)
  {
  }

  lemma MovesOne<P(!new)>(s: Shared<P>, t: Shared<P>, capacity: nat, size: P -> nat)
    requires Step(s, t, capacity, size) && Sound(s, size) && capacity > 0
    ensures Moves(s, t, capacity, size)
  {
    hide Reaches, Onward, Sound, Step;
    ReachesOne(s, t, capacity, size);
    MovesTo(s, t, capacity, size);
  }

  lemma MovesJoin<P(!new)>(s: Shared<P>, t: Shared<P>, u: Shared<P>, capacity: nat, size: P -> nat)
    requires Moves(s, t, capacity, size) && Moves(t, u, capacity, size)
    ensures Moves(s, u, capacity, size)
  {
    hide Reaches, Onward;
    ReachesJoin(s, t, u, capacity, size);
    OnwardJoin(s, t, u);
  }

  /** Handing the ring what was written, announcing it and reclaiming some of the
      rest are three steps of an actor. */
  lemma HandedOut<P(!new)>(before: seq<P>, more: seq<P>, floor: nat, ring: seq<Rings.Entry<P>>, capacity: nat,
          size: P -> nat, pushed: seq<Rings.Entry<P>>, higher: nat)
    requires more != [] && pushed == Rings.LastOf(ring + EntriesOf(|before|, more, size), capacity)
    requires floor <= higher <= |before| + |more| + 1
    ensures
      var all := before + more;
      Reaches(Shared(before, |before|, |before|, floor, ring), Shared(all, |all|, |all|, higher, pushed), capacity,
        size)
  {
    hide Rings.LastOf, EntriesOf;
    var all := before + more;
    assert all[|before|..] == more;
    var trail := [
      Shared(before, |before|, |before|, floor, ring),
      Shared(all, |before|, |before|, floor, ring),
      Shared(all, |all|, |before|, floor, pushed),
      Shared(all, |all|, |all|, floor, pushed),
      Shared(all, |all|, |all|, higher, pushed)];
    assert Step(trail[0], trail[1], capacity, size);
    assert Step(trail[1], trail[2], capacity, size);
    assert Step(trail[2], trail[3], capacity, size);
    assert Step(trail[3], trail[4], capacity, size);
    assert Trail(trail, capacity, size) && Last(trail) == trail[4];
  }

  // ---- what a subscriber that fell behind is told ----------------------------

  datatype CaughtUp<P> = Run(entries: seq<Rings.Entry<P>>) | Gap(to: nat)

  /** A stretch of the log just above a version. */
  predicate RunOf<P(==)>(entries: seq<Rings.Entry<P>>, patches: seq<P>, after: nat) {
    && (entries != [] ==> after + |entries| <= |patches|)
    && forall i :: 0 <= i < |entries| ==> entries[i].version == after + 1 + i && entries[i].patch == patches[after + i]
  }

  /** What an actor answers a subscriber that missed the ring: where the storage can
      no longer serve it, the gap; else the records above it; and with nothing stored,
      the gap up to the ring. `floor` is the first version stored, `oldest` the one
      the storage names. */
  function Caught<P>(patches: seq<P>, floor: nat, oldest: nat, ring: seq<Rings.Entry<P>>, after: nat, limit: nat,
          size: P -> nat): CaughtUp<P> {
    if after + 1 < oldest then Gap(oldest - 1)
    else if limit > 0 && floor <= after + 1 <= |patches| then
      Run(EntriesOf(after, patches[after..if after + limit < |patches| then after + limit else |patches|], size))
    else if limit > 0 && after + 1 < floor <= |patches| then Gap(floor - 1)
    else if after >= |patches| then Run([])
    else if ring == [] then Gap(|patches|)
    else Gap(if ring[0].version == 0 then 0 else ring[0].version - 1)
  }

  lemma CaughtBounds<P>(patches: seq<P>, floor: nat, oldest: nat, ring: seq<Rings.Entry<P>>, after: nat, limit: nat,
          size: P -> nat)
    requires oldest <= floor <= |patches| + 1 && (ring != [] ==> 1 <= ring[0].version <= |patches|)
    ensures
      match Caught(patches, floor, oldest, ring, after, limit, size)
      case Run(es) => RunOf(es, patches, after) && |es| <= limit
      case Gap(to) => to <= |patches|
    ensures limit > 0 ==>
      CaughtRight(Caught(patches, floor, oldest, ring, after, limit, size), patches, floor, ring, after, limit)
  {
    if limit > 0 {
      CaughtIsRight(patches, floor, oldest, ring, after, limit, size);
    }
  }

  lemma CaughtIsRight<P>(patches: seq<P>, floor: nat, oldest: nat, ring: seq<Rings.Entry<P>>, after: nat, limit: nat,
          size: P -> nat)
    requires oldest <= floor <= |patches| + 1 && (ring != [] ==> 1 <= ring[0].version <= |patches|) && limit > 0
    ensures CaughtRight(Caught(patches, floor, oldest, ring, after, limit, size), patches, floor, ring, after, limit)
  {
  }

  /** What a subscriber that missed the ring may be told: a stretch of the log just
      above it, or a gap that ends below the storage floor and above it. */
  predicate CaughtRight<P(==)>(c: CaughtUp<P>, patches: seq<P>, floor: nat, ring: seq<Rings.Entry<P>>, after: nat,
          limit: nat) {
    match c
    case Run(es) => RunOf(es, patches, after) && |es| <= limit && (after < |patches| ==> es != [])
    case Gap(to) => to < floor && (ring == [] || after + 1 < ring[0].version ==> after < to)
  }

  // ---- a read of a ring with a hole ------------------------------------------

  /** Versions of a ring rise by one at least from entry to entry. */
  lemma {:induction false} Rises<P>(entries: seq<Rings.Entry<P>>, i: nat, j: nat)
    requires i <= j < |entries| && forall a, b :: 0 <= a < b < |entries| ==> entries[a].version < entries[b].version
    ensures entries[i].version + (j - i) <= entries[j].version
    decreases j
  {
    if i < j {
      Rises(entries, i, j - 1);
    }
  }

  /** Entries of a log that rise from just above a cursor are its own run there
      exactly when the last is as far above the cursor as they are many. */
  lemma RunWhen<P>(out: seq<Rings.Entry<P>>, patches: seq<P>, after: nat, size: P -> nat)
    requires forall i :: 0 <= i < |out| ==> EntryOf(out[i], patches, size) && after + 1 + i <= out[i].version
    requires forall i :: 0 <= i < |out| ==> out[i].version + (|out| - 1 - i) <= out[|out| - 1].version
    ensures RunOf(out, patches, after) <==> out == [] || out[|out| - 1].version == after + |out|
  {
    if out != [] && out[|out| - 1].version == after + |out| {
      forall i | 0 <= i < |out|
        ensures out[i].version == after + 1 + i && after + i < |patches| && out[i].patch == patches[after + i]
      {
        assert EntryOf(out[i], patches, size);
      }
    }
  }

  /** A read counts from the front and does not look at versions: whatever the ring
      never saw, what it hands out is the log's own run above the cursor exactly when
      its last version lies as far above the cursor as it is long. */
  lemma ReadAcross<P>(entries: seq<Rings.Entry<P>>, patches: seq<P>, holed: nat, size: P -> nat, after: nat, limit: nat,
          n: nat)
    requires RingOf(entries, patches, holed, size) && (entries != [] ==> entries[0].version <= after + 1)
    requires n <= |FirstOf(Rings.Above(entries, after), limit)|
    ensures
      var out := FirstOf(Rings.Above(entries, after), limit)[..n];
      RunOf(out, patches, after) <==> n == 0 || out[n - 1].version == after + n
  {
    hide *;
    if n == 0 {
      RunWhen(FirstOf(Rings.Above(entries, after), limit)[..n], patches, after, size);
    } else {
      Skipped(entries, after, limit, n);
      RunInside(entries, patches, holed, size, after + 1 - entries[0].version, after, n);
    }
  }

  lemma Skipped<P>(entries: seq<Rings.Entry<P>>, after: nat, limit: nat, n: nat)
    requires entries != [] ==> entries[0].version <= after + 1
    requires 0 < n <= |FirstOf(Rings.Above(entries, after), limit)|
    ensures entries != [] && after + 1 - entries[0].version + n <= |entries|
    ensures
      var skip := after + 1 - entries[0].version;
      FirstOf(Rings.Above(entries, after), limit)[..n] == entries[skip..skip + n]
  {
  }

  lemma RunInside<P>(entries: seq<Rings.Entry<P>>, patches: seq<P>, holed: nat, size: P -> nat, skip: nat, after: nat,
          n: nat)
    requires RingOf(entries, patches, holed, size) && 0 < n && skip + n <= |entries|
    requires entries[0].version + skip == after + 1
    ensures RunOf(entries[skip..skip + n], patches, after) <==> entries[skip + n - 1].version == after + n
  {
    hide RunOf, EntryOf;
    var out := entries[skip..skip + n];
    forall i | 0 <= i < n
      ensures EntryOf(out[i], patches, size) && after + 1 + i <= out[i].version
      ensures out[i].version + (n - 1 - i) <= out[n - 1].version
    {
      Rises(entries, 0, skip + i);
      Rises(entries, skip + i, skip + n - 1);
    }
    RunWhen(out, patches, after, size);
  }
}
