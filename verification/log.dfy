/** A data structure made durable by a storage: two counters, one moved by
    folding and one by writing, kept equal between calls. */
module Logs {
  import opened Common

  /** What folding a patch into a state does. */
  datatype Fold<S> = Reject | Same | New(state: S)

  /** A state and the version that names it. */
  datatype View<S> = View(version: nat, state: S)

  datatype Record<P> = Record(version: nat, patch: P)

  datatype Durability = Memory | Written | Durable

  datatype Fault = Data | Storage | Version(wanted: nat, minted: nat)

  datatype Outcome<T> = Done(value: T) | Failed(fault: Fault)

  // ---- folding many patches ---------------------------------------------

  /** A patch the structure takes: not rejected, and with a version left to mint. */
  predicate Takes<S, P>(fold: (S, P) -> Fold<S>, v: View<S>, p: P) {
    match fold(v.state, p)
    case Reject => false
    case Same => true
    case New(_) => v.version < MAX_VERSION
  }

  function Next<S, P>(fold: (S, P) -> Fold<S>, v: View<S>, p: P): View<S>
    requires Takes(fold, v, p)
  {
    match fold(v.state, p)
    case Same => v
    case New(s) => View(v.version + 1, s)
  }

  predicate Accepts<S, P>(fold: (S, P) -> Fold<S>, v: View<S>, ps: seq<P>)
    decreases |ps|, 0
  {
    ps == [] || (Accepts(fold, v, Init(ps)) && Takes(fold, Final(fold, v, Init(ps)), Last(ps)))
  }

  /** The view after all of them. */
  function Final<S, P>(fold: (S, P) -> Fold<S>, v: View<S>, ps: seq<P>): View<S>
    requires Accepts(fold, v, ps)
    decreases |ps|, 1
  {
    if ps == [] then v else Next(fold, Final(fold, v, Init(ps)), Last(ps))
  }

  /** The view after each of them. */
  function Seen<S, P>(fold: (S, P) -> Fold<S>, v: View<S>, ps: seq<P>): seq<View<S>>
    requires Accepts(fold, v, ps)
    decreases |ps|
  {
    if ps == [] then [] else Seen(fold, v, Init(ps)) + [Final(fold, v, ps)]
  }

  /** The patches that changed something, each with the state it made. */
  function Minted<S, P>(fold: (S, P) -> Fold<S>, v: View<S>, ps: seq<P>): seq<(P, S)>
    requires Accepts(fold, v, ps)
    decreases |ps|
  {
    if ps == [] then []
    else
      var before, after := Final(fold, v, Init(ps)), Final(fold, v, ps);
      Minted(fold, v, Init(ps)) + if fold(before.state, Last(ps)).New? then [(Last(ps), after.state)] else []
  }

  function Patches<S, P>(made: seq<(P, S)>): seq<P> {
    seq(|made|, i requires 0 <= i < |made| => made[i].0)
  }

  function States<S, P>(made: seq<(P, S)>): seq<S> {
    seq(|made|, i requires 0 <= i < |made| => made[i].1)
  }

  /** Records of consecutive versions above `after`. */
  function Records<P>(after: nat, ps: seq<P>): seq<Record<P>> {
    seq(|ps|, i requires 0 <= i < |ps| => Record(after + 1 + i, ps[i]))
  }

  // ---- histories ---------------------------------------------------------

  /** Every state from version zero, and the patch that made each next one. */
  ghost predicate History<S, P>(fold: (S, P) -> Fold<S>, past: seq<S>, patches: seq<P>) {
    && |past| == |patches| + 1 && |patches| <= MAX_VERSION
    && forall i :: 0 <= i < |patches| ==> fold(past[i], patches[i]) == New(past[i + 1])
  }

  ghost function Current<S>(past: seq<S>): View<S>
    requires past != []
  {
    View(|past| - 1, past[|past| - 1])
  }

  lemma StatesMore<S, P>(made: seq<(P, S)>, p: P, s: S)
    ensures States(made + [(p, s)]) == States(made) + [s] && Patches(made + [(p, s)]) == Patches(made) + [p]
  {
  }

  /** Folding extends a history by exactly what was minted. */
  lemma {:induction false} HistoryGrows<S, P>(fold: (S, P) -> Fold<S>, past: seq<S>, patches: seq<P>, ps: seq<P>)
    requires History(fold, past, patches) && Accepts(fold, Current(past), ps)
    ensures
      var made := Minted(fold, Current(past), ps);
      && History(fold, past + States(made), patches + Patches(made))
      && Final(fold, Current(past), ps) == Current(past + States(made))
    decreases |ps|
  {
    if ps == [] {
      assert past + [] == past && patches + [] == patches;
    } else {
      var v := Current(past);
      HistoryGrows(fold, past, patches, Init(ps));
      var made := Minted(fold, v, Init(ps));
      var before := Final(fold, v, Init(ps));
      if fold(before.state, Last(ps)).New? {
        var s := fold(before.state, Last(ps)).state;
        StatesMore(made, Last(ps), s);
        assert past + (States(made) + [s]) == past + States(made) + [s];
        assert patches + (Patches(made) + [Last(ps)]) == patches + Patches(made) + [Last(ps)];
        HistoryStep(fold, past + States(made), patches + Patches(made), Last(ps), s);
      } else {
        assert Minted(fold, v, ps) == made;
      }
    }
  }

  lemma HistoryStep<S, P>(fold: (S, P) -> Fold<S>, past: seq<S>, patches: seq<P>, p: P, s: S)
    requires History(fold, past, patches) && fold(Current(past).state, p) == New(s) && |patches| < MAX_VERSION
    ensures History(fold, past + [s], patches + [p])
  {
  }

  // ---- the structure ---------------------------------------------------------

  datatype Applied<S> = Rejected | Unchanged | Published(view: View<S>)

  /** The view kept of a version, where states are kept from `base` on. */
  function Retained<S>(base: nat, states: seq<S>, version: nat): Option<View<S>> {
    if base <= version < base + |states| then Some(View(version, states[version - base])) else None
  }

  /** What is kept once an earlier version is current again. */
  function Truncated<S>(base: nat, states: seq<S>, version: nat): seq<S> {
    if base <= version < base + |states| then states[..version - base + 1] else states
  }

  /** A structure that keeps the state of every version from its base on. */
  class Data<S, P> {
    const fold: (S, P) -> Fold<S>
    const base: nat
    var states: seq<S>

    ghost predicate Valid()
      reads this
    {
      states != [] && base + |states| <= MAX_VERSION + 1
    }

    function Now(): View<S>
      requires Valid()
      reads this
    {
      View(base + |states| - 1, states[|states| - 1])
    }

    /** Resume from a view, which becomes the base. */
    constructor (fold: (S, P) -> Fold<S>, view: View<S>)
      requires view.version <= MAX_VERSION
      ensures Valid() && this.fold == fold && base == view.version && states == [view.state]
    {
      this.fold, base, states := fold, view.version, [view.state];
    }

    method ViewAt(version: nat) returns (r: Option<View<S>>)
      requires Valid()
      ensures r == Retained(base, states, version)
    {
      if version < base || version - base >= |states| {
        return None;
      }
      r := Some(View(version, states[version - base]));
    }

    /** Stage one patch and commit it. */
    method Apply(p: P) returns (r: Applied<S>)
      requires Valid()
      modifies this
      ensures Valid()
      ensures r.Rejected? <==> !Takes(fold, old(Now()), p)
      ensures r.Published? <==> Takes(fold, old(Now()), p) && fold(old(Now()).state, p).New?
      ensures !r.Rejected? ==> Now() == Next(fold, old(Now()), p)
      ensures r.Published? ==> r.view == Now() && states == old(states) + [Now().state]
      ensures !r.Published? ==> states == old(states)
    {
      match fold(states[|states| - 1], p) {
        case Reject =>
          r := Rejected;
        case Same =>
          r := Unchanged;
        case New(s) =>
          if base + |states| - 1 == MAX_VERSION {
            return Rejected;
          }
          states := states + [s];
          r := Published(Now());
      }
    }

    /** Make an earlier version current again. */
    method Truncate(version: nat)
      requires Valid()
      modifies this
      ensures Valid()
      ensures states == Truncated(base, old(states), version)
    {
      if base <= version < base + |states| {
        states := states[..version - base + 1];
      }
    }
  }

  // ---- the storage contract ---------------------------------------------------

  /** The first `n` records stand at or below the header. */
  ghost predicate Beneath<S, P>(records: seq<Record<P>>, header: Option<View<S>>, n: nat)
    requires n <= |records|
  {
    forall i :: 0 <= i < n ==> header.Some? && records[i].version <= header.value.version
  }

  function Higher<P>(records: seq<Record<P>>, after: nat): seq<Record<P>> {
    if records == [] || records[0].version > after then records else Higher(records[1..], after)
  }

  /** What a storage holds: its records and header, how many versions the last flush
      put out of reach of a power cut, and how many have been written. */
  datatype Holding<S, P> = Holding(records: seq<Record<P>>, header: Option<View<S>>, durable: nat, top: nat)

  /** A flush may happen that was not asked for. */
  ghost predicate Flushed<S, P>(s: Holding<S, P>, t: Holding<S, P>) {
    t.durable == s.durable || s.durable <= t.durable <= t.top
  }

  /** An append happens whole or not at all. */
  ghost predicate Appended<S, P>(s: Holding<S, P>, more: seq<Record<P>>, ok: bool, t: Holding<S, P>) {
    && t.header == s.header && Flushed(s, t)
    && t.records == (if ok then s.records + more else s.records)
    && t.top == (if ok then s.top + |more| else s.top)
  }

  ghost predicate Synced<S, P>(s: Holding<S, P>, ok: bool, t: Holding<S, P>) {
    t == s.(durable := if ok then s.top else s.durable)
  }

  /** A header stands only over flushed records, and only records it covers go. */
  ghost predicate HeaderWritten<S, P>(s: Holding<S, P>, view: View<S>, ok: bool, dropped: nat, t: Holding<S, P>) {
    && t.top == s.top && dropped <= |s.records| && t.records == s.records[dropped..]
    && ((t.header == s.header && dropped == 0 && !ok) || (t.header == Some(view) && t.durable == t.top))
    && (forall i :: 0 <= i < dropped ==> s.records[i].version <= view.version)
    && (t.durable == s.durable || t.durable == t.top)
  }

  /** A load gives the header, and at least the records above it. */
  ghost predicate Loaded<S, P>(s: Holding<S, P>, found: Option<View<S>>, tail: seq<Record<P>>, skipped: nat,
          t: Holding<S, P>) {
    && t == s.(durable := t.durable) && Flushed(s, t)
    && found == s.header && skipped <= |s.records| && tail == s.records[skipped..]
    && Beneath(s.records, s.header, skipped)
  }

  /** A power cut, perhaps in the middle of an append: what no flush covers may be
      lost, and otherwise some of the batch may be found, from its first record on. */
  ghost predicate Cut<S, P>(s: Holding<S, P>, more: seq<Record<P>>, t: Holding<S, P>) {
    && t.header == s.header && s.durable <= t.durable <= t.top <= s.top + |more|
    && |t.records| == |s.records| + t.top - s.top && t.records == (s.records + more)[..|t.records|]
  }

  /** The first version still stored, or the next to be. */
  function FloorOf<P>(records: seq<Record<P>>, top: nat): nat {
    if records == [] then top + 1 else records[0].version
  }

  /** Whether the next of a run of calls works; calls past its end do. */
  predicate Works(fates: seq<bool>) {
    fates == [] || fates[0]
  }

  function Later(fates: seq<bool>): seq<bool> {
    if fates == [] then [] else fates[1..]
  }

  ghost predicate AllWork(fates: seq<bool>) {
    forall i :: 0 <= i < |fates| ==> fates[i]
  }

  /** Any storage that keeps its promises. Whether each call succeeds is not ours to
      say: `fates` decides it. */
  class Storage<S, P> {
    var records: seq<Record<P>>
    var header: Option<View<S>>
    /** How many versions the last flush put out of reach of a power cut. */
    var durable: nat
    /** How many versions have been written. */
    var top: nat
    /** Whether each coming call works. */
    var fates: seq<bool>
    /** A version nothing below which is claimed to be readable. */
    var horizon: nat

    ghost function Held(): Holding<S, P>
      reads this
    {
      Holding(records, header, durable, top)
    }

    constructor ()
      ensures records == [] && header == None && durable == 0 && top == 0 && fates == [] && horizon == 1
    {
      records, header, durable, top, fates, horizon := [], None, 0, 0, [], 1;
    }

    method Append(more: seq<Record<P>>) returns (ok: bool)
      modifies this`records, this`top, this`durable, this`fates
      ensures Appended(old(Held()), more, ok, Held())
      ensures ok == Works(old(fates)) && fates == Later(old(fates))
    {
      ok, fates := Works(fates), Later(fates);
      if ok {
        records, top := records + more, top + |more|;
      }
      Reach();
    }

    /** What is to become of the coming calls. */
    method Doom(fates: seq<bool>)
      modifies this`fates
      ensures this.fates == fates
    {
      this.fates := fates;
    }

    /** A flush the caller did not ask for. */
    method Reach()
      modifies this`durable
      ensures Flushed(old(Held()), Held())
    {
      var reached: nat := *;
      if durable <= reached <= top {
        durable := reached;
      }
    }

    /** Lose power, in the middle of an append if there is one, and with it the last
        `lost` of what no flush covers. */
    method PowerCut(more: seq<Record<P>>, lost: nat)
      requires durable <= top && top - |records| <= durable && lost <= top + |more| - durable
      modifies this`records, this`top, this`durable
      ensures Cut(old(Held()), more, Held()) && top == old(top) + |more| - lost
    {
      records := (records + more)[..|records| + |more| - lost];
      top := top + |more| - lost;
      Reach();
    }

    method Sync() returns (ok: bool)
      modifies this`durable, this`fates
      ensures Synced(old(Held()), ok, Held())
      ensures ok == Works(old(fates)) && fates == Later(old(fates))
    {
      ok, fates := Works(fates), Later(fates);
      if ok {
        durable := top;
      }
    }

    /** Flush, publish the header, then drop some of what it covers. A call that fails
        may have got anywhere. */
    method WriteHeader(view: View<S>) returns (ok: bool, ghost dropped: nat)
      modifies this
      ensures HeaderWritten(old(Held()), view, ok, dropped, Held())
      ensures ok == Works(old(fates)) && fates == Later(old(fates))
    {
      ok, fates := Works(fates), Later(fates);
      dropped := 0;
      var step: bool := *;
      if !ok && !step {
        return;
      }
      durable := top;
      header := Some(view);
      var more: bool := *;
      while more && records != [] && records[0].version <= view.version
        invariant top == old(top) && durable == top && header == Some(view) && fates == Later(old(fates))
        invariant dropped <= |old(records)| && records == old(records)[dropped..]
        invariant forall i :: 0 <= i < dropped ==> old(records)[i].version <= view.version
        decreases |records|
      {
        records := records[1..];
        dropped := dropped + 1;
        more := *;
      }
      horizon := *;
    }

    /** The first `limit` records above a version, or a refusal. */
    method ReadAfter(after: nat, limit: nat) returns (ok: bool, out: seq<Record<P>>)
      modifies this`fates
      ensures ok == Works(old(fates)) && fates == Later(old(fates))
      ensures ok ==> out == FirstOf(Higher(records, after), limit)
    {
      ok, fates := Works(fates), Later(fates);
      out := if ok then FirstOf(Higher(records, after), limit) else [];
    }

    /** A version nothing below which can be read; it may be lower than the first
        record there is. */
    function Oldest(): (oldest: nat)
      reads this
      ensures oldest <= Floor()
    {
      if horizon <= Floor() then horizon else Floor()
    }

    function Floor(): nat
      reads this
    {
      FloorOf(records, top)
    }

    /** What a cold start finds: the header, and at least the records above it. */
    method Load() returns (ok: bool, found: Option<View<S>>, tail: seq<Record<P>>, ghost skipped: nat)
      modifies this`durable, this`fates
      ensures Loaded(old(Held()), found, tail, skipped, Held())
      ensures ok == Works(old(fates)) && fates == Later(old(fates))
    {
      Reach();
      ok, fates := Works(fates), Later(fates);
      found, tail, skipped := header, records, 0;
      var skip: bool := *;
      while skip && tail != [] && header.Some? && tail[0].version <= header.value.version
        invariant skipped <= |records| && tail == records[skipped..] && Beneath(records, header, skipped)
        decreases |tail|
      {
        assert tail[0] == records[skipped];
        tail, skipped := tail[1..], skipped + 1;
        skip := *;
      }
    }
  }

  /** The storage holds the end of a history, from no later than its header on. */
  ghost predicate Stored<S, P>(records: seq<Record<P>>, header: Option<View<S>>, past: seq<S>, patches: seq<P>)
    requires |past| == |patches| + 1
  {
    && |records| <= |patches|
    && records == Records(|patches| - |records|, patches[|patches| - |records|..])
    && match header
       case None => |records| == |patches|
       case Some(h) => h.version <= |patches| && h.state == past[h.version] && |patches| - |records| <= h.version
  }

  lemma StoredAppend<S, P>(records: seq<Record<P>>, header: Option<View<S>>, past: seq<S>, patches: seq<P>,
          states: seq<S>, more: seq<P>)
    requires |past| == |patches| + 1 && |states| == |more| && Stored(records, header, past, patches)
    ensures Stored(records + Records(|patches|, more), header, past + states, patches + more)
  {
    var all, n := patches + more, |patches| - |records|;
    assert all[n..] == patches[n..] + more;
    assert records + Records(|patches|, more) == Records(n, all[n..]);
  }

  lemma StoredHeader<S, P>(records: seq<Record<P>>, header: Option<View<S>>, past: seq<S>, patches: seq<P>,
          view: View<S>, dropped: nat)
    requires |past| == |patches| + 1 && Stored(records, header, past, patches) && view == Current(past)
    requires dropped <= |records|
    ensures Stored(records[dropped..], Some(view), past, patches)
  {
    var n := |patches| - |records|;
    assert records[dropped..] == Records(n + dropped, patches[n + dropped..]);
  }

  /** Losing the end of the storage, down to the header at most, leaves it holding
      the end of a shorter history. */
  lemma StoredPrefix<S, P>(records: seq<Record<P>>, header: Option<View<S>>, past: seq<S>, patches: seq<P>,
          version: nat)
    requires |past| == |patches| + 1 && Stored(records, header, past, patches)
    requires |patches| - |records| <= version <= |patches| && (header.Some? ==> header.value.version <= version)
    ensures Stored(records[..version - (|patches| - |records|)], header, past[..version + 1], patches[..version])
  {
    var n := |patches| - |records|;
    assert records[..version - n] == Records(n, patches[..version][n..]);
  }

  lemma HistoryPrefix<S, P>(fold: (S, P) -> Fold<S>, past: seq<S>, patches: seq<P>, version: nat)
    requires History(fold, past, patches) && version <= |patches|
    ensures History(fold, past[..version + 1], patches[..version])
  {
  }

  lemma Prefixes<S, P>(fold: (S, P) -> Fold<S>, v: View<S>, ps: seq<P>, i: nat)
    requires i < |ps| && Accepts(fold, v, ps[..i])
    ensures Accepts(fold, v, ps[..i + 1]) <==> Takes(fold, Final(fold, v, ps[..i]), ps[i])
    ensures Accepts(fold, v, ps[..i + 1]) ==>
      var before, after := Final(fold, v, ps[..i]), Final(fold, v, ps[..i + 1]);
      && after == Next(fold, before, ps[i])
      && Seen(fold, v, ps[..i + 1]) == Seen(fold, v, ps[..i]) + [after]
      && Minted(fold, v, ps[..i + 1]) ==
          Minted(fold, v, ps[..i]) + (if fold(before.state, ps[i]).New? then [(ps[i], after.state)] else [])
  {
    assert Init(ps[..i + 1]) == ps[..i] && Last(ps[..i + 1]) == ps[i];
  }

  lemma {:induction false} AcceptsPrefix<S, P>(fold: (S, P) -> Fold<S>, v: View<S>, ps: seq<P>, i: nat)
    requires Accepts(fold, v, ps) && i <= |ps|
    ensures Accepts(fold, v, ps[..i])
    decreases |ps|
  {
    if i < |ps| {
      AcceptsPrefix(fold, v, Init(ps), i);
      assert Init(ps)[..i] == ps[..i];
    } else {
      assert ps[..i] == ps;
    }
  }

  lemma {:induction false} FinalVersion<S, P>(fold: (S, P) -> Fold<S>, v: View<S>, ps: seq<P>)
    requires Accepts(fold, v, ps)
    ensures Final(fold, v, ps).version == v.version + |Minted(fold, v, ps)|
    decreases |ps|
  {
    if ps != [] {
      FinalVersion(fold, v, Init(ps));
    }
  }

  lemma RecordsMore<P>(after: nat, ps: seq<P>, p: P)
    ensures Records(after, ps + [p]) == Records(after, ps) + [Record(after + 1 + |ps|, p)]
  {
  }

  // ---- replay -----------------------------------------------------------------

  /** Records that fold onto a view, each at the version it names; those at or
      below the view are skipped. */
  predicate Fits<S, P>(fold: (S, P) -> Fold<S>, v: View<S>, tail: seq<Record<P>>)
    decreases |tail|, 0
  {
    tail == [] || (Fits(fold, v, Init(tail)) && FitsOn(fold, Reached(fold, v, Init(tail)), Last(tail)))
  }

  predicate FitsOn<S, P>(fold: (S, P) -> Fold<S>, v: View<S>, r: Record<P>) {
    r.version <= v.version || (Takes(fold, v, r.patch) && fold(v.state, r.patch).New? && r.version == v.version + 1)
  }

  function Reached<S, P>(fold: (S, P) -> Fold<S>, v: View<S>, tail: seq<Record<P>>): View<S>
    requires Fits(fold, v, tail)
    decreases |tail|, 1
  {
    if tail == [] then v
    else
      var before := Reached(fold, v, Init(tail));
      if Last(tail).version <= before.version then before else Next(fold, before, Last(tail).patch)
  }

  /** The states replay adds. */
  function Grown<S, P>(fold: (S, P) -> Fold<S>, v: View<S>, tail: seq<Record<P>>): seq<S>
    requires Fits(fold, v, tail)
    decreases |tail|
  {
    if tail == [] then []
    else if Last(tail).version <= Reached(fold, v, Init(tail)).version then Grown(fold, v, Init(tail))
    else Grown(fold, v, Init(tail)) + [Reached(fold, v, tail).state]
  }

  lemma {:induction false} FitsPrefix<S, P>(fold: (S, P) -> Fold<S>, v: View<S>, tail: seq<Record<P>>, i: nat)
    requires Fits(fold, v, tail) && i <= |tail|
    ensures Fits(fold, v, tail[..i])
    decreases |tail|
  {
    if i < |tail| {
      FitsPrefix(fold, v, Init(tail), i);
      assert Init(tail)[..i] == tail[..i];
    } else {
      assert tail[..i] == tail;
    }
  }

  lemma FitsNext<S, P>(fold: (S, P) -> Fold<S>, v: View<S>, tail: seq<Record<P>>, i: nat)
    requires i < |tail| && Fits(fold, v, tail[..i])
    ensures Fits(fold, v, tail[..i + 1]) <==> FitsOn(fold, Reached(fold, v, tail[..i]), tail[i])
    ensures Fits(fold, v, tail[..i + 1]) ==>
      var before, after := Reached(fold, v, tail[..i]), Reached(fold, v, tail[..i + 1]);
      && after == (if tail[i].version <= before.version then before else Next(fold, before, tail[i].patch))
      && Grown(fold, v, tail[..i + 1]) ==
          Grown(fold, v, tail[..i]) + (if tail[i].version <= before.version then [] else [after.state])
  {
    assert Init(tail[..i + 1]) == tail[..i] && Last(tail[..i + 1]) == tail[i];
  }

  lemma FitsNone<S, P>(fold: (S, P) -> Fold<S>, v: View<S>)
    ensures Fits(fold, v, []) && Reached(fold, v, []) == v && Grown(fold, v, []) == []
  {
  }

  /** Why the first record that does not fit does not: it is rejected, or mints
      another version, or none at all. */
  ghost predicate Misfit<S, P>(fold: (S, P) -> Fold<S>, v: View<S>, tail: seq<Record<P>>, i: nat, fault: Fault) {
    && i < |tail| && Fits(fold, v, tail[..i]) && tail[i].version > Reached(fold, v, tail[..i]).version
    && var before := Reached(fold, v, tail[..i]);
      if !Takes(fold, before, tail[i].patch) then fault == Fault.Data
      else
        var minted := if fold(before.state, tail[i].patch).New? then before.version + 1 else 0;
        minted != tail[i].version && fault == Version(tail[i].version, minted)
  }

  /** Fold a tail onto a structure, checking that each record mints the version it
      was stored under. */
  method Replay<S, P>(data: Data<S, P>, tail: seq<Record<P>>) returns (r: Outcome<()>)
    requires data.Valid()
    modifies data
    ensures data.Valid()
    ensures r.Done? <==> Fits(data.fold, old(data.Now()), tail)
    ensures r.Done? ==> data.states == old(data.states) + Grown(data.fold, old(data.Now()), tail)
    ensures r.Done? ==> data.Now() == Reached(data.fold, old(data.Now()), tail)
    ensures r.Failed? ==> exists i: nat :: Misfit(data.fold, old(data.Now()), tail, i, r.fault)
  {
    hide Fits, Grown, Reached;
    ghost var v := data.Now();
    FitsNone(data.fold, v);
    for i := 0 to |tail|
      invariant data.Valid() && Fits(data.fold, v, tail[..i]) && data.Now() == Reached(data.fold, v, tail[..i])
      invariant data.states == old(data.states) + Grown(data.fold, v, tail[..i])
    {
      FitsNext(data.fold, v, tail, i);
      if tail[i].version <= data.Now().version {
        continue;
      }
      if Fits(data.fold, v, tail) {
        FitsPrefix(data.fold, v, tail, i + 1);
      }
      var applied := data.Apply(tail[i].patch);
      if applied.Rejected? {
        assert Misfit(data.fold, v, tail, i, Fault.Data);
        return Failed(Fault.Data);
      }
      var minted := if applied.Published? then applied.view.version else 0;
      if minted != tail[i].version {
        assert Misfit(data.fold, v, tail, i, Version(tail[i].version, minted));
        return Failed(Version(tail[i].version, minted));
      }
    }
    assert tail[..|tail|] == tail;
    r := Done(());
  }

  /** Where the tail of a history starts below a version, it fits on that version's
      view and leads to the end. */
  lemma {:induction false} StoredFits<S, P>(fold: (S, P) -> Fold<S>, past: seq<S>, patches: seq<P>, base: nat,
          after: nat, i: nat)
    requires History(fold, past, patches) && after <= base <= |patches| && i <= |patches| - after
    ensures
      var tail, v := Records(after, patches[after..])[..i], View(base, past[base]);
      && Fits(fold, v, tail)
      && (after + i <= base ==> Reached(fold, v, tail) == v && Grown(fold, v, tail) == [])
      && (after + i > base ==>
            && Reached(fold, v, tail) == View(after + i, past[after + i])
            && Grown(fold, v, tail) == past[base + 1..after + i + 1])
    decreases i
  {
    hide Fits, Reached, Grown, FitsOn, Next, History, Records;
    HistoryLengths(fold, past, patches);
    var all, v := Records(after, patches[after..]), View(base, past[base]);
    RecordsAre(after, patches[after..]);
    if i == 0 {
      FitsNone(fold, v);
    } else {
      StoredFits(fold, past, patches, base, after, i - 1);
      var before := all[..i - 1];
      StoredStep(fold, past, patches, base, after + i - 1, all[i - 1], Reached(fold, v, before),
        Grown(fold, v, before));
      FitsNext(fold, v, all, i - 1);
    }
  }

  lemma HistoryLengths<S, P>(fold: (S, P) -> Fold<S>, past: seq<S>, patches: seq<P>)
    requires History(fold, past, patches)
    ensures |past| == |patches| + 1
  {
  }

  lemma RecordsAre<P>(after: nat, ps: seq<P>)
    ensures |Records(after, ps)| == |ps|
      && forall i :: 0 <= i < |ps| ==> Records(after, ps)[i] == Record(after + 1 + i, ps[i])
  {
  }

  /** One record of a history on top of the ones below it. */
  lemma StoredStep<S, P>(fold: (S, P) -> Fold<S>, past: seq<S>, patches: seq<P>, base: nat, k: nat, r: Record<P>,
          before: View<S>, grown: seq<S>)
    requires History(fold, past, patches) && base <= |patches| && k < |patches| && r == Record(k + 1, patches[k])
    requires k <= base ==> before == View(base, past[base]) && grown == []
    requires k > base ==> before == View(k, past[k]) && grown == past[base + 1..k + 1]
    ensures FitsOn(fold, before, r)
    ensures r.version <= before.version ==> k + 1 <= base && before == View(base, past[base]) && grown == []
    ensures r.version > before.version ==>
      k + 1 > base && Next(fold, before, r.patch) == View(k + 1, past[k + 1])
        && grown + [past[k + 1]] == past[base + 1..k + 2]
  {
    HistoryAt(fold, past, patches, k);
    if k >= base {
      SliceMore(past, base + 1, k + 1);
    }
  }

  lemma HistoryAt<S, P>(fold: (S, P) -> Fold<S>, past: seq<S>, patches: seq<P>, i: nat)
    requires History(fold, past, patches) && i < |patches|
    ensures fold(past[i], patches[i]) == New(past[i + 1]) && i < MAX_VERSION
  {
  }

  lemma SliceMore<T>(s: seq<T>, a: nat, b: nat)
    requires a <= b < |s|
    ensures s[a..b] + [s[b]] == s[a..b + 1] && s[a..a] == []
  {
  }

  lemma HeaderInHistory<S, P>(fold: (S, P) -> Fold<S>, records: seq<Record<P>>, header: Option<View<S>>, past: seq<S>,
          patches: seq<P>)
    requires History(fold, past, patches) && Stored(records, header, past, patches)
    ensures |patches| <= MAX_VERSION && |past| == |patches| + 1
    ensures header.Some? ==> header.value.version <= |patches| && header.value.state == past[header.value.version]
  {
  }

  lemma RecordsDrop<P>(after: nat, ps: seq<P>, k: nat)
    requires k <= |ps|
    ensures Records(after, ps)[k..] == Records(after + k, ps[k..])
  {
  }

  /** What a load skips, it may skip. */
  lemma SkippedCovered<S, P>(records: seq<Record<P>>, header: Option<View<S>>, past: seq<S>, patches: seq<P>,
          skipped: nat)
    requires |past| == |patches| + 1 && Stored(records, header, past, patches) && skipped <= |records|
    requires Beneath(records, header, skipped)
    ensures |records| <= |patches|
      && |patches| - |records| + skipped <= if header.Some? then header.value.version else 0
    ensures records[skipped..] == Records(|patches| - |records| + skipped, patches[|patches| - |records| + skipped..])
  {
    var n := |patches| - |records|;
    if skipped > 0 {
      assert records[skipped - 1].version == n + skipped;
    }
    RecordsDrop(n, patches[n..], skipped);
    assert patches[n..][skipped..] == patches[n + skipped..];
  }

  lemma KeptFrom<S, P>(records: seq<Record<P>>, header: Option<View<S>>, past: seq<S>, patches: seq<P>)
    requires |past| == |patches| + 1 && Stored(records, header, past, patches)
    ensures |records| <= |patches| && |patches| - |records| <= if header.Some? then header.value.version else 0
  {
  }

  /** What a load returns fits on the header, or on the first state, and leads to
      the end of the history. */
  lemma TailFits<S, P>(fold: (S, P) -> Fold<S>, records: seq<Record<P>>, header: Option<View<S>>, past: seq<S>,
          patches: seq<P>, skipped: nat)
    requires History(fold, past, patches) && Stored(records, header, past, patches) && skipped <= |records|
    requires Beneath(records, header, skipped)
    ensures
      var base := if header.Some? then header.value.version else 0;
      && base <= |patches|
      && var v := View(base, past[base]);
        && Fits(fold, v, records[skipped..])
        && [past[base]] + Grown(fold, v, records[skipped..]) == past[base..]
  {
    hide *;
    HistoryLengths(fold, past, patches);
    HeaderInHistory(fold, records, header, past, patches);
    SkippedCovered(records, header, past, patches, skipped);
    var base := if header.Some? then header.value.version else 0;
    RestFits(fold, past, patches, base, |patches| - |records| + skipped);
  }

  lemma RestFits<S, P>(fold: (S, P) -> Fold<S>, past: seq<S>, patches: seq<P>, base: nat, after: nat)
    requires History(fold, past, patches) && |past| == |patches| + 1 && after <= base <= |patches|
    ensures
      var tail, v := Records(after, patches[after..]), View(base, past[base]);
      && Fits(fold, v, tail) && [past[base]] + Grown(fold, v, tail) == past[base..]
  {
    hide *;
    var tail := Records(after, patches[after..]);
    RecordsAre(after, patches[after..]);
    StoredFits(fold, past, patches, base, after, |tail|);
    assert tail[..|tail|] == tail;
    SliceFrom(past, base);
  }

  lemma SliceFrom<T>(s: seq<T>, a: nat)
    requires a < |s|
    ensures [s[a]] + s[a + 1..|s|] == s[a..] && (a + 1 == |s| ==> [s[a]] + [] == s[a..])
  {
  }

  /** Writing what was folded carries history and storage forward together. */
  lemma Advances<S, P>(fold: (S, P) -> Fold<S>, records: seq<Record<P>>, header: Option<View<S>>, past: seq<S>,
          patches: seq<P>, ps: seq<P>, base: nat)
    requires History(fold, past, patches) && Accepts(fold, Current(past), ps) && base < |past|
    requires |past| == |patches| + 1 && Stored(records, header, past, patches)
    ensures
      var made := Minted(fold, Current(past), ps);
      && History(fold, past + States(made), patches + Patches(made))
      && |past + States(made)| == |patches + Patches(made)| + 1 && |patches + Patches(made)| == |patches| + |made|
      && Stored(records + Records(|patches|, Patches(made)), header, past + States(made), patches + Patches(made))
      && (past + States(made))[base..] == past[base..] + States(made)
      && |Records(|patches|, Patches(made))| == |made|
      && (made != [] ==> Records(|patches|, Patches(made))[|made| - 1].version == |patches| + |made|)
  {
    hide Accepts, Minted, Final, History, Stored;
    var made := Minted(fold, Current(past), ps);
    HistoryGrows(fold, past, patches, ps);
    StoredAppend(records, header, past, patches, States(made), Patches(made));
    assert (past + States(made))[base..] == past[base..] + States(made);
  }

  /** Losing the end of what an append was writing leaves the storage holding the end
      of a shorter history. */
  lemma CutInside<S, P>(fold: (S, P) -> Fold<S>, held: seq<Record<P>>, header: Option<View<S>>, past: seq<S>,
          patches: seq<P>, ps: seq<P>, top: nat)
    requires History(fold, past, patches) && |past| == |patches| + 1 && Stored(held, header, past, patches)
    requires Accepts(fold, Current(past), ps)
    requires |held| <= |patches| && |patches| - |held| <= top <= |patches| + |Minted(fold, Current(past), ps)|
    requires header.Some? ==> header.value.version <= top
    ensures
      var made := Minted(fold, Current(past), ps);
      var later, told := past + States(made), patches + Patches(made);
      && |later| == |told| + 1 == |past| + |made| && |Records(|patches|, Patches(made))| == |made|
      && History(fold, later[..top + 1], told[..top]) && later[..top + 1][..1] == past[..1]
      && Stored((held + Records(|patches|, Patches(made)))[..top - (|patches| - |held|)], header, later[..top + 1],
            told[..top])
  {
    hide Accepts, Minted, Final, History, Stored, Records;
    var made := Minted(fold, Current(past), ps);
    Advances(fold, held, header, past, patches, ps, 0);
    StoredPrefix(held + Records(|patches|, Patches(made)), header, past + States(made), patches + Patches(made), top);
    HistoryPrefix(fold, past + States(made), patches + Patches(made), top);
  }

  // ---- the log ----------------------------------------------------------------

  class Log<S, P> {
    const data: Data<S, P>
    const storage: Storage<S, P>
    var watermark: nat
    var synced: nat
    /** Every state and every patch since version zero. */
    ghost var past: seq<S>
    ghost var patches: seq<P>
    /** The watermark this log opened at, claimed synced without a flush. */
    ghost const openedAt: nat
    /** How many appends failed after their records were written. */
    ghost var slips: nat
    /** How many appends the storage has failed, at the write or at the flush. */
    ghost var faults: nat

    ghost predicate Valid()
      reads this, data, storage
    {
      && History(data.fold, past, patches) && |past| == |patches| + 1
      && data.Valid() && data.base <= |patches| && data.states == past[data.base..]
      && (storage.header.Some? ==> storage.header.value.version <= storage.durable)
      && watermark == |patches| && storage.top == watermark && storage.durable <= watermark
      && synced <= watermark && (synced <= openedAt || synced <= storage.durable)
      && Stored(storage.records, storage.header, past, patches)
    }

    /** As valid, but with more folded than written. */
    ghost predicate Ahead(made: seq<(P, S)>)
      reads this, data, storage
    {
      && History(data.fold, past, patches) && |past| == |patches| + 1
      && data.Valid() && data.base <= |patches| && data.states == past[data.base..] + States(made)
      && (storage.header.Some? ==> storage.header.value.version <= storage.durable)
      && watermark == |patches| && storage.top == watermark && storage.durable <= watermark
      && synced <= watermark && (synced <= openedAt || synced <= storage.durable)
      && Stored(storage.records, storage.header, past, patches)
    }

    /** The structure's version is the watermark and its view the last state. */
    lemma InStep()
      requires Valid()
      ensures past != [] && data.Now() == Current(past) && data.Now().version == watermark
    {
    }

    /** The storage's floor follows from how much of the history it holds. */
    lemma FloorIs()
      requires Valid()
      ensures |storage.records| <= |patches| && storage.Floor() == |patches| - |storage.records| + 1
    {
      hide History;
    }

    /** The storage holds the end of the history. */
    lemma StoredIs()
      requires Valid()
      ensures |storage.records| <= |patches|
      ensures storage.records == Records(|patches| - |storage.records|, patches[|patches| - |storage.records|..])
    {
      hide History;
    }

    constructor (data: Data<S, P>, storage: Storage<S, P>, ghost past: seq<S>, ghost patches: seq<P>)
      requires History(data.fold, past, patches)
      requires data.Valid() && data.base <= |patches| && data.states == past[data.base..]
      requires storage.top == |patches| && storage.durable <= |patches|
      requires Stored(storage.records, storage.header, past, patches)
      requires storage.header.Some? ==> storage.header.value.version <= storage.durable
      ensures Valid() && this.data == data && this.storage == storage && this.past == past && this.patches == patches
      ensures synced == watermark && openedAt == watermark && slips == faults == 0
    {
      slips, faults := 0, 0;
      this.data, this.storage, this.past, this.patches := data, storage, past, patches;
      watermark := data.Now().version;
      synced := data.Now().version;
      openedAt := data.Now().version;
    }

    /** Fold patches into the structure; a rejected one puts it back. */
    method FoldAll(ps: seq<P>) returns (ok: bool, records: seq<Record<P>>, views: seq<View<S>>)
      requires Valid()
      modifies data
      ensures data.Valid() && past != []
      ensures ok <==> Accepts(data.fold, Current(past), ps)
      ensures ok ==>
        && views == Seen(data.fold, Current(past), ps)
        && records == Records(watermark, Patches(Minted(data.fold, Current(past), ps)))
        && data.states == old(data.states) + States(Minted(data.fold, Current(past), ps))
      ensures !ok ==> data.states == old(data.states)
    {
      hide Accepts, Takes, Seen, Final, Minted, History, Stored;
      InStep();
      records, views := [], [];
      ghost var v := Current(past);
      ghost var made: seq<(P, S)> := [];
      NothingYet(data.fold, v);
      assert States(made) == [];
      for i := 0 to |ps|
        invariant data.Valid() && data.states == old(data.states) + States(made)
        invariant Accepts(data.fold, v, ps[..i]) && made == Minted(data.fold, v, ps[..i])
        invariant data.Now() == Final(data.fold, v, ps[..i])
        invariant views == Seen(data.fold, v, ps[..i]) && records == Records(watermark, Patches(made))
      {
        Prefixes(data.fold, v, ps, i);
        FinalVersion(data.fold, v, ps[..i]);
        var applied := data.Apply(ps[i]);
        match applied {
          case Rejected =>
            if Accepts(data.fold, v, ps) {
              AcceptsPrefix(data.fold, v, ps, i + 1);
            }
            data.Truncate(watermark);
            assert (old(data.states) + States(made))[..|old(data.states)|] == old(data.states);
            return false, [], [];
          case Unchanged =>
            views := views + [data.Now()];
          case Published(view) =>
            StatesMore(made, ps[i], view.state);
            RecordsMore(watermark, Patches(made), ps[i]);
            records := records + [Record(view.version, ps[i])];
            views := views + [view];
            made := made + [(ps[i], view.state)];
        }
      }
      assert ps[..|ps|] == ps;
      ok := true;
    }

    /** An append of these will be written and then fail at its flush. */
    ghost predicate Slips(ps: seq<P>, durability: Durability)
      requires past != []
      reads this, data, storage
    {
      && Accepts(data.fold, Current(past), ps) && Minted(data.fold, Current(past), ps) != []
      && durability == Durable && Works(storage.fates) && !Works(Later(storage.fates))
    }

    /** An append of these changes something, and the storage will not write it, or
        not flush it where it must. */
    ghost predicate Refused(ps: seq<P>, durability: Durability)
      requires past != []
      reads this, data, storage
    {
      && Accepts(data.fold, Current(past), ps) && Minted(data.fold, Current(past), ps) != []
      && (!Works(storage.fates) || (durability == Durable && !Works(Later(storage.fates))))
    }

    /** The calls that are left after an append of these: one is a write, and one more
        a flush where it was written and must be flushed. */
    ghost function Left(ps: seq<P>, durability: Durability): seq<bool>
      requires past != []
      reads this, data, storage
    {
      if !Accepts(data.fold, Current(past), ps) || Minted(data.fold, Current(past), ps) == [] then storage.fates
      else if durability == Durable && Works(storage.fates) then Later(Later(storage.fates))
      else Later(storage.fates)
    }

    /** Fold patches, one version each at most, behind one write and at most one
        flush. */
    method Append(ps: seq<P>, durability: Durability) returns (r: Outcome<seq<View<S>>>)
      requires Valid()
      modifies this, data, storage
      ensures Valid() && old(past) != []
      ensures r.Failed? ==> r.fault == Fault.Data || r.fault == Fault.Storage
      ensures r == Failed(Fault.Data) <==> !Accepts(data.fold, old(Current(past)), ps)
      ensures r.Done? ==> r.value == Seen(data.fold, old(Current(past)), ps)
      ensures Unmoved() || Extended(old(Current(past)), ps)
      ensures r.Done? ==> patches == old(patches) + Patches(Minted(data.fold, old(Current(past)), ps))
      ensures r.Done? ==> past == old(past) + States(Minted(data.fold, old(Current(past)), ps))
      ensures r.Done? && durability == Durable && patches != old(patches) ==> synced == watermark == storage.durable
      ensures !(r.Done? && durability == Durable && patches != old(patches)) ==> synced == old(synced)
      ensures r.Failed? && patches != old(patches) ==> durability == Durable
      ensures storage.header == old(storage.header)
      ensures slips == old(slips) + if r.Failed? && patches != old(patches) then 1 else 0
      ensures faults == old(faults) + if r == Failed(Fault.Storage) then 1 else 0
      ensures r.Failed? && patches != old(patches) <==> old(Slips(ps, durability))
      ensures r == Failed(Fault.Storage) <==> old(Refused(ps, durability))
      ensures storage.fates == old(Left(ps, durability))
      ensures old(AllWork(storage.fates)) ==> AllWork(storage.fates) && r != Failed(Fault.Storage)
    {
      hide Accepts, Takes, Seen, Final, Minted, History, Stored;
      InStep();
      if ps == [] {
        NothingYet(data.fold, Current(past));
        return Done([]);
      }
      ghost var v := Current(past);
      var ok, records, views := FoldAll(ps);
      if !ok {
        return Failed(Fault.Data);
      }
      if records == [] {
        NothingMinted(data.fold, v, ps, watermark);
        return Done(views);
      }
      ghost var before := patches;
      var landed := Land(ps, records, durability);
      if landed.Failed? {
        return Failed(landed.fault);
      }
      r := Done(views);
    }

    /** Write what was folded; a failed write puts the structure back, a failed
        flush does not. */
    method Land(ghost ps: seq<P>, records: seq<Record<P>>, durability: Durability) returns (r: Outcome<()>)
      requires past != [] && Accepts(data.fold, Current(past), ps) && Ahead(Minted(data.fold, Current(past), ps))
      requires records == Records(watermark, Patches(Minted(data.fold, Current(past), ps))) && records != []
      modifies this, data, storage
      ensures Valid() && storage.header == old(storage.header)
      ensures r.Failed? ==> r.fault == Fault.Storage
      ensures Unmoved() || Extended(old(Current(past)), ps)
      ensures r.Done? ==> Extended(old(Current(past)), ps)
      ensures r.Done? && durability == Durable ==> synced == watermark == storage.durable
      ensures !(r.Done? && durability == Durable) ==> synced == old(synced)
      ensures Minted(data.fold, old(Current(past)), ps) != []
      ensures r.Failed? && patches != old(patches) ==> durability == Durable
      ensures slips == old(slips) + if r.Failed? && patches != old(patches) then 1 else 0
      ensures faults == old(faults) + if r.Failed? then 1 else 0
      ensures
        var fates := old(storage.fates);
        if !Works(fates) then r.Failed? && patches == old(patches) && storage.fates == Later(fates)
        else if durability != Durable then r.Done? && storage.fates == Later(fates)
        else r.Done? == Works(Later(fates)) && |patches| > old(|patches|) && storage.fates == Later(Later(fates))
    {
      hide Accepts, Takes, Seen, Final, Minted, History, Stored;
      MintedLengths(Minted(data.fold, Current(past), ps), watermark);
      var ok := Write(ps, records);
      if !ok {
        return Failed(Fault.Storage);
      }
      if durability == Durable {
        ok := storage.Sync();
        if !ok {
          slips, faults := slips + 1, faults + 1;
          return Failed(Fault.Storage);
        }
        synced := watermark;
      }
      r := Done(());
    }

    method Write(ghost ps: seq<P>, records: seq<Record<P>>) returns (ok: bool)
      requires past != [] && Accepts(data.fold, Current(past), ps) && Ahead(Minted(data.fold, Current(past), ps))
      requires records == Records(watermark, Patches(Minted(data.fold, Current(past), ps))) && records != []
      modifies this, data, storage
      ensures Valid() && storage.header == old(storage.header) && synced == old(synced) && slips == old(slips)
      ensures faults == old(faults) + if ok then 0 else 1
      ensures ok == Works(old(storage.fates)) && storage.fates == Later(old(storage.fates))
      ensures !ok ==> Unmoved()
      ensures ok ==> Extended(old(Current(past)), ps) && |patches| > old(|patches|)
    {
      hide Accepts, Takes, Seen, Final, Minted, History, Stored;
      ghost var v := Current(past);
      ghost var made := Minted(data.fold, v, ps);
      ghost var behind := past[data.base..];
      ok := storage.Append(records);
      if !ok {
        data.Truncate(watermark);
        faults := faults + 1;
        assert (behind + States(made))[..|behind|] == behind;
        return;
      }
      Advances(data.fold, old(storage.records), storage.header, past, patches, ps, data.base);
      past, patches := past + States(made), patches + Patches(made);
      watermark := records[|records| - 1].version;
    }

    /** Put the current view in the header, so that recovery skips what it covers. */
    method Checkpoint() returns (r: Outcome<()>)
      requires Valid()
      modifies this, storage
      ensures Valid() && past == old(past) && patches == old(patches) && past != []
      ensures exists dropped ::
        0 <= dropped <= |old(storage.records)| && storage.records == old(storage.records)[dropped..]
      ensures storage.header == old(storage.header) || storage.header == Some(Current(past))
      ensures r.Done? ==> storage.header == Some(Current(past)) && synced == watermark == storage.durable
      ensures r.Failed? ==> r.fault == Fault.Storage && synced == old(synced)
      ensures slips == old(slips) && faults == old(faults) && watermark == old(watermark)
      ensures
        var fates := old(storage.fates);
        && (r.Done? <==> Works(fates) && Works(Later(fates)))
        && (Works(fates) ==> storage.header == Some(Current(past)))
        && storage.fates == if Works(fates) then Later(Later(fates)) else Later(fates)
      ensures old(AllWork(storage.fates)) ==> AllWork(storage.fates)
    {
      hide History, Stored;
      InStep();
      var view := data.Now();
      var ok, dropped := storage.WriteHeader(view);
      assert old(storage.records)[0..] == old(storage.records);
      if storage.header == Some(view) {
        StoredHeader(old(storage.records), old(storage.header), past, patches, view, dropped);
      }
      if !ok {
        return Failed(Fault.Storage);
      }
      ok := storage.Sync();
      if !ok {
        return Failed(Fault.Storage);
      }
      synced := watermark;
      r := Done(());
    }

    /** Flush without a checkpoint. */
    method Sync() returns (r: Outcome<()>)
      requires Valid()
      modifies this, storage
      ensures Valid() && past == old(past) && patches == old(patches)
      ensures storage.records == old(storage.records) && storage.header == old(storage.header)
      ensures r.Done? ==> synced == watermark == storage.durable
      ensures r.Failed? ==>
        r.fault == Fault.Storage && synced == old(synced) && storage.durable == old(storage.durable)
      ensures slips == old(slips) && faults == old(faults) && watermark == old(watermark)
      ensures (r.Done? <==> Works(old(storage.fates))) && storage.fates == Later(old(storage.fates))
      ensures old(AllWork(storage.fates)) ==> AllWork(storage.fates)
    {
      hide History, Stored;
      var ok := storage.Sync();
      if !ok {
        return Failed(Fault.Storage);
      }
      synced := watermark;
      r := Done(());
    }

    method ReadAfter(after: nat, limit: nat) returns (r: Outcome<seq<Record<P>>>)
      requires Valid()
      modifies storage`fates
      ensures Valid() && storage.fates == Later(old(storage.fates))
      ensures r == if Works(old(storage.fates)) then Done(FirstOf(Higher(storage.records, after), limit))
        else Failed(Fault.Storage)
    {
      hide History, Stored, Higher;
      var ok, out := storage.ReadAfter(after, limit);
      if !ok {
        return Failed(Fault.Storage);
      }
      r := Done(out);
    }

    /** A past view, if the structure still holds it. */
    method ViewAt(version: nat) returns (r: Option<View<S>>)
      requires Valid()
      ensures |past| == watermark + 1
      ensures r == if data.base <= version <= watermark then Some(View(version, past[version])) else None
    {
      hide Stored;
      if version > watermark {
        return None;
      }
      r := data.ViewAt(version);
    }

    /** Adopt the header if there is one, then replay the records above it. A
        storage that holds a history opens to the end of that history, wherever
        its checkpoints fell. */
    static method Open(zero: Data<S, P>, storage: Storage<S, P>, ghost past: seq<S>, ghost patches: seq<P>)
      returns (r: Outcome<Log<S, P>>)
      requires zero.Valid() && zero.base == 0 && |past| == |patches| + 1 && zero.states == [past[0]]
      requires History(zero.fold, past, patches) && Stored(storage.records, storage.header, past, patches)
      requires storage.top == |patches| && storage.durable <= |patches|
      requires storage.header.Some? ==> storage.header.value.version <= storage.durable
      modifies zero, storage`durable, storage`fates
      ensures r.Failed? ==> r.fault == Fault.Storage
      ensures (r.Done? <==> Works(old(storage.fates))) && storage.fates == Later(old(storage.fates))
      ensures old(storage.durable) <= storage.durable <= storage.top
      ensures r.Done? ==>
        var log := r.value;
        && fresh(log) && log.Valid() && log.storage == storage && log.data.fold == zero.fold
        && log.past == past && log.patches == patches
        && log.watermark == log.synced == log.openedAt == |patches| && log.data.Now() == Current(past)
        && log.data.base == (if storage.header.Some? then storage.header.value.version else 0)
        && log.slips == log.faults == 0
    {
      hide History, Stored, Fits, Grown;
      var ok, header, tail, skipped := storage.Load();
      if !ok {
        return Failed(Fault.Storage);
      }
      var data := zero;
      HeaderInHistory(zero.fold, storage.records, storage.header, past, patches);
      if header.Some? {
        data := new Data(zero.fold, header.value);
      }
      TailFits(zero.fold, storage.records, storage.header, past, patches, skipped);
      var replayed := Replay(data, tail);
      var log := new Log(data, storage, past, patches);
      log.InStep();
      r := Done(log);
    }

    /** Close and open again: the same view at the same version, wherever the
        checkpoints fell. */
    static method Reopen(log: Log<S, P>, zero: Data<S, P>) returns (r: Outcome<Log<S, P>>)
      requires log.Valid() && zero.Valid() && zero.base == 0 && zero.states == log.past[..1]
      requires zero.fold == log.data.fold
      requires zero != log.data
      modifies zero, log.storage`durable, log.storage`fates
      ensures log.Valid() && (r.Done? <==> Works(old(log.storage.fates)))
      ensures r.Done? ==>
        && r.value.Valid() && r.value.storage == log.storage
        && r.value.watermark == log.watermark && r.value.data.Now() == log.data.Now()
        && r.value.past == log.past && r.value.patches == log.patches
    {
      log.InStep();
      hide History, Stored;
      r := Open(zero, log.storage, log.past, log.patches);
    }

    /** Lose power, and the last `lost` versions of what no flush covered, and open
        again: a prefix of the same history, with everything a flush ever covered. */
    static method CutAndReopen(log: Log<S, P>, zero: Data<S, P>, lost: nat) returns (r: Outcome<Log<S, P>>)
      requires log.Valid() && zero.Valid() && zero.base == 0 && zero.states == log.past[..1]
      requires lost <= log.watermark - log.storage.durable
      requires zero.fold == log.data.fold
      requires zero != log.data
      modifies zero, log.storage
      ensures r.Done? <==> Works(old(log.storage.fates))
      ensures r.Done? ==>
        var next := r.value;
        && next.Valid() && next.storage == log.storage
        && old(log.storage.durable) <= next.watermark == old(log.watermark) - lost
        && next.past == old(log.past)[..next.watermark + 1] && next.patches == old(log.patches)[..next.watermark]
        && (old(log.synced) > log.openedAt ==> old(log.synced) <= next.watermark)
    {
      ghost var past, patches := log.past, log.patches;
      KeptFrom(log.storage.records, log.storage.header, past, patches);
      log.storage.PowerCut([], lost);
      ghost var top := log.storage.top;
      assert old(log.storage.records) + [] == old(log.storage.records);
      StoredPrefix(old(log.storage.records), log.storage.header, past, patches, top);
      HistoryPrefix(log.data.fold, past, patches, top);
      hide History, Stored;
      r := Open(zero, log.storage, past[..top + 1], patches[..top]);
    }

    /** Lose power in the middle of an append, and the last `lost` versions that no
        flush covered, and open again: a prefix of the history and of what the append
        folded onto it, with everything a flush ever covered. */
    static method CutInAppend(log: Log<S, P>, zero: Data<S, P>, ps: seq<P>, lost: nat) returns (r: Outcome<Log<S, P>>)
      requires log.Valid() && zero.Valid() && zero.base == 0 && zero.states == log.past[..1]
      requires zero.fold == log.data.fold
      requires zero != log.data && log.past != [] && Accepts(log.data.fold, Current(log.past), ps)
      requires lost <= log.watermark + |Minted(log.data.fold, Current(log.past), ps)| - log.storage.durable
      modifies zero, log.data, log.storage
      ensures old(log.past) != [] && (r.Done? <==> Works(old(log.storage.fates)))
      ensures r.Done? ==>
        var next, made := r.value, Minted(log.data.fold, old(Current(log.past)), ps);
        && next.Valid() && next.storage == log.storage
        && old(log.storage.durable) <= next.watermark == old(log.watermark) + |made| - lost
        && next.past == (old(log.past) + States(made))[..next.watermark + 1]
        && next.patches == (old(log.patches) + Patches(made))[..next.watermark]
        && (old(log.synced) > log.openedAt ==> old(log.synced) <= next.watermark)
    {
      hide Accepts, Takes, Seen, Final, Minted, History, Stored, Records;
      log.InStep();
      ghost var fold, made := log.data.fold, Minted(log.data.fold, Current(log.past), ps);
      ghost var past, patches := log.past + States(made), log.patches + Patches(made);
      ghost var held, header := log.storage.records, log.storage.header;
      var ok, records, _ := log.FoldAll(ps);
      KeptFrom(held, header, log.past, log.patches);
      MintedLengths(made, log.watermark);
      log.storage.PowerCut(records, lost);
      ghost var top := log.storage.top;
      CutInside(fold, held, header, log.past, log.patches, ps, top);
      r := Open(zero, log.storage, past[..top + 1], patches[..top]);
    }

    twostate predicate Unmoved()
      reads this, storage
    {
      past == old(past) && patches == old(patches) && storage.records == old(storage.records)
    }

    /** What was folded is in the history and in the storage. */
    twostate predicate Extended(v: View<S>, ps: seq<P>)
      reads this, storage
    {
      && Accepts(data.fold, v, ps)
      && var made := Minted(data.fold, v, ps);
        && made != [] && past == old(past) + States(made) && patches == old(patches) + Patches(made)
        && storage.records == old(storage.records) + Records(old(|patches|), Patches(made))
    }
  }

  lemma NothingMinted<S, P>(fold: (S, P) -> Fold<S>, v: View<S>, ps: seq<P>, after: nat)
    requires Accepts(fold, v, ps) && Records(after, Patches(Minted(fold, v, ps))) == []
    ensures Minted(fold, v, ps) == [] && States(Minted(fold, v, ps)) == [] && Patches(Minted(fold, v, ps)) == []
  {
    hide *;
    assert |Records(after, Patches(Minted(fold, v, ps)))| == |Minted(fold, v, ps)| by {
      MintedLengths(Minted(fold, v, ps), after);
    }
    MintedLengths(Minted(fold, v, ps), after);
  }

  lemma MintedLengths<S, P>(made: seq<(P, S)>, after: nat)
    ensures |Records(after, Patches(made))| == |made| == |States(made)| == |Patches(made)|
  {
  }

  lemma NothingYet<S, P>(fold: (S, P) -> Fold<S>, v: View<S>)
    ensures Accepts(fold, v, []) && Final(fold, v, []) == v && Seen(fold, v, []) == [] && Minted(fold, v, []) == []
  {
  }
}
