/** Queued requests folded as one and split back: the same as one at a time. */
module GroupCommit {
  import opened Common
  import opened Logs
  import opened SharedState
  import Rings

  /** A queued append, decoded. */
  datatype Request<P> = Request(patches: seq<P>, durability: Durability)

  datatype Verdict = Acked(versions: seq<nat>) | Refused

  datatype Reply = Ack(versions: seq<nat>, synced: nat) | Failure(fault: Fault)

  // ---- one request at a time -------------------------------------------------

  /** The versions above `from`, up to `to`. */
  function Range(from: nat, to: nat): seq<nat>
    requires from <= to
  {
    seq(to - from, i requires 0 <= i => from + 1 + i)
  }

  /** What one request alone does to a view. */
  function After<S, P>(fold: (S, P) -> Fold<S>, v: View<S>, q: Request<P>): View<S> {
    if Accepts(fold, v, q.patches) then Final(fold, v, q.patches) else v
  }

  function MadeBy<S, P>(fold: (S, P) -> Fold<S>, v: View<S>, q: Request<P>): seq<(P, S)> {
    if Accepts(fold, v, q.patches) then Minted(fold, v, q.patches) else []
  }

  function VerdictOf<S, P>(fold: (S, P) -> Fold<S>, v: View<S>, q: Request<P>): Verdict {
    if Accepts(fold, v, q.patches) then
      FinalVersion(fold, v, q.patches);
      Acked(Range(v.version, Final(fold, v, q.patches).version))
    else Refused
  }

  /** What many requests do, each alone, in order. */
  function SerialView<S, P>(fold: (S, P) -> Fold<S>, v: View<S>, qs: seq<Request<P>>): View<S>
    decreases |qs|
  {
    if qs == [] then v else After(fold, SerialView(fold, v, Init(qs)), Last(qs))
  }

  function SerialMade<S, P>(fold: (S, P) -> Fold<S>, v: View<S>, qs: seq<Request<P>>): seq<(P, S)>
    decreases |qs|
  {
    if qs == [] then [] else SerialMade(fold, v, Init(qs)) + MadeBy(fold, SerialView(fold, v, Init(qs)), Last(qs))
  }

  function SerialVerdicts<S, P>(fold: (S, P) -> Fold<S>, v: View<S>, qs: seq<Request<P>>): seq<Verdict>
    decreases |qs|
  {
    if qs == [] then []
    else SerialVerdicts(fold, v, Init(qs)) + [VerdictOf(fold, SerialView(fold, v, Init(qs)), Last(qs))]
  }

  lemma SerialNext<S, P>(fold: (S, P) -> Fold<S>, v: View<S>, qs: seq<Request<P>>, i: nat)
    requires i < |qs|
    ensures SerialView(fold, v, qs[..i + 1]) == After(fold, SerialView(fold, v, qs[..i]), qs[i])
    ensures SerialMade(fold, v, qs[..i + 1]) ==
      SerialMade(fold, v, qs[..i]) + MadeBy(fold, SerialView(fold, v, qs[..i]), qs[i])
    ensures SerialVerdicts(fold, v, qs[..i + 1]) ==
      SerialVerdicts(fold, v, qs[..i]) + [VerdictOf(fold, SerialView(fold, v, qs[..i]), qs[i])]
  {
    assert Init(qs[..i + 1]) == qs[..i] && Last(qs[..i + 1]) == qs[i];
  }

  lemma SerialNone<S, P>(fold: (S, P) -> Fold<S>, v: View<S>)
    ensures SerialView<S, P>(fold, v, []) == v && SerialMade<S, P>(fold, v, []) == []
    ensures SerialVerdicts<S, P>(fold, v, []) == []
  {
  }

  lemma SerialOne<S, P>(fold: (S, P) -> Fold<S>, v: View<S>, q: Request<P>)
    ensures SerialView(fold, v, [q]) == After(fold, v, q) && SerialMade(fold, v, [q]) == MadeBy(fold, v, q)
    ensures SerialVerdicts(fold, v, [q]) == [VerdictOf(fold, v, q)]
  {
    hide After, MadeBy, VerdictOf;
    assert Init([q]) == [];
    assert SerialMade(fold, v, [q]) == [] + MadeBy(fold, v, q);
  }

  /** All acknowledged versions, in order. */
  function Versions(verdicts: seq<Verdict>): seq<nat> {
    if verdicts == [] then []
    else Versions(Init(verdicts)) + (if Last(verdicts).Acked? then Last(verdicts).versions else [])
  }

  lemma RangeJoin(a: nat, b: nat, c: nat)
    requires a <= b <= c
    ensures Range(a, b) + Range(b, c) == Range(a, c)
  {
  }

  lemma RangeNone(a: nat)
    ensures Range(a, a) == []
  {
  }

  lemma RangeOne(a: nat)
    ensures Range(a, a + 1) == [a + 1]
  {
  }

  /** Acknowledged versions split the minted interval: every new version exactly
      once, in order, none twice and none missing. */
  lemma {:induction false} VersionsPartition<S, P>(fold: (S, P) -> Fold<S>, v: View<S>, qs: seq<Request<P>>)
    ensures v.version <= SerialView(fold, v, qs).version
    ensures SerialView(fold, v, qs).version == v.version + |SerialMade(fold, v, qs)|
    ensures Versions(SerialVerdicts(fold, v, qs)) == Range(v.version, SerialView(fold, v, qs).version)
    decreases |qs|
  {
    hide Accepts, Final, Minted;
    if qs == [] {
      RangeNone(v.version);
    } else {
      VersionsPartition(fold, v, Init(qs));
      var w, q := SerialView(fold, v, Init(qs)), Last(qs);
      var verdicts := SerialVerdicts(fold, v, qs);
      assert Init(verdicts) == SerialVerdicts(fold, v, Init(qs)) && Last(verdicts) == VerdictOf(fold, w, q);
      if Accepts(fold, w, q.patches) {
        FinalVersion(fold, w, q.patches);
        RangeJoin(v.version, w.version, Final(fold, w, q.patches).version);
      }
    }
  }

  /** Folding requests on top of others is folding them all. */
  lemma {:induction false} SerialJoin<S, P>(fold: (S, P) -> Fold<S>, v: View<S>, a: seq<Request<P>>, b: seq<Request<P>>)
    ensures SerialView(fold, v, a + b) == SerialView(fold, SerialView(fold, v, a), b)
    ensures SerialMade(fold, v, a + b) == SerialMade(fold, v, a) + SerialMade(fold, SerialView(fold, v, a), b)
    ensures SerialVerdicts(fold, v, a + b) ==
      SerialVerdicts(fold, v, a) + SerialVerdicts(fold, SerialView(fold, v, a), b)
    decreases |b|
  {
    hide VerdictOf, MadeBy, After;
    if b == [] {
      assert a + b == a;
      assert SerialMade(fold, v, a) + [] == SerialMade(fold, v, a);
      assert SerialVerdicts(fold, v, a) + [] == SerialVerdicts(fold, v, a);
    } else {
      SerialJoin(fold, v, a, Init(b));
      assert Init(a + b) == a + Init(b) && Last(a + b) == Last(b);
    }
  }

  lemma MadeJoin<S, P>(past: seq<S>, patches: seq<P>, a: seq<(P, S)>, b: seq<(P, S)>)
    ensures past + States(a) + States(b) == past + States(a + b)
    ensures patches + Patches(a) + Patches(b) == patches + Patches(a + b)
  {
  }

  /** The history after requests alone, in order, ends in their view. */
  lemma {:induction false} SerialCurrent<S, P>(fold: (S, P) -> Fold<S>, past: seq<S>, patches: seq<P>,
          qs: seq<Request<P>>)
    requires History(fold, past, patches)
    ensures
      var made := SerialMade(fold, Current(past), qs);
      && History(fold, past + States(made), patches + Patches(made))
      && Current(past + States(made)) == SerialView(fold, Current(past), qs)
    decreases |qs|
  {
    var v := Current(past);
    hide Accepts, Final, Minted, History;
    if qs == [] {
      SerialNone<S, P>(fold, v);
      assert past + [] == past && patches + [] == patches;
    } else {
      SerialCurrent(fold, past, patches, Init(qs));
      var made, w := SerialMade(fold, v, Init(qs)), SerialView(fold, v, Init(qs));
      var more := MadeBy(fold, w, Last(qs));
      MadeJoin(past, patches, made, more);
      if Accepts(fold, w, Last(qs).patches) {
        HistoryGrows(fold, past + States(made), patches + Patches(made), Last(qs).patches);
      } else {
        assert made + [] == made;
      }
    }
  }

  /** The versions of any verdict lie within what was minted. */
  lemma {:induction false} VerdictsWithin<S, P>(fold: (S, P) -> Fold<S>, v: View<S>, qs: seq<Request<P>>, i: nat)
    requires i < |qs|
    ensures |SerialVerdicts(fold, v, qs)| == |qs|
    ensures
      var d := SerialVerdicts(fold, v, qs)[i];
      d.Acked? ==> forall k :: 0 <= k < |d.versions| ==> v.version < d.versions[k] <= SerialView(fold, v, qs).version
    decreases |qs|
  {
    hide Accepts, Final, Minted;
    VersionsPartition(fold, v, Init(qs));
    var w, q := SerialView(fold, v, Init(qs)), Last(qs);
    if |qs| > 1 {
      VerdictsWithin(fold, v, Init(qs), if i < |qs| - 1 then i else 0);
    }
    if Accepts(fold, w, q.patches) {
      FinalVersion(fold, w, q.patches);
    }
  }

  // ---- many requests as one --------------------------------------------------

  function Flat<P>(qs: seq<Request<P>>): seq<P> {
    if qs == [] then [] else Flat(Init(qs)) + Last(qs).patches
  }

  lemma FlatNext<P>(qs: seq<Request<P>>, i: nat)
    requires i < |qs|
    ensures Flat(qs[..i + 1]) == Flat(qs[..i]) + qs[i].patches
  {
    assert Init(qs[..i + 1]) == qs[..i] && Last(qs[..i + 1]) == qs[i];
  }

  /** Folding a run is folding its halves. */
  lemma {:induction false} FoldJoin<S, P>(fold: (S, P) -> Fold<S>, v: View<S>, a: seq<P>, b: seq<P>)
    ensures Accepts(fold, v, a + b) <==> Accepts(fold, v, a) && Accepts(fold, Final(fold, v, a), b)
    ensures Accepts(fold, v, a + b) ==>
      var w := Final(fold, v, a);
      && Final(fold, v, a + b) == Final(fold, w, b)
      && Minted(fold, v, a + b) == Minted(fold, v, a) + Minted(fold, w, b)
    decreases |b|
  {
    if b == [] {
      assert a + b == a;
      if Accepts(fold, v, a) {
        NothingYet(fold, Final(fold, v, a));
      }
    } else {
      FoldJoin(fold, v, a, Init(b));
      assert Init(a + b) == a + Init(b) && Last(a + b) == Last(b);
    }
  }

  /** When the whole run is accepted, so is each request alone, with the same
      effect. */
  lemma {:induction false} GroupIsSerial<S, P>(fold: (S, P) -> Fold<S>, v: View<S>, qs: seq<Request<P>>)
    requires Accepts(fold, v, Flat(qs))
    ensures SerialView(fold, v, qs) == Final(fold, v, Flat(qs)) && SerialMade(fold, v, qs) == Minted(fold, v, Flat(qs))
    ensures forall i :: 0 <= i < |qs| ==>
      Accepts(fold, v, Flat(qs[..i])) && SerialView(fold, v, qs[..i]) == Final(fold, v, Flat(qs[..i]))
    ensures forall i :: 0 <= i < |qs| ==> Accepts(fold, SerialView(fold, v, qs[..i]), qs[i].patches)
    decreases |qs|
  {
    if qs != [] {
      hide Accepts, Final, Minted, Next, Takes;
      var a, b := Flat(Init(qs)), Last(qs).patches;
      FoldJoin(fold, v, a, b);
      GroupIsSerial(fold, v, Init(qs));
      forall i | 0 <= i < |qs|
        ensures Accepts(fold, v, Flat(qs[..i])) && SerialView(fold, v, qs[..i]) == Final(fold, v, Flat(qs[..i]))
        ensures Accepts(fold, SerialView(fold, v, qs[..i]), qs[i].patches)
      {
        if i < |qs| - 1 {
          assert qs[..i] == Init(qs)[..i] && qs[i] == Init(qs)[i];
        } else {
          assert qs[..i] == Init(qs) && qs[i] == Last(qs);
        }
      }
    }
  }

  function Rank(d: Durability): nat {
    match d
    case Memory => 0
    case Written => 1
    case Durable => 2
  }

  function Strongest<P>(jobs: seq<Request<P>>): Durability {
    if jobs == [] then Written
    else if |jobs| == 1 then jobs[0].durability
    else
      var best := Strongest(Init(jobs));
      if Rank(Last(jobs).durability) >= Rank(best) then Last(jobs).durability else best
  }

  lemma {:induction false} StrongestCovers<P>(jobs: seq<Request<P>>)
    ensures forall i :: 0 <= i < |jobs| && jobs[i].durability == Durable ==> Strongest(jobs) == Durable
    decreases |jobs|
  {
    if |jobs| > 1 {
      StrongestCovers(Init(jobs));
      forall i | 0 <= i < |jobs| && jobs[i].durability == Durable
        ensures Strongest(jobs) == Durable
      {
        if i < |jobs| - 1 {
          assert Init(jobs)[i] == jobs[i];
        }
      }
    }
  }

  // ---- splitting one append's result back into requests ----------------------

  lemma {:induction false} SeenAt<S, P>(fold: (S, P) -> Fold<S>, v: View<S>, ps: seq<P>, j: nat)
    requires Accepts(fold, v, ps) && j < |ps|
    ensures |Seen(fold, v, ps)| == |ps| && Accepts(fold, v, ps[..j + 1])
    ensures Seen(fold, v, ps)[j] == Final(fold, v, ps[..j + 1])
    decreases |ps|
  {
    if |ps| > 1 {
      SeenAt(fold, v, Init(ps), if j < |ps| - 1 then j else 0);
    }
    if j < |ps| - 1 {
      assert Init(ps)[..j + 1] == ps[..j + 1];
    } else {
      assert ps[..j + 1] == ps;
    }
  }

  /** `m` is the version a patch of a run minted, if it did. */
  ghost predicate MintedAt<S, P>(fold: (S, P) -> Fold<S>, v: View<S>, ps: seq<P>, j: nat, m: Option<nat>) {
    && j < |ps| && Accepts(fold, v, ps[..j]) && Accepts(fold, v, ps[..j + 1])
    && var before, after := Final(fold, v, ps[..j]).version, Final(fold, v, ps[..j + 1]).version;
      m == if after > before then Some(after) else None
  }

  ghost predicate MintedTo<S, P>(fold: (S, P) -> Fold<S>, v: View<S>, ps: seq<P>, minted: seq<Option<nat>>) {
    forall j :: 0 <= j < |minted| ==> MintedAt(fold, v, ps, j, minted[j])
  }

  lemma StepAt<S, P>(fold: (S, P) -> Fold<S>, v: View<S>, ps: seq<P>, j: nat)
    requires j < |ps| && Accepts(fold, v, ps)
    ensures Accepts(fold, v, ps[..j]) && Accepts(fold, v, ps[..j + 1])
    ensures
      var before, after := Final(fold, v, ps[..j]), Final(fold, v, ps[..j + 1]);
      && before.version == v.version + |Minted(fold, v, ps[..j])|
      && before.version <= after.version <= before.version + 1
      && Minted(fold, v, ps[..j + 1]) ==
          Minted(fold, v, ps[..j]) + (if after.version > before.version then [(ps[j], after.state)] else [])
  {
    hide Accepts, Final, Minted, Seen;
    AcceptsPrefix(fold, v, ps, j);
    AcceptsPrefix(fold, v, ps, j + 1);
    Prefixes(fold, v, ps, j);
    FinalVersion(fold, v, ps[..j]);
  }

  /** Which versions the views of an append name for the first time. */
  method NewVersions<S, P>(ghost fold: (S, P) -> Fold<S>, ghost v: View<S>, ghost ps: seq<P>, views: seq<View<S>>,
          base: nat)
    returns (minted: seq<Option<nat>>)
    requires Accepts(fold, v, ps) && views == Seen(fold, v, ps) && |views| == |ps| && base == v.version
    ensures |minted| == |ps| && MintedTo(fold, v, ps, minted)
  {
    hide Accepts, Final, Minted, Seen;
    minted := [];
    var last := base;
    NothingYet(fold, v);
    assert ps[..0] == [];
    for i := 0 to |views|
      invariant |minted| == i && Accepts(fold, v, ps[..i]) && last == Final(fold, v, ps[..i]).version
      invariant MintedTo(fold, v, ps, minted)
    {
      SeenAt(fold, v, ps, i);
      StepAt(fold, v, ps, i);
      var version := views[i].version;
      minted := minted + [if version > last then Some(version) else None];
      last := if version > last then version else last;
    }
  }

  /** One request's share of an append: its versions, and its part of the fan-out. */
  method Share<S, P>(ghost fold: (S, P) -> Fold<S>, ghost v: View<S>, ghost ps: seq<P>, minted: seq<Option<nat>>,
          offset: nat, patches: seq<P>, size: P -> nat)
    returns (versions: seq<nat>, entries: seq<Rings.Entry<P>>)
    requires Accepts(fold, v, ps) && |minted| == |ps| && offset + |patches| <= |ps|
    requires patches == ps[offset..offset + |patches|]
    requires MintedTo(fold, v, ps, minted)
    ensures Accepts(fold, v, ps[..offset]) && Accepts(fold, v, ps[..offset + |patches|])
    ensures Final(fold, v, ps[..offset]).version <= Final(fold, v, ps[..offset + |patches|]).version
    ensures versions == Range(Final(fold, v, ps[..offset]).version, Final(fold, v, ps[..offset + |patches|]).version)
    ensures EntriesOf(v.version, Patches(Minted(fold, v, ps[..offset])), size) + entries ==
      EntriesOf(v.version, Patches(Minted(fold, v, ps[..offset + |patches|])), size)
  {
    hide Accepts, Final, Minted, Seen;
    versions, entries := [], [];
    AcceptsPrefix(fold, v, ps, offset);
    ghost var from := Final(fold, v, ps[..offset]).version;
    ghost var before := EntriesOf(v.version, Patches(Minted(fold, v, ps[..offset])), size);
    RangeNone(from);
    assert before + [] == before;
    for k := 0 to |patches|
      invariant Accepts(fold, v, ps[..offset + k]) && from <= Final(fold, v, ps[..offset + k]).version
      invariant versions == Range(from, Final(fold, v, ps[..offset + k]).version)
      invariant before + entries == EntriesOf(v.version, Patches(Minted(fold, v, ps[..offset + k])), size)
    {
      StepAt(fold, v, ps, offset + k);
      ghost var now := Final(fold, v, ps[..offset + k]).version;
      ghost var made := Minted(fold, v, ps[..offset + k]);
      if minted[offset + k].Some? {
        var version := minted[offset + k].value;
        RangeOne(now);
        RangeJoin(from, now, now + 1);
        StatesMore(made, patches[k], Final(fold, v, ps[..offset + k + 1]).state);
        EntriesMore(v.version, Patches(made), patches[k], size);
        versions := versions + [version];
        ghost var sofar := entries;
        entries := entries + [Rings.Entry(version, patches[k], size(patches[k]))];
        assert before + entries == before + sofar + [Rings.Entry(version, patches[k], size(patches[k]))];
      }
    }
  }

  ghost predicate Matches(replies: seq<Reply>, verdicts: seq<Verdict>, synced: nat) {
    && |replies| == |verdicts|
    && forall i :: 0 <= i < |replies| ==> Match(replies[i], verdicts[i], synced)
  }

  ghost predicate Match(reply: Reply, verdict: Verdict, synced: nat) {
    match verdict
    case Acked(versions) => reply == Ack(versions, synced)
    case Refused => reply == Failure(Fault.Data)
  }

  lemma {:induction false} FlatSplit<P>(qs: seq<Request<P>>, i: nat) returns (rest: seq<P>)
    requires i < |qs|
    ensures Flat(qs) == Flat(qs[..i + 1]) + rest
    decreases |qs|
  {
    if i == |qs| - 1 {
      assert qs[..i + 1] == qs;
      rest := [];
    } else {
      var before := FlatSplit(Init(qs), i);
      assert Init(qs)[..i + 1] == qs[..i + 1];
      rest := before + Last(qs).patches;
      assert Flat(qs[..i + 1]) + before + Last(qs).patches == Flat(qs[..i + 1]) + rest;
    }
  }

  lemma Slices<T>(all: seq<T>, a: seq<T>, b: seq<T>, c: seq<T>)
    requires all == a + b + c
    ensures |a| + |b| <= |all| && b == all[|a|..|a| + |b|] && all[..|a|] == a && all[..|a| + |b|] == a + b
  {
  }

  lemma PatchesAt<P>(qs: seq<Request<P>>, i: nat)
    requires i < |qs|
    ensures |Flat(qs[..i])| + |qs[i].patches| <= |Flat(qs)|
    ensures qs[i].patches == Flat(qs)[|Flat(qs[..i])|..|Flat(qs[..i])| + |qs[i].patches|]
    ensures Flat(qs)[..|Flat(qs[..i])|] == Flat(qs[..i])
    ensures Flat(qs)[..|Flat(qs[..i])| + |qs[i].patches|] == Flat(qs[..i + 1])
  {
    hide Flat;
    FlatNext(qs, i);
    var rest := FlatSplit(qs, i);
    Slices(Flat(qs), Flat(qs[..i]), qs[i].patches, rest);
  }

  /** Split an accepted append back into its requests. */
  method Acknowledge<S, P>(ghost fold: (S, P) -> Fold<S>, ghost v: View<S>, jobs: seq<Request<P>>, views: seq<View<S>>,
          base: nat, synced: nat, size: P -> nat)
    returns (replies: seq<Reply>, entries: seq<Rings.Entry<P>>)
    requires Accepts(fold, v, Flat(jobs)) && views == Seen(fold, v, Flat(jobs)) && base == v.version
    ensures Matches(replies, SerialVerdicts(fold, v, jobs), synced)
    ensures AllAcked(replies, synced)
    ensures entries == EntriesOf(base, Patches(SerialMade(fold, v, jobs)), size)
  {
    hide Accepts, Final, Minted, Seen, MintedTo, Flat, SerialVerdicts, SerialView, SerialMade;
    ghost var ps := Flat(jobs);
    SeenLength(fold, v, ps);
    var minted := NewVersions(fold, v, ps, views, base);
    replies, entries := [], [];
    var offset := 0;
    GroupIsSerial(fold, v, jobs);
    SerialNone<S, P>(fold, v);
    NothingYet(fold, v);
    FlatNone<P>();
    assert jobs[..0] == [] && ps[..0] == [];
    for i := 0 to |jobs|
      invariant offset == |Flat(jobs[..i])|
      invariant Matches(replies, SerialVerdicts(fold, v, jobs[..i]), synced) && AllAcked(replies, synced)
      invariant Accepts(fold, v, Flat(jobs[..i]))
      invariant entries == EntriesOf(base, Patches(Minted(fold, v, Flat(jobs[..i]))), size)
    {
      PatchesAt(jobs, i);
      var versions, more := Share(fold, v, ps, minted, offset, jobs[i].patches, size);
      SerialNext(fold, v, jobs, i);
      ShareIsVerdict(fold, v, jobs, i);
      FlatNext(jobs, i);
      entries := entries + more;
      offset := offset + |jobs[i].patches|;
      replies := replies + [Ack(versions, synced)];
    }
    assert jobs[..|jobs|] == jobs;
  }

  lemma SeenLength<S, P>(fold: (S, P) -> Fold<S>, v: View<S>, ps: seq<P>)
    requires Accepts(fold, v, ps)
    ensures |Seen(fold, v, ps)| == |ps|
  {
    if ps != [] {
      SeenAt(fold, v, ps, 0);
    }
  }

  lemma FlatNone<P>()
    ensures Flat<P>([]) == []
  {
  }

  lemma ShareIsVerdict<S, P>(fold: (S, P) -> Fold<S>, v: View<S>, jobs: seq<Request<P>>, i: nat)
    requires i < |jobs| && Accepts(fold, v, Flat(jobs)) && Accepts(fold, v, Flat(jobs[..i]))
    requires Accepts(fold, v, Flat(jobs[..i + 1]))
    requires SerialView(fold, v, jobs[..i]) == Final(fold, v, Flat(jobs[..i]))
    requires Accepts(fold, SerialView(fold, v, jobs[..i]), jobs[i].patches)
    ensures Final(fold, v, Flat(jobs[..i])).version <= Final(fold, v, Flat(jobs[..i + 1])).version
    ensures VerdictOf(fold, SerialView(fold, v, jobs[..i]), jobs[i]) ==
      Acked(Range(Final(fold, v, Flat(jobs[..i])).version, Final(fold, v, Flat(jobs[..i + 1])).version))
  {
    hide Accepts, Final, Minted, Flat;
    FlatNext(jobs, i);
    FoldJoin(fold, v, Flat(jobs[..i]), jobs[i].patches);
    FinalVersion(fold, Final(fold, v, Flat(jobs[..i])), jobs[i].patches);
  }

  /** Each reply is the verdict; a durable one has its versions flushed. */
  ghost predicate Answers<P>(replies: seq<Reply>, verdicts: seq<Verdict>, jobs: seq<Request<P>>) {
    && |replies| == |verdicts| == |jobs|
    && forall i :: 0 <= i < |replies| ==> Answer(replies[i], verdicts[i], jobs[i].durability)
  }

  ghost predicate Answer(reply: Reply, verdict: Verdict, durability: Durability) {
    match verdict
    case Refused => reply == Failure(Fault.Data)
    case Acked(versions) =>
      && reply.Ack? && reply.versions == versions
      && (durability == Durable ==> forall k :: 0 <= k < |versions| ==> versions[k] <= reply.synced)
  }

  lemma FlushedAnswers<S, P>(fold: (S, P) -> Fold<S>, v: View<S>, jobs: seq<Request<P>>, replies: seq<Reply>,
          synced: nat, watermark: nat)
    requires Matches(replies, SerialVerdicts(fold, v, jobs), synced)
    requires watermark == SerialView(fold, v, jobs).version
    requires Strongest(jobs) == Durable && watermark > v.version ==> synced == watermark
    ensures Answers(replies, SerialVerdicts(fold, v, jobs), jobs) && |replies| == |jobs|
  {
    hide SerialVerdicts, SerialView, Strongest;
    StrongestCovers(jobs);
    if jobs == [] {
      SerialNone<S, P>(fold, v);
    } else {
      VerdictsWithin(fold, v, jobs, 0);
    }
    forall i | 0 <= i < |jobs|
      ensures Answer(replies[i], SerialVerdicts(fold, v, jobs)[i], jobs[i].durability)
    {
      VerdictsWithin(fold, v, jobs, i);
      assert Match(replies[i], SerialVerdicts(fold, v, jobs)[i], synced);
    }
  }

  // ---- what the storage refused ----------------------------------------------

  /** The reply to a request whose write the storage refused. */
  predicate Lost(reply: Reply) {
    reply == Failure(Fault.Storage)
  }

  /** The requests that were not lost. */
  function KeptJobs<P>(jobs: seq<Request<P>>, replies: seq<Reply>): seq<Request<P>>
    requires |jobs| == |replies|
  {
    if jobs == [] then []
    else KeptJobs(Init(jobs), Init(replies)) + (if Lost(Last(replies)) then [] else [Last(jobs)])
  }

  function KeptReplies(replies: seq<Reply>): seq<Reply> {
    if replies == [] then []
    else KeptReplies(Init(replies)) + (if Lost(Last(replies)) then [] else [Last(replies)])
  }

  /** The replies to the requests that were not lost are those of committing these
      alone, in order, as if the lost ones had never been asked. */
  ghost predicate Served<S, P>(fold: (S, P) -> Fold<S>, v: View<S>, jobs: seq<Request<P>>, replies: seq<Reply>) {
    && |jobs| == |replies|
    && Answers(KeptReplies(replies), SerialVerdicts(fold, v, KeptJobs(jobs, replies)), KeptJobs(jobs, replies))
  }

  lemma KeptStart<P>()
    ensures KeptJobs<P>([], []) == [] && KeptReplies([]) == []
  {
  }

  lemma KeptEnd<P>(jobs: seq<Request<P>>, replies: seq<Reply>, q: Request<P>, r: Reply)
    requires |jobs| == |replies|
    ensures KeptJobs(jobs + [q], replies + [r]) == KeptJobs(jobs, replies) + if Lost(r) then [] else [q]
    ensures KeptReplies(replies + [r]) == KeptReplies(replies) + if Lost(r) then [] else [r]
  {
    assert Init(jobs + [q]) == jobs && Init(replies + [r]) == replies;
  }

  lemma {:induction false} KeptJoin<P>(a: seq<Request<P>>, ra: seq<Reply>, b: seq<Request<P>>, rb: seq<Reply>)
    requires |a| == |ra| && |b| == |rb|
    ensures KeptJobs(a + b, ra + rb) == KeptJobs(a, ra) + KeptJobs(b, rb)
    ensures KeptReplies(ra + rb) == KeptReplies(ra) + KeptReplies(rb)
    decreases |b|
  {
    hide KeptJobs, KeptReplies, Lost;
    if b == [] {
      KeptStart<P>();
      assert a + b == a && ra + rb == ra;
      assert KeptJobs(a, ra) + [] == KeptJobs(a, ra) && KeptReplies(ra) + [] == KeptReplies(ra);
    } else {
      KeptJoin(a, ra, Init(b), Init(rb));
      KeptEnd(a + Init(b), ra + Init(rb), Last(b), Last(rb));
      KeptEnd(Init(b), Init(rb), Last(b), Last(rb));
      assert a + b == a + Init(b) + [Last(b)] && ra + rb == ra + Init(rb) + [Last(rb)];
      assert b == Init(b) + [Last(b)] && rb == Init(rb) + [Last(rb)];
      var q, r := if Lost(Last(rb)) then [] else [Last(b)], if Lost(Last(rb)) then [] else [Last(rb)];
      Reassociate(KeptJobs(a, ra), KeptJobs(Init(b), Init(rb)), q);
      Reassociate(KeptReplies(ra), KeptReplies(Init(rb)), r);
    }
  }

  lemma {:induction false} KeptAll<P>(jobs: seq<Request<P>>, replies: seq<Reply>)
    requires |jobs| == |replies| && forall i :: 0 <= i < |replies| ==> !Lost(replies[i])
    ensures KeptJobs(jobs, replies) == jobs && KeptReplies(replies) == replies
    decreases |jobs|
  {
    if jobs != [] {
      KeptAll(Init(jobs), Init(replies));
      assert Init(jobs) + [Last(jobs)] == jobs && Init(replies) + [Last(replies)] == replies;
    }
  }

  /** Where as many requests were kept as there were, all of them were. */
  lemma {:induction false} KeptMost<P>(jobs: seq<Request<P>>, replies: seq<Reply>)
    requires |jobs| == |replies|
    ensures |KeptJobs(jobs, replies)| <= |jobs|
    ensures |KeptJobs(jobs, replies)| == |jobs| ==> KeptJobs(jobs, replies) == jobs && KeptReplies(replies) == replies
    decreases |jobs|
  {
    hide KeptJobs, KeptReplies;
    if jobs == [] {
      KeptStart<P>();
    } else {
      KeptMost(Init(jobs), Init(replies));
      KeptEnd(Init(jobs), Init(replies), Last(jobs), Last(replies));
      assert jobs == Init(jobs) + [Last(jobs)] && replies == Init(replies) + [Last(replies)];
    }
  }

  /** All acknowledged versions, in order. */
  function AckedVersions(replies: seq<Reply>): seq<nat> {
    if replies == [] then []
    else AckedVersions(Init(replies)) + (if Last(replies).Ack? then Last(replies).versions else [])
  }

  lemma AckedStart()
    ensures AckedVersions([]) == []
  {
  }

  lemma AckedEnd(replies: seq<Reply>, r: Reply)
    ensures AckedVersions(replies + [r]) == AckedVersions(replies) + if r.Ack? then r.versions else []
  {
    assert Init(replies + [r]) == replies;
  }

  lemma {:induction false} AckedJoin(a: seq<Reply>, b: seq<Reply>)
    ensures AckedVersions(a + b) == AckedVersions(a) + AckedVersions(b)
    decreases |b|
  {
    hide AckedVersions;
    if b == [] {
      AckedStart();
      assert a + b == a && AckedVersions(a) + [] == AckedVersions(a);
    } else {
      AckedJoin(a, Init(b));
      AckedEnd(a + Init(b), Last(b));
      AckedEnd(Init(b), Last(b));
      assert a + b == a + Init(b) + [Last(b)] && b == Init(b) + [Last(b)];
      Reassociate(AckedVersions(a), AckedVersions(Init(b)), if Last(b).Ack? then Last(b).versions else []);
    }
  }

  /** Every request is acknowledged, as flushed so far. */
  ghost predicate AllAcked(replies: seq<Reply>, synced: nat) {
    forall i :: 0 <= i < |replies| ==> replies[i].Ack? && replies[i].synced == synced
  }

  /** How far acknowledgements say the log is flushed. */
  ghost predicate SyncedWithin(replies: seq<Reply>, low: nat, high: nat) {
    forall i :: 0 <= i < |replies| && replies[i].Ack? ==> low <= replies[i].synced <= high
  }

  lemma FailureAcks(fault: Fault)
    ensures AckedVersions([Failure(fault)]) == [] && forall low, high :: SyncedWithin([Failure(fault)], low, high)
  {
    assert Init([Failure(fault)]) == [];
  }

  lemma {:induction false} AckedKept(replies: seq<Reply>)
    ensures AckedVersions(KeptReplies(replies)) == AckedVersions(replies)
    decreases |replies|
  {
    if replies != [] {
      AckedKept(Init(replies));
      var kept := KeptReplies(Init(replies));
      if Lost(Last(replies)) {
        assert kept + [] == kept;
      } else {
        assert Init(kept + [Last(replies)]) == kept;
      }
    }
  }

  lemma {:induction false} AckedAre<P>(replies: seq<Reply>, verdicts: seq<Verdict>, jobs: seq<Request<P>>)
    requires Answers(replies, verdicts, jobs)
    ensures AckedVersions(replies) == Versions(verdicts)
    decreases |replies|
  {
    if replies != [] {
      var n := |replies| - 1;
      assert Answer(replies[n], verdicts[n], jobs[n].durability);
      assert Answers(Init(replies), Init(verdicts), Init(jobs));
      AckedAre(Init(replies), Init(verdicts), Init(jobs));
    }
  }

  /** What was acknowledged is exactly what the requests that were not lost minted:
      every new version once, in order. */
  lemma ServedCounts<S, P>(fold: (S, P) -> Fold<S>, v: View<S>, jobs: seq<Request<P>>, replies: seq<Reply>)
    requires Served(fold, v, jobs, replies)
    ensures
      var kept := KeptJobs(jobs, replies);
      && v.version <= SerialView(fold, v, kept).version == v.version + |SerialMade(fold, v, kept)|
      && AckedVersions(replies) == Range(v.version, SerialView(fold, v, kept).version)
      && |AckedVersions(replies)| == |SerialMade(fold, v, kept)|
  {
    hide SerialView, SerialMade, SerialVerdicts, Versions, Answers, KeptJobs, KeptReplies, AckedVersions;
    var kept := KeptJobs(jobs, replies);
    VersionsPartition(fold, v, kept);
    AckedAre(KeptReplies(replies), SerialVerdicts(fold, v, kept), kept);
    AckedKept(replies);
  }

  lemma PickedRange<P>(before: seq<P>, more: seq<P>, size: P -> nat)
    ensures Known(Range(|before|, |before| + |more|), |before + more|)
    ensures Picked(Range(|before|, |before| + |more|), before + more, size) == EntriesOf(|before|, more, size)
  {
  }

  /** A history and its patches, later, are what committing requests one at a time
      leaves, but for those the storage refused to write, and the replies are
      theirs. */
  ghost predicate Leaves<S, P>(fold: (S, P) -> Fold<S>, v: View<S>, past: seq<S>, patches: seq<P>,
          jobs: seq<Request<P>>, replies: seq<Reply>, later: seq<S>, told: seq<P>) {
    && Served(fold, v, jobs, replies)
    && var made := SerialMade(fold, v, KeptJobs(jobs, replies));
      && later == past + States(made) && told == patches + Patches(made)
  }

  lemma LeavesSame<S, P>(fold: (S, P) -> Fold<S>, v: View<S>, past: seq<S>, patches: seq<P>)
    ensures Leaves(fold, v, past, patches, [], [], past, patches)
  {
    ServedNone<S, P>(fold, v);
    assert past + [] == past && patches + [] == patches;
  }

  lemma LeavesJoin<S, P>(fold: (S, P) -> Fold<S>, past: seq<S>, patches: seq<P>, a: seq<Request<P>>, ra: seq<Reply>,
          mid: seq<S>, held: seq<P>, b: seq<Request<P>>, rb: seq<Reply>, later: seq<S>, told: seq<P>)
    requires History(fold, past, patches) && mid != []
    requires Leaves(fold, Current(past), past, patches, a, ra, mid, held)
    requires Leaves(fold, Current(mid), mid, held, b, rb, later, told)
    ensures Leaves(fold, Current(past), past, patches, a + b, ra + rb, later, told)
  {
    hide Served, SerialView, SerialMade, States, Patches, KeptJobs, History;
    ServedLengths(fold, Current(past), a, ra);
    SerialCurrent(fold, past, patches, KeptJobs(a, ra));
    ServedJoin(fold, Current(past), past, patches, a, ra, b, rb);
  }

  lemma ServedLengths<S, P>(fold: (S, P) -> Fold<S>, v: View<S>, jobs: seq<Request<P>>, replies: seq<Reply>)
    requires Served(fold, v, jobs, replies)
    ensures |jobs| == |replies|
  {
  }

  /** Serving some requests, then more on top, is serving them all. */
  lemma ServedJoin<S, P>(fold: (S, P) -> Fold<S>, v: View<S>, past: seq<S>, patches: seq<P>, a: seq<Request<P>>,
          ra: seq<Reply>, b: seq<Request<P>>, rb: seq<Reply>)
    requires Served(fold, v, a, ra) && Served(fold, SerialView(fold, v, KeptJobs(a, ra)), b, rb)
    ensures Served(fold, v, a + b, ra + rb) && KeptJobs(a + b, ra + rb) == KeptJobs(a, ra) + KeptJobs(b, rb)
    ensures
      var first := SerialMade(fold, v, KeptJobs(a, ra));
      var next := SerialMade(fold, SerialView(fold, v, KeptJobs(a, ra)), KeptJobs(b, rb));
      var all := SerialMade(fold, v, KeptJobs(a + b, ra + rb));
      && past + States(first) + States(next) == past + States(all)
      && patches + Patches(first) + Patches(next) == patches + Patches(all)
  {
    hide SerialView, SerialMade, SerialVerdicts, KeptJobs, KeptReplies, States, Patches, Answer;
    KeptJoin(a, ra, b, rb);
    var ka, kb := KeptJobs(a, ra), KeptJobs(b, rb);
    SerialJoin(fold, v, ka, kb);
    MadeJoin(past, patches, SerialMade(fold, v, ka), SerialMade(fold, SerialView(fold, v, ka), kb));
  }

  lemma ServedNone<S, P>(fold: (S, P) -> Fold<S>, v: View<S>)
    ensures Served<S, P>(fold, v, [], []) && KeptJobs<P>([], []) == []
    ensures SerialView<S, P>(fold, v, []) == v && SerialMade<S, P>(fold, v, []) == []
    ensures States<S, P>([]) == [] && Patches<S, P>([]) == []
  {
  }

  lemma OneKept<P>(jobs: seq<Request<P>>, replies: seq<Reply>)
    requires |jobs| == |replies| == 1
    ensures KeptJobs(jobs, replies) == (if Lost(replies[0]) then [] else jobs)
    ensures KeptReplies(replies) == (if Lost(replies[0]) then [] else replies)
  {
    assert Init(jobs) == [] && Init(replies) == [] && [] + [Last(jobs)] == jobs && [] + [Last(replies)] == replies;
  }

  lemma OneRefused<S, P>(fold: (S, P) -> Fold<S>, v: View<S>, jobs: seq<Request<P>>, replies: seq<Reply>)
    requires |jobs| == 1 && replies == [Failure(Fault.Data)] && !Accepts(fold, v, jobs[0].patches)
    ensures SerialMade(fold, v, jobs) == [] && Answers(replies, SerialVerdicts(fold, v, jobs), jobs)
  {
    hide Accepts, Final, Minted;
    SerialNext(fold, v, jobs, 0);
    SerialNone<S, P>(fold, v);
    assert jobs[..1] == jobs && jobs[..0] == [];
  }

  lemma OneFlat<P>(jobs: seq<Request<P>>)
    requires |jobs| == 1
    ensures Flat(jobs) == jobs[0].patches
  {
    assert Init(jobs) == [] && Flat(jobs) == [] + jobs[0].patches;
  }

  /** A request alone that was lost, or refused. */
  lemma OneFailed<S, P>(fold: (S, P) -> Fold<S>, v: View<S>, jobs: seq<Request<P>>, replies: seq<Reply>, fault: Fault)
    requires |jobs| == 1 && replies == [Failure(fault)] && (fault == Fault.Storage || fault == Fault.Data)
    requires fault == Fault.Data ==> !Accepts(fold, v, Flat(jobs))
    ensures Served(fold, v, jobs, replies) && SerialMade(fold, v, KeptJobs(jobs, replies)) == []
    ensures |KeptJobs(jobs, replies)| == if fault == Fault.Storage then 0 else 1
    ensures States<S, P>([]) == [] && Patches<S, P>([]) == []
  {
    hide Accepts, KeptJobs, KeptReplies, SerialMade, SerialView, SerialVerdicts, Flat, States, Patches, Answers;
    OneKept(jobs, replies);
    OneFlat(jobs);
    ServedNone<S, P>(fold, v);
    if fault == Fault.Data {
      OneRefused(fold, v, jobs, replies);
    } else {
      ServedEmpty<S, P>(fold, v);
    }
  }

  lemma ServedEmpty<S, P>(fold: (S, P) -> Fold<S>, v: View<S>)
    ensures Answers<P>([], SerialVerdicts<S, P>(fold, v, []), [])
  {
  }

  /** What was acknowledged or refused was not lost. */
  lemma NoneLost<S, P>(fold: (S, P) -> Fold<S>, v: View<S>, jobs: seq<Request<P>>, replies: seq<Reply>)
    requires Answers(replies, SerialVerdicts(fold, v, jobs), jobs)
    ensures Served(fold, v, jobs, replies) && KeptJobs(jobs, replies) == jobs
  {
    hide SerialVerdicts;
    forall i | 0 <= i < |replies|
      ensures !Lost(replies[i])
    {
      assert Answer(replies[i], SerialVerdicts(fold, v, jobs)[i], jobs[i].durability);
    }
    KeptAll(jobs, replies);
  }

  /** Each request that was not lost met the ones before it that were not. */
  lemma {:induction false} ServedAt<S, P>(fold: (S, P) -> Fold<S>, v: View<S>, jobs: seq<Request<P>>,
          replies: seq<Reply>, j: nat)
    requires Served(fold, v, jobs, replies) && j < |jobs| && !Lost(replies[j])
    ensures Answer(replies[j], VerdictOf(fold, SerialView(fold, v, KeptJobs(jobs[..j], replies[..j])), jobs[j]),
      jobs[j].durability)
    decreases |jobs|
  {
    hide VerdictOf, SerialView, Answer;
    var before, told := Init(jobs), Init(replies);
    var kept, heard := KeptJobs(before, told), KeptReplies(told);
    if !Lost(Last(replies)) {
      assert KeptJobs(jobs, replies) == kept + [Last(jobs)] && KeptReplies(replies) == heard + [Last(replies)];
      AnswersInit(fold, v, kept, heard, Last(jobs), Last(replies));
    } else {
      assert kept + [] == kept && heard + [] == heard;
    }
    if j == |jobs| - 1 {
      assert jobs[..j] == before && replies[..j] == told;
    } else {
      ServedAt(fold, v, before, told, j);
      assert before[..j] == jobs[..j] && told[..j] == replies[..j];
    }
  }

  lemma AnswersInit<S, P>(fold: (S, P) -> Fold<S>, v: View<S>, jobs: seq<Request<P>>, replies: seq<Reply>,
          q: Request<P>, r: Reply)
    requires Answers(replies + [r], SerialVerdicts(fold, v, jobs + [q]), jobs + [q])
    ensures Answers(replies, SerialVerdicts(fold, v, jobs), jobs)
    ensures Answer(r, VerdictOf(fold, SerialView(fold, v, jobs), q), q.durability)
  {
    hide VerdictOf, SerialView, Answer;
    var all, more, heard := jobs + [q], SerialVerdicts(fold, v, jobs + [q]), replies + [r];
    assert Init(all) == jobs && Last(all) == q;
    assert more == SerialVerdicts(fold, v, jobs) + [VerdictOf(fold, SerialView(fold, v, jobs), q)];
    assert Answer(heard[|jobs|], more[|jobs|], all[|jobs|].durability);
    forall i | 0 <= i < |replies|
      ensures Answer(replies[i], SerialVerdicts(fold, v, jobs)[i], jobs[i].durability)
    {
      assert Answer(heard[i], more[i], all[i].durability);
    }
  }
}
