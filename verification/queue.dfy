/** A queue of commands whose appends are gathered, and the answers it gives. */
module CommandQueue {
  import opened Common
  import opened Logs
  import opened SharedState
  import opened GroupCommit

  datatype Command<P> =
    | Append(request: Request<P>)
    | Undecodable
    | Show(at: Option<nat>)
    | Fetch(after: nat, limit: nat)
    | Save

  datatype Response<S, P> =
    | Appended(reply: Reply)
    | Undecoded
    | Shown(view: View<S>)
    | NotRetained
    | Fetched(caught: CaughtUp<P>)
    | Saved
    | Broken
    | Waiting

  /** The appends of a stretch of a queue, and where they stand. */
  function Requests<P>(queue: seq<Command<P>>, from: nat, end: nat): seq<Request<P>>
    requires from <= end <= |queue|
  {
    if from == end then []
    else Requests(queue, from, end - 1) + (if queue[end - 1].Append? then [queue[end - 1].request] else [])
  }

  function Slots<P>(queue: seq<Command<P>>, from: nat, end: nat): seq<nat>
    requires from <= end <= |queue|
  {
    if from == end then []
    else Slots(queue, from, end - 1) + (if queue[end - 1].Append? then [end - 1] else [])
  }

  /** The appends ahead of a command that were not lost. */
  function KeptOf<S, P>(queue: seq<Command<P>>, out: seq<Response<S, P>>, end: nat): seq<Request<P>>
    requires end <= |queue| && end <= |out|
  {
    if end == 0 then []
    else
      var kept := queue[end - 1].Append? && !LostAppend(out[end - 1]);
      KeptOf(queue, out, end - 1) + (if kept then [queue[end - 1].request] else [])
  }

  predicate LostAppend<S, P>(r: Response<S, P>) {
    r.Appended? && Lost(r.reply)
  }

  /** The versions acknowledged so far, in order. */
  function AckedAll<S, P>(out: seq<Response<S, P>>, end: nat): seq<nat>
    requires end <= |out|
  {
    if end == 0 then []
    else
      var r := out[end - 1];
      AckedAll(out, end - 1) + (if r.Appended? && r.reply.Ack? then r.reply.versions else [])
  }

  /** How far acknowledgements say the log is flushed. */
  ghost predicate SyncedIn<S, P>(out: seq<Response<S, P>>, end: nat, low: nat, high: nat)
    requires end <= |out|
  {
    forall i :: 0 <= i < end && out[i].Appended? && out[i].reply.Ack? ==> low <= out[i].reply.synced <= high
  }

  /** Everything was answered. */
  ghost predicate NoneBroken<S, P>(out: seq<Response<S, P>>, end: nat)
    requires end <= |out|
  {
    forall i :: 0 <= i < end ==> out[i] != Broken
  }

  /** The log a queue is taken up on: its fold, its history, and the first version
      whose view it keeps. */
  datatype Ground<!S, !P> = Ground(fold: (S, P) -> Fold<S>, past: seq<S>, patches: seq<P>, base: nat)

  /** The version a header covers everything up to. */
  function CoveredBy<S>(header: Option<View<S>>): nat {
    if header.Some? then header.value.version else 0
  }

  /** The history requests leave, each alone, in order. */
  ghost function Met<S, P>(g: Ground<S, P>, kept: seq<Request<P>>): seq<S>
    requires g.past != []
  {
    g.past + States(SerialMade(g.fold, Current(g.past), kept))
  }

  ghost function ToldTo<S, P>(g: Ground<S, P>, kept: seq<Request<P>>): seq<P>
    requires g.past != []
  {
    g.patches + Patches(SerialMade(g.fold, Current(g.past), kept))
  }

  /** What a command that is not an append gets from a history, where the header
      covers everything up to `covered`. */
  ghost predicate Shows<S, P>(c: Command<P>, past: seq<S>, patches: seq<P>, base: nat, covered: nat, r: Response<S, P>)
    requires past != [] && !c.Append?
  {
    match c
    case Undecodable => r == Undecoded
    case Show(at) =>
      if at == None then r == Shown(Current(past))
      else if base <= at.value < |past| then r == Shown(View(at.value, past[at.value]))
      else r == NotRetained
    case Fetch(after, limit) =>
      || r.Broken?
      || (r.Fetched? &&
          match r.caught
          case Run(es) => RunOf(es, patches, after) && |es| <= limit
          case Gap(end) => end <= |patches|)
    case Save => r == Broken || (r == Saved && |past| <= covered + 1)
  }

  /** A response agrees with one-at-a-time processing: it is what the command would
      get from the history that the kept appends ahead of it leave. A checkpoint that
      was saved is covered by the header there is in the end. */
  ghost predicate Agrees<S, P>(g: Ground<S, P>, covered: nat, queue: seq<Command<P>>, kept: seq<Request<P>>, i: nat,
          r: Response<S, P>)
    requires i < |queue| && g.past != []
  {
    if queue[i].Append? then
      var q := queue[i].request;
      && r.Appended?
      && (Lost(r.reply) || Answer(r.reply, VerdictOf(g.fold, Current(Met(g, kept)), q), q.durability))
    else Shows(queue[i], Met(g, kept), ToldTo(g, kept), g.base, covered, r)
  }

  ghost predicate AllAgree<S, P>(g: Ground<S, P>, covered: nat, queue: seq<Command<P>>, out: seq<Response<S, P>>,
          end: nat)
    requires end <= |queue| && end <= |out| && g.past != []
  {
    forall i :: 0 <= i < end ==> Agrees(g, covered, queue, KeptOf(queue, out, i), i, out[i])
  }

  /** What waits since the last commit: the appends, and the slots their responses
      are due in; everything else met since then could not be decoded. */
  ghost predicate Queued<S, P>(queue: seq<Command<P>>, from: nat, i: nat, batch: seq<Request<P>>, slots: seq<nat>,
          out: seq<Response<S, P>>) {
    && from <= i <= |queue| && |out| == i
    && batch == Requests(queue, from, i) && slots == Slots(queue, from, i)
    && forall k :: from <= k < i && !queue[k].Append? ==> queue[k] == Undecodable && out[k] == Undecoded
  }

  lemma QueuedNone<S, P>(queue: seq<Command<P>>, i: nat, out: seq<Response<S, P>>)
    requires i <= |queue| && |out| == i
    ensures Queued(queue, i, i, [], [], out)
  {
  }

  /** One more append queued, or one more command that could not be decoded. */
  lemma QueuedMore<S, P>(queue: seq<Command<P>>, from: nat, i: nat, batch: seq<Request<P>>, slots: seq<nat>,
          out: seq<Response<S, P>>, r: Response<S, P>)
    requires i < |queue| && Queued(queue, from, i, batch, slots, out)
    requires queue[i].Append? || (queue[i] == Undecodable && r == Undecoded)
    ensures
      if queue[i].Append? then Queued(queue, from, i + 1, batch + [queue[i].request], slots + [i], out + [r])
      else Queued(queue, from, i + 1, batch, slots, out + [r])
  {
  }

  lemma NoneTold<S, P>(g: Ground<S, P>, covered: nat, queue: seq<Command<P>>)
    requires g.past != []
    ensures KeptOf<S, P>(queue, [], 0) == [] && Requests(queue, 0, 0) == [] && Queued<S, P>(queue, 0, 0, [], [], [])
    ensures Met(g, []) == g.past && ToldTo(g, []) == g.patches && AckedAll<S, P>([], 0) == []
    ensures AllAgree<S, P>(g, covered, queue, [], 0)
  {
    ServedNone<S, P>(g.fold, Current(g.past));
    assert g.past + [] == g.past && g.patches + [] == g.patches;
  }

  lemma {:induction false} SameKept<S, P>(queue: seq<Command<P>>, out: seq<Response<S, P>>, other: seq<Response<S, P>>,
          end: nat)
    requires end <= |queue| && end <= |out| && end <= |other| && forall k :: 0 <= k < end ==> out[k] == other[k]
    ensures KeptOf(queue, out, end) == KeptOf(queue, other, end) && AckedAll(out, end) == AckedAll(other, end)
  {
    if end > 0 {
      SameKept(queue, out, other, end - 1);
    }
  }

  /** What agreed still agrees when later responses change and the header moves on. */
  lemma SameTold<S, P>(g: Ground<S, P>, covered: nat, more: nat, queue: seq<Command<P>>, out: seq<Response<S, P>>,
          other: seq<Response<S, P>>, end: nat)
    requires g.past != [] && end <= |queue| && end <= |out| && end <= |other|
      && forall k :: 0 <= k < end ==> out[k] == other[k]
    requires covered <= more
    ensures KeptOf(queue, out, end) == KeptOf(queue, other, end) && AckedAll(out, end) == AckedAll(other, end)
    ensures AllAgree(g, covered, queue, out, end) ==> AllAgree(g, more, queue, other, end)
  {
    hide KeptOf, Agrees, AckedAll;
    SameKept(queue, out, other, end);
    forall i | 0 <= i < end
      ensures KeptOf(queue, out, i) == KeptOf(queue, other, i)
      ensures Agrees(g, covered, queue, KeptOf(queue, out, i), i, out[i]) ==>
        Agrees(g, more, queue, KeptOf(queue, other, i), i, other[i])
    {
      SameKept(queue, out, other, i);
      AgreesOn(g, covered, more, queue, KeptOf(queue, out, i), i, out[i]);
    }
  }

  lemma AgreesOn<S, P>(g: Ground<S, P>, covered: nat, more: nat, queue: seq<Command<P>>, kept: seq<Request<P>>, i: nat,
          r: Response<S, P>)
    requires i < |queue| && g.past != [] && covered <= more
    ensures Agrees(g, covered, queue, kept, i, r) ==> Agrees(g, more, queue, kept, i, r)
  {
    hide Met, ToldTo, VerdictOf, Answer, RunOf;
  }

  lemma {:induction false} RequestsJoin<P>(queue: seq<Command<P>>, from: nat, mid: nat, end: nat)
    requires from <= mid <= end <= |queue|
    ensures Requests(queue, from, end) == Requests(queue, from, mid) + Requests(queue, mid, end)
    ensures Slots(queue, from, end) == Slots(queue, from, mid) + Slots(queue, mid, end)
    decreases end
  {
    if end > mid {
      RequestsJoin(queue, from, mid, end - 1);
    } else {
      assert Requests(queue, from, mid) + [] == Requests(queue, from, mid);
      assert Slots(queue, from, mid) + [] == Slots(queue, from, mid);
    }
  }

  lemma {:induction false} SlotsWithin<P>(queue: seq<Command<P>>, from: nat, end: nat)
    requires from <= end <= |queue|
    ensures |Slots(queue, from, end)| == |Requests(queue, from, end)|
    ensures forall j :: 0 <= j < |Slots(queue, from, end)| ==>
      from <= Slots(queue, from, end)[j] < end && queue[Slots(queue, from, end)[j]].Append?
    ensures forall j, k :: 0 <= j < k < |Slots(queue, from, end)| ==>
      Slots(queue, from, end)[j] < Slots(queue, from, end)[k]
    decreases end
  {
    if end > from {
      SlotsWithin(queue, from, end - 1);
    }
  }

  /** Where an append of a queue stands among those that wait. */
  lemma SlotOf<P>(queue: seq<Command<P>>, from: nat, k: nat, end: nat)
    requires from <= k < end <= |queue| && queue[k].Append?
    ensures
      var j := |Requests(queue, from, k)|;
      && j < |Requests(queue, from, end)| == |Slots(queue, from, end)| && Slots(queue, from, end)[j] == k
      && Requests(queue, from, end)[j] == queue[k].request
      && Requests(queue, from, end)[..j] == Requests(queue, from, k)
  {
    RequestsJoin(queue, from, k + 1, end);
    SlotsWithin(queue, from, k);
    SlotsWithin(queue, from, end);
  }

  /** The responses of a commit are in their slots, and nothing else has changed. */
  ghost predicate Placed<S, P>(out: seq<Response<S, P>>, slots: seq<nat>, replies: seq<Reply>,
          placed: seq<Response<S, P>>) {
    && |slots| == |replies| && |placed| == |out|
    && (forall j :: 0 <= j < |slots| ==> slots[j] < |out| && placed[slots[j]] == Appended(replies[j]))
    && (forall k :: 0 <= k < |out| && k !in slots ==> placed[k] == out[k])
  }

  /** Where the response to an append that waited was put. */
  lemma PlacedAt<S, P>(queue: seq<Command<P>>, from: nat, i: nat, batch: seq<Request<P>>, slots: seq<nat>,
          out: seq<Response<S, P>>, replies: seq<Reply>, placed: seq<Response<S, P>>, k: nat)
    requires Queued(queue, from, i, batch, slots, out) && Placed(out, slots, replies, placed)
    requires |batch| == |replies| && from <= k < i && queue[k].Append?
    ensures
      var j := |Requests(queue, from, k)|;
      && j < |batch| && k < |placed| && batch[..j] == Requests(queue, from, k)
      && batch[j] == queue[k].request && placed[k] == Appended(replies[j])
  {
    hide Requests, Slots;
    SlotOf(queue, from, k, i);
  }

  /** What was not an append of a commit stays as it was. */
  lemma PlacedElse<S, P>(queue: seq<Command<P>>, from: nat, i: nat, batch: seq<Request<P>>, slots: seq<nat>,
          out: seq<Response<S, P>>, replies: seq<Reply>, placed: seq<Response<S, P>>)
    requires Queued(queue, from, i, batch, slots, out) && Placed(out, slots, replies, placed)
    ensures from <= i == |placed| == |out| <= |queue| && forall k :: 0 <= k < from ==> placed[k] == out[k]
    ensures forall k :: from <= k < i && !queue[k].Append? ==> placed[k] == Undecoded && queue[k] == Undecodable
  {
    hide Requests, Slots;
    SlotsWithin(queue, from, i);
    forall k | 0 <= k < i && (k < from || !queue[k].Append?)
      ensures placed[k] == out[k]
    {
      assert k !in slots;
    }
  }

  /** What a commit kept comes on top of what was kept before. */
  lemma {:induction false} SettledUpTo<S, P>(queue: seq<Command<P>>, from: nat, i: nat, batch: seq<Request<P>>,
          slots: seq<nat>, out: seq<Response<S, P>>, replies: seq<Reply>, placed: seq<Response<S, P>>, k: nat)
    requires Queued(queue, from, i, batch, slots, out) && Placed(out, slots, replies, placed)
    requires from <= k <= i && |batch| == |replies|
    ensures k <= |placed| && from <= |out| && from <= k <= |queue|
    ensures
      var j := |Requests(queue, from, k)|;
      && j <= |batch| && batch[..j] == Requests(queue, from, k)
      && KeptOf(queue, placed, k) == KeptOf(queue, out, from) + KeptJobs(batch[..j], replies[..j])
      && AckedAll(placed, k) == AckedAll(out, from) + AckedVersions(replies[..j])
    decreases k
  {
    hide Lost, KeptOf, KeptJobs, Requests, Slots, AckedAll, AckedVersions, Queued, Placed;
    PlacedElse(queue, from, i, batch, slots, out, replies, placed);
    if k == from {
      SameKept(queue, out, placed, from);
      NoneWaiting(queue, from);
      assert KeptOf(queue, out, from) + [] == KeptOf(queue, out, from);
      assert AckedAll(out, from) + [] == AckedAll(out, from);
    } else {
      SettledUpTo(queue, from, i, batch, slots, out, replies, placed, k - 1);
      OneMoreWaiting(queue, from, k, placed);
      if queue[k - 1].Append? {
        PlacedAt(queue, from, i, batch, slots, out, replies, placed, k - 1);
        var j := |Requests(queue, from, k - 1)|;
        OneMoreKept(batch, replies, j);
        assert batch[..j + 1] == batch[..j] + [batch[j]];
        var more := if replies[j].Ack? then replies[j].versions else [];
        var kept := if Lost(replies[j]) then [] else [batch[j]];
        Reassociate(AckedAll(out, from), AckedVersions(replies[..j]), more);
        Reassociate(KeptOf(queue, out, from), KeptJobs(batch[..j], replies[..j]), kept);
      }
    }
  }

  /** What holds of every reply of a commit, and of every response before it, holds of
      them together. */
  lemma SettledSynced<S, P>(queue: seq<Command<P>>, from: nat, i: nat, batch: seq<Request<P>>, slots: seq<nat>,
          out: seq<Response<S, P>>, replies: seq<Reply>, placed: seq<Response<S, P>>, low: nat, mid: nat, high: nat)
    requires Queued(queue, from, i, batch, slots, out) && Placed(out, slots, replies, placed) && |batch| == |replies|
    requires SyncedIn(out, from, low, mid) && SyncedWithin(replies, mid, high) && low <= mid <= high
    ensures from <= i == |placed| == |out| && SyncedIn(placed, i, low, high)
    ensures NoneBroken(out, from) ==> NoneBroken(placed, i)
  {
    hide Requests, Slots, Queued, Placed;
    PlacedElse(queue, from, i, batch, slots, out, replies, placed);
    forall k | 0 <= k < i
      ensures placed[k].Appended? && placed[k].reply.Ack? ==> low <= placed[k].reply.synced <= high
      ensures NoneBroken(out, from) ==> placed[k] != Broken
    {
      if k >= from && queue[k].Append? {
        PlacedAt(queue, from, i, batch, slots, out, replies, placed, k);
      }
    }
  }

  lemma NoneWaiting<P>(queue: seq<Command<P>>, from: nat)
    requires from <= |queue|
    ensures Requests(queue, from, from) == [] && KeptJobs<P>([], []) == [] && AckedVersions([]) == []
  {
  }

  lemma OneMoreWaiting<S, P>(queue: seq<Command<P>>, from: nat, k: nat, out: seq<Response<S, P>>)
    requires from < k <= |queue| && k <= |out|
    ensures Requests(queue, from, k) == Requests(queue, from, k - 1) +
      if queue[k - 1].Append? then [queue[k - 1].request] else []
    ensures KeptOf(queue, out, k) == KeptOf(queue, out, k - 1) +
      if queue[k - 1].Append? && !LostAppend(out[k - 1]) then [queue[k - 1].request] else []
    ensures
      var r := out[k - 1];
      AckedAll(out, k) == AckedAll(out, k - 1) + if r.Appended? && r.reply.Ack? then r.reply.versions else []
  {
  }

  lemma OneMoreKept<P>(jobs: seq<Request<P>>, replies: seq<Reply>, j: nat)
    requires j < |jobs| == |replies|
    ensures KeptJobs(jobs[..j + 1], replies[..j + 1]) == KeptJobs(jobs[..j], replies[..j]) +
      if Lost(replies[j]) then [] else [jobs[j]]
    ensures AckedVersions(replies[..j + 1]) == AckedVersions(replies[..j]) +
      if replies[j].Ack? then replies[j].versions else []
  {
    assert Init(jobs[..j + 1]) == jobs[..j] && Init(replies[..j + 1]) == replies[..j];
  }

  lemma SettledKept<S, P>(queue: seq<Command<P>>, from: nat, i: nat, batch: seq<Request<P>>, slots: seq<nat>,
          out: seq<Response<S, P>>, replies: seq<Reply>, placed: seq<Response<S, P>>)
    requires Queued(queue, from, i, batch, slots, out) && Placed(out, slots, replies, placed) && |batch| == |replies|
    ensures KeptOf(queue, placed, i) == KeptOf(queue, out, from) + KeptJobs(batch, replies)
    ensures |Requests(queue, 0, i)| == |Requests(queue, 0, from)| + |batch|
    ensures AckedAll(placed, i) == AckedAll(out, from) + AckedVersions(replies)
  {
    hide KeptOf, AckedAll, AckedVersions, KeptJobs, Placed, Requests, Slots;
    SettledUpTo(queue, from, i, batch, slots, out, replies, placed, i);
    RequestsJoin(queue, 0, from, i);
    assert batch[..|batch|] == batch && replies[..|replies|] == replies;
  }

  /** Committing on top of what was kept leaves what keeping it all leaves. */
  lemma SettledMade<S, P>(g: Ground<S, P>, committed: seq<Request<P>>, more: seq<Request<P>>)
    requires g.past != []
    ensures
      var next := SerialMade(g.fold, SerialView(g.fold, Current(g.past), committed), more);
      && Met(g, committed + more) == Met(g, committed) + States(next)
      && ToldTo(g, committed + more) == ToldTo(g, committed) + Patches(next)
  {
    hide SerialMade, SerialView, States, Patches;
    var v := Current(g.past);
    SerialJoin(g.fold, v, committed, more);
    MadeJoin(g.past, g.patches, SerialMade(g.fold, v, committed),
      SerialMade(g.fold, SerialView(g.fold, v, committed), more));
  }

  /** Everything waiting has been committed and answered. */
  lemma SettledAgrees<S, P>(g: Ground<S, P>, covered: nat, queue: seq<Command<P>>, from: nat, i: nat,
          batch: seq<Request<P>>, slots: seq<nat>, out: seq<Response<S, P>>, replies: seq<Reply>,
          placed: seq<Response<S, P>>)
    requires History(g.fold, g.past, g.patches) && Queued(queue, from, i, batch, slots, out)
    requires Placed(out, slots, replies, placed)
    requires AllAgree(g, covered, queue, out, from)
    requires Served(g.fold, SerialView(g.fold, Current(g.past), KeptOf(queue, out, from)), batch, replies)
    ensures AllAgree(g, covered, queue, placed, i)
  {
    hide Agrees, KeptOf, Requests, Slots, Served, SerialView, History, Queued, Placed;
    PlacedElse(queue, from, i, batch, slots, out, replies, placed);
    ServedLengths(g.fold, SerialView(g.fold, Current(g.past), KeptOf(queue, out, from)), batch, replies);
    SameTold(g, covered, covered, queue, out, placed, from);
    forall k | from <= k < i
      ensures Agrees(g, covered, queue, KeptOf(queue, placed, k), k, placed[k])
    {
      SettledUpTo(queue, from, i, batch, slots, out, replies, placed, k);
      if queue[k].Append? {
        PlacedAt(queue, from, i, batch, slots, out, replies, placed, k);
        AnsweredAt(g, covered, queue, k, KeptOf(queue, out, from), batch, replies, |Requests(queue, from, k)|);
      } else {
        UndecodedAgrees(g, covered, queue, KeptOf(queue, placed, k), k);
      }
    }
  }

  /** The history that kept appends leave ends in their view. */
  lemma MetView<S, P>(g: Ground<S, P>, kept: seq<Request<P>>)
    requires History(g.fold, g.past, g.patches)
    ensures Met(g, kept) != [] && Current(Met(g, kept)) == SerialView(g.fold, Current(g.past), kept)
    ensures |ToldTo(g, kept)| == |g.patches| + |SerialMade(g.fold, Current(g.past), kept)|
  {
    hide History, SerialMade, SerialView;
    SerialCurrent(g.fold, g.past, g.patches, kept);
  }

  /** Committing what waits on top of the history of what was kept leaves the
      history of it all, and every response agrees. */
  lemma SettledMet<S, P>(g: Ground<S, P>, covered: nat, more: nat, queue: seq<Command<P>>, from: nat, i: nat,
          batch: seq<Request<P>>, slots: seq<nat>, out: seq<Response<S, P>>, replies: seq<Reply>,
          placed: seq<Response<S, P>>)
    requires History(g.fold, g.past, g.patches) && covered <= more
    requires Queued(queue, from, i, batch, slots, out) && Placed(out, slots, replies, placed)
    requires AllAgree(g, covered, queue, out, from) && Met(g, KeptOf(queue, out, from)) != []
    requires Served(g.fold, Current(Met(g, KeptOf(queue, out, from))), batch, replies)
    ensures
      var past, patches := Met(g, KeptOf(queue, out, from)), ToldTo(g, KeptOf(queue, out, from));
      var made := SerialMade(g.fold, Current(past), KeptJobs(batch, replies));
      && Met(g, KeptOf(queue, placed, i)) == past + States(made)
      && ToldTo(g, KeptOf(queue, placed, i)) == patches + Patches(made)
    ensures AllAgree(g, more, queue, placed, i)
  {
    hide History, Served, SerialView, SerialMade, States, Patches, KeptOf, KeptJobs, Met, ToldTo, AllAgree, Queued,
      Placed, Answer;
    PlacedElse(queue, from, i, batch, slots, out, replies, placed);
    var committed := KeptOf(queue, out, from);
    MetView(g, committed);
    ServedLengths(g.fold, Current(Met(g, committed)), batch, replies);
    SettledKept(queue, from, i, batch, slots, out, replies, placed);
    SettledMade(g, committed, KeptJobs(batch, replies));
    SettledAgrees(g, covered, queue, from, i, batch, slots, out, replies, placed);
    SameTold(g, covered, more, queue, placed, placed, i);
  }

  lemma AnsweredAt<S, P>(g: Ground<S, P>, covered: nat, queue: seq<Command<P>>, k: nat, committed: seq<Request<P>>,
          batch: seq<Request<P>>, replies: seq<Reply>, j: nat)
    requires k < |queue| && History(g.fold, g.past, g.patches) && j < |batch| == |replies|
    requires queue[k] == Append(batch[j])
    requires Served(g.fold, SerialView(g.fold, Current(g.past), committed), batch, replies)
    ensures Agrees(g, covered, queue, committed + KeptJobs(batch[..j], replies[..j]), k, Appended(replies[j]))
  {
    hide Served, SerialView, SerialMade, History, VerdictOf, Answer, KeptJobs, Lost;
    var v, before := Current(g.past), KeptJobs(batch[..j], replies[..j]);
    SerialCurrent(g.fold, g.past, g.patches, committed + before);
    SerialJoin(g.fold, v, committed, before);
    if !Lost(replies[j]) {
      ServedAt(g.fold, SerialView(g.fold, v, committed), batch, replies, j);
    }
  }

  lemma UndecodedAgrees<S, P>(g: Ground<S, P>, covered: nat, queue: seq<Command<P>>, kept: seq<Request<P>>, i: nat)
    requires i < |queue| && g.past != [] && queue[i] == Undecodable
    ensures Agrees(g, covered, queue, kept, i, Undecoded)
  {
  }

  /** One more command answered with nothing waiting. */
  lemma OneMoreTold<S, P>(g: Ground<S, P>, covered: nat, queue: seq<Command<P>>, out: seq<Response<S, P>>, i: nat,
          r: Response<S, P>)
    requires g.past != [] && |out| == i < |queue| && !queue[i].Append?
    ensures KeptOf(queue, out + [r], i + 1) == KeptOf(queue, out, i)
    ensures Requests(queue, 0, i + 1) == Requests(queue, 0, i)
    ensures !r.Appended? ==> AckedAll(out + [r], i + 1) == AckedAll(out, i)
    ensures AllAgree(g, covered, queue, out, i) && Agrees(g, covered, queue, KeptOf(queue, out, i), i, r) ==>
      AllAgree(g, covered, queue, out + [r], i + 1)
  {
    hide Agrees;
    var more := out + [r];
    SameKept(queue, out, more, i);
    if AllAgree(g, covered, queue, out, i) && Agrees(g, covered, queue, KeptOf(queue, out, i), i, r) {
      SameTold(g, covered, covered, queue, out, more, i);
      forall k | 0 <= k < i + 1
        ensures Agrees(g, covered, queue, KeptOf(queue, more, k), k, more[k])
      {
      }
    }
  }

  /** Where every response agrees, what was acknowledged is what the kept appends
      minted. */
  lemma {:induction false} AgreedCount<S, P>(g: Ground<S, P>, covered: nat, queue: seq<Command<P>>,
          out: seq<Response<S, P>>, end: nat)
    requires History(g.fold, g.past, g.patches) && g.past != [] && end <= |queue| && end <= |out|
    requires AllAgree(g, covered, queue, out, end)
    ensures |AckedAll(out, end)| == |SerialMade(g.fold, Current(g.past), KeptOf(queue, out, end))|
    decreases end
  {
    hide History, SerialMade, SerialView, Agrees, AckedAll, KeptOf;
    if end == 0 {
      NoneTold(g, covered, queue);
      NoneAcked(g, queue, out);
    } else {
      AgreedCount(g, covered, queue, out, end - 1);
      OneMoreWaiting(queue, 0, end, out);
      assert Agrees(g, covered, queue, KeptOf(queue, out, end - 1), end - 1, out[end - 1]);
      AgreedOne(g, covered, queue, KeptOf(queue, out, end - 1), end - 1, out[end - 1]);
      var kept := KeptOf(queue, out, end - 1);
      assert kept + [] == kept;
    }
  }

  lemma NoneAcked<S, P>(g: Ground<S, P>, queue: seq<Command<P>>, out: seq<Response<S, P>>)
    requires g.past != []
    ensures AckedAll(out, 0) == [] && SerialMade(g.fold, Current(g.past), KeptOf(queue, out, 0)) == []
  {
  }

  /** One response more. */
  lemma AgreedOne<S, P>(g: Ground<S, P>, covered: nat, queue: seq<Command<P>>, kept: seq<Request<P>>, i: nat,
          r: Response<S, P>)
    requires History(g.fold, g.past, g.patches) && i < |queue| && Agrees(g, covered, queue, kept, i, r)
    ensures
      var more := kept + if queue[i].Append? && !LostAppend(r) then [queue[i].request] else [];
      |SerialMade(g.fold, Current(g.past), more)| ==
        |SerialMade(g.fold, Current(g.past), kept)| + |if r.Appended? && r.reply.Ack? then r.reply.versions else []|
  {
    hide History, Met, ToldTo, Accepts, Final, Minted, SerialMade, SerialView, Shows, VerdictOf;
    MetView(g, kept);
    if queue[i].Append? && !LostAppend(r) {
      OneAsked(g.fold, Current(g.past), kept, queue[i].request);
    } else {
      assert kept + [] == kept;
      if !queue[i].Append? {
        NoAppend(g, covered, queue, kept, i, r);
      }
    }
  }

  lemma NoAppend<S, P>(g: Ground<S, P>, covered: nat, queue: seq<Command<P>>, kept: seq<Request<P>>, i: nat,
          r: Response<S, P>)
    requires i < |queue| && g.past != [] && Agrees(g, covered, queue, kept, i, r) && !queue[i].Append?
    ensures !r.Appended?
  {
    hide Met, ToldTo, RunOf;
  }

  /** A request more mints what its verdict acknowledges. */
  lemma OneAsked<S, P>(fold: (S, P) -> Fold<S>, v: View<S>, kept: seq<Request<P>>, q: Request<P>)
    ensures |SerialMade(fold, v, kept + [q])| == |SerialMade(fold, v, kept)| +
      match VerdictOf(fold, SerialView(fold, v, kept), q) case Refused => 0 case Acked(versions) => |versions|
  {
    hide Accepts, Final, Minted;
    var w := SerialView(fold, v, kept);
    assert Init(kept + [q]) == kept && Last(kept + [q]) == q;
    if Accepts(fold, w, q.patches) {
      FinalVersion(fold, w, q.patches);
    }
  }

  /** Put replies in their slots. */
  method Place<S, P>(out: seq<Response<S, P>>, slots: seq<nat>, replies: seq<Reply>)
    returns (placed: seq<Response<S, P>>)
    requires |slots| == |replies| && (forall j :: 0 <= j < |slots| ==> slots[j] < |out|)
    requires forall j, k :: 0 <= j < k < |slots| ==> slots[j] < slots[k]
    ensures Placed(out, slots, replies, placed)
  {
    placed := out;
    for i := 0 to |slots|
      invariant |placed| == |out|
      invariant forall j :: 0 <= j < i ==> placed[slots[j]] == Appended(replies[j])
      invariant forall k :: 0 <= k < |out| && k !in slots ==> placed[k] == out[k]
    {
      placed := placed[slots[i] := Appended(replies[i])];
    }
  }
}
