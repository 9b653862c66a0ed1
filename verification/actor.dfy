/** The per-log actor: queued requests folded, written and flushed as one, then
    fanned out, then acknowledged. */
module Actors {
  import opened Common
  import opened Logs
  import opened SharedState
  import opened GroupCommit
  import opened CommandQueue
  import Rings

  class Actor<S, P(==,!new)> {
    const log: Log<S, P>
    const ring: Rings.Ring<P>
    const size: P -> nat
    /** How long a stored patch is. */
    const encoded: P -> nat
    const every: nat
    var checkpointed: nat
    /** What subscribers have been told: the watermark and the storage floor. */
    var published: nat
    var oldest: nat
    /** The last version that was written and never handed to the ring. */
    ghost var holed: nat

    ghost predicate Valid()
      reads this, log, log.data, log.storage, ring
    {
      && log.Valid() && ring.Valid()
      && checkpointed <= log.watermark && published <= log.watermark && holed <= log.watermark
      && RingOf(ring.entries, log.patches, holed, size)
      && (log.slips == 0 ==> holed == 0)
      && (published == log.watermark || holed == log.watermark)
    }

    /** Everything written has been told, and the ring is the end of it. */
    ghost predicate Whole()
      reads this, log, ring
    {
      published == log.watermark && RingHolds(ring.entries, log.patches, size)
    }

    /** What others see between two commands. */
    ghost function Outward(): Shared<P>
      reads this, log, log.storage, ring
    {
      Shared(log.patches, |log.patches|, published, log.storage.Floor(), ring.entries)
    }

    /** While no append has failed at its flush, nothing is missing from the ring;
        after one did, the ring is the end of the log again exactly once the versions
        it never saw lie below its front. */
    lemma WholeWhen()
      requires Valid()
      ensures log.slips == 0 ==> Whole()
      ensures Whole() <==> published == log.watermark && (ring.entries == [] || ring.entries[0].version > holed)
    {
      hide RingOf, RingHolds, History, Stored;
      WholeAgain(ring.entries, log.patches, holed, size);
      FrontIs(ring.entries, log.patches, holed, size);
    }

    /** Nothing is under way. */
    lemma Resting()
      requires Valid() && Whole()
      ensures AtRest(Outward()) && Sound(Outward(), size) && ring.capacity > 0
      ensures Moves(Outward(), Outward(), ring.capacity, size)
    {
      hide RingHolds, RingOf, History, Stored, Reaches;
      log.FloorIs();
      assert log.patches[..|log.patches|] == log.patches;
      ReachesSelf(Outward(), ring.capacity, size);
    }

    /** Whatever fails, nothing is taken back, and where every call to the storage
        works nothing fails. */
    twostate predicate Forward()
      reads this, log, log.storage
    {
      && log.slips >= old(log.slips) && log.faults >= old(log.faults)
      && old(log.past) <= log.past && old(log.patches) <= log.patches && old(published) <= published
      && old(log.synced) <= log.synced
      && old(log.storage.Floor()) <= log.storage.Floor()
      && old(CoveredBy(log.storage.header)) <= CoveredBy(log.storage.header)
      && (old(AllWork(log.storage.fates)) ==>
            AllWork(log.storage.fates) && log.slips == old(log.slips) && log.faults == old(log.faults))
    }

    constructor (log: Log<S, P>, capacity: nat, size: P -> nat, encoded: P -> nat, every: nat)
      requires log.Valid()
      ensures Valid() && this.log == log && this.size == size && this.encoded == encoded && this.every == every
      ensures fresh(ring) && ring.entries == [] && ring.capacity == if capacity == 0 then 1 else capacity
      ensures published == checkpointed == log.watermark && holed == 0 && Whole()
      ensures oldest == log.storage.Oldest()
    {
      this.log, this.size, this.encoded, this.every := log, size, encoded, every;
      ring := new Rings.Ring(capacity);
      checkpointed, published, holed := log.watermark, log.watermark, 0;
      new;
      oldest := log.storage.Oldest();
    }

    /** Hand new records to subscribers, then checkpoint if enough have gathered:
        to others, the records appear, enter the ring and are announced, and some of
        what a checkpoint covers goes. */
    method Publish(entries: seq<Rings.Entry<P>>, ghost before: seq<P>, ghost more: seq<P>)
      requires log.Valid() && ring.Valid() && checkpointed <= log.watermark && published <= log.watermark
      requires log.patches == before + more && entries == EntriesOf(|before|, more, size)
      requires holed <= |before| && RingOf(ring.entries, before, holed, size) && (log.slips == 0 ==> holed == 0)
      requires published == |before| || holed == |before|
      modifies this`checkpointed, this`published, this`oldest, log, log.storage, ring
      ensures Valid() && Forward() && log.past == old(log.past) && log.patches == old(log.patches)
      ensures log.slips == old(log.slips) && log.faults == old(log.faults) && log.watermark == old(log.watermark)
      ensures published == if entries != [] then log.watermark else old(published)
      ensures entries != [] ==> Due() && oldest == log.storage.Oldest()
      ensures entries == [] ==>
        oldest == old(oldest) && checkpointed == old(checkpointed) && unchanged(log) && unchanged(log.storage)
      ensures ring.entries == Rings.LastOf(old(ring.entries) + entries, ring.capacity)
      ensures old(published) == |before| && RingHolds(old(ring.entries), before, size) ==>
        && Whole()
        && Reaches(Shared(before, |before|, |before|, old(log.storage.Floor()), old(ring.entries)), Outward(),
            ring.capacity, size)
    {
      hide History, Stored, RingHolds, RingOf, Reaches, EntriesOf, Rings.LastOf;
      EntriesLength(|before|, more, size);
      log.FloorIs();
      HoledGrows(ring.entries, before, more, holed, size, ring.capacity);
      if entries == [] {
        assert before + more == before && ring.entries + entries == ring.entries;
        Rings.LastOfFits(ring.entries, ring.capacity);
        ReachesSelf(Outward(), ring.capacity, size);
        return;
      }
      if RingHolds(ring.entries, before, size) {
        RingGrows(ring.entries, before, more, size, ring.capacity);
      }
      ring.Push(entries);
      var watermark := log.watermark;
      published := watermark;
      CheckpointDue(watermark);
      log.FloorIs();
      oldest := log.storage.Oldest();
      HandedOut(before, more, old(log.storage.Floor()), old(ring.entries), ring.capacity, size, ring.entries,
        log.storage.Floor());
    }

    /** A checkpoint is taken exactly when `every` versions or more have been written
        since the last one that worked. */
    twostate predicate Due()
      reads this, log, log.storage
    {
      var fates := old(log.storage.fates);
      if every > 0 && log.watermark >= old(checkpointed) + every then
        && checkpointed == (if Works(fates) && Works(Later(fates)) then log.watermark else old(checkpointed))
        && (checkpointed != old(checkpointed) ==> log.synced == log.watermark == log.storage.durable)
        && (Works(fates) ==> log.past != [] && log.storage.header == Some(Current(log.past)))
        && log.storage.fates == if Works(fates) then Later(Later(fates)) else Later(fates)
      else
        && checkpointed == old(checkpointed) && log.synced == old(log.synced) && log.storage.fates == fates
        && log.storage.header == old(log.storage.header) && log.storage.records == old(log.storage.records)
        && log.storage.durable == old(log.storage.durable)
    }

    /** The calls left by a checkpoint, if one is due. */
    static ghost function Charged(fates: seq<bool>, due: bool): seq<bool> {
      if !due then fates else if Works(fates) then Later(Later(fates)) else Later(fates)
    }

    /** Checkpoint if enough has been written since the last one. */
    method CheckpointDue(watermark: nat)
      requires log.Valid() && watermark == log.watermark && checkpointed <= watermark
      modifies this`checkpointed, log, log.storage
      ensures log.Valid() && log.past == old(log.past) && log.patches == old(log.patches)
      ensures checkpointed <= watermark == log.watermark
      ensures log.slips == old(log.slips) && log.faults == old(log.faults) && Forward() && Due()
    {
      hide History, Stored;
      log.FloorIs();
      if every > 0 && watermark - checkpointed >= every {
        var r := log.Checkpoint();
        if r.Done? {
          checkpointed := watermark;
        }
      }
      log.FloorIs();
    }

    /** The effect of committing requests one at a time, but for those the storage
        refused to write: history, verdicts, versions, and a flush behind every
        durable acknowledgement. */
    ghost predicate Serial(v: View<S>, past: seq<S>, patches: seq<P>, jobs: seq<Request<P>>, replies: seq<Reply>)
      reads this, log
    {
      Leaves(log.data.fold, v, past, patches, jobs, replies, log.past, log.patches)
    }

    /** A flush that failed after its write leaves versions nobody was given. */
    lemma SlipShows(v: View<S>, past: seq<S>, patches: seq<P>, jobs: seq<Request<P>>, replies: seq<Reply>, slips: int)
      requires |log.patches| - |patches| >= |AckedVersions(replies)| + log.slips - slips
      ensures Serial(v, past, patches, jobs, replies) ==> log.slips <= slips
    {
      hide Answers, SerialMade, KeptJobs, AckedVersions, States, Patches;
      if Serial(v, past, patches, jobs, replies) {
        ServedCounts(log.data.fold, v, jobs, replies);
        MintedLengths(SerialMade(log.data.fold, v, KeptJobs(jobs, replies)), 0);
      }
    }

    /** Commit queued requests as one append. The effect is that of committing each
        alone, in order, but for those whose write the storage refused, exactly when
        no flush fails after its write. Where the flush of the group itself does
        (`slipped`), the group stays in the log, and its requests are committed once
        more on top of it. The ring is given what is acknowledged and nothing else. */
    method Commit(jobs: seq<Request<P>>) returns (replies: seq<Reply>, ghost slipped: bool)
      requires Valid()
      modifies this, log, log.data, log.storage, ring
      ensures Valid() && |replies| == |jobs| && old(log.past) != [] && Forward()
      ensures |jobs| - |KeptJobs(jobs, replies)| <= log.faults - old(log.faults)
      ensures log.slips == old(log.slips) <==>
        Serial(old(Current(log.past)), old(log.past), old(log.patches), jobs, replies)
      ensures slipped <==> old(log.Slips(Flat(jobs), Strongest(jobs)))
      ensures
        Accepts(log.data.fold, old(Current(log.past)), Flat(jobs)) && !old(log.Refused(Flat(jobs), Strongest(jobs))) ==>
          log.storage.fates == Charged(old(log.Left(Flat(jobs), Strongest(jobs))),
            log.patches != old(log.patches) && every > 0 && log.watermark >= old(checkpointed) + every)
      ensures old(AllWork(log.storage.fates)) && Accepts(log.data.fold, old(Current(log.past)), Flat(jobs)) ==>
        AllAcked(replies, if Strongest(jobs) == Durable && log.patches != old(log.patches) then log.watermark
          else old(log.synced))
      ensures slipped ==> log.slips > old(log.slips)
      ensures slipped && |jobs| > 1 ==> |jobs| - |KeptJobs(jobs, replies)| < log.faults - old(log.faults)
      ensures slipped && AllWork(Later(Later(old(log.storage.fates)))) ==>
        log.slips == old(log.slips) + 1 && log.faults == old(log.faults) + 1
      ensures slipped ==> (log.slips == old(log.slips) + 1 <==>
        Again(old(Current(log.past)), old(log.past), old(log.patches), jobs, replies))
      ensures !slipped && |jobs| == 1 ==> log.slips == old(log.slips)
      ensures |log.patches| - old(|log.patches|) >= |AckedVersions(replies)| + log.slips - old(log.slips)
      ensures Feeds(old(ring.entries), ring.entries, AckedVersions(replies), log.patches, size, ring.capacity)
      ensures Known(AckedVersions(replies), published)
      ensures SyncedWithin(replies, old(log.synced), log.synced)
      ensures old(Whole()) && log.slips == old(log.slips) ==>
        Whole() && Moves(old(Outward()), Outward(), ring.capacity, size)
      decreases |jobs|, 1, 1
    {
      hide Accepts, Final, Minted, Seen, History, Stored, RingHolds, RingOf, Flat, SerialVerdicts, SerialView,
        SerialMade, Strongest, Served, KeptJobs, Moves, Reaches, Sound, Again, AckedVersions, Feeds, Valid, Serial,
        Known, AllWork, Whole, Log.Slips, Log.Refused, Log.Left, Log.Valid, CoveredBy, Works, Later, Charged;
      Opened();
      ghost var v, was, whole := Current(log.past), Outward(), Whole();
      if whole {
        Resting();
      }
      if jobs == [] {
        replies, slipped := [], false;
        NothingAsked(v);
        NotDue(log.storage.fates);
        return;
      }
      var base := log.watermark;
      var views;
      views, slipped := Attempt(jobs);
      if views.Failed? {
        replies := Unwind(jobs, views.fault, v, old(log.past), old(log.patches), slipped);
        return;
      }
      replies := FanOut(jobs, views.value, v, old(log.past), old(log.patches), base);
      if whole {
        MovesTo(was, Outward(), ring.capacity, size);
      }
    }

    /** Write a group as one append; a flush of it that fails after the write leaves
        a hole in the ring. */
    method Attempt(jobs: seq<Request<P>>) returns (views: Outcome<seq<View<S>>>, ghost slipped: bool)
      requires Valid()
      modifies this`holed, log, log.data, log.storage
      ensures old(log.past) != [] && Forward()
      ensures slipped <==> old(log.Slips(Flat(jobs), Strongest(jobs)))
      ensures slipped ==> views == Failed(Fault.Storage) && log.storage.fates == Later(Later(old(log.storage.fates)))
      ensures views == Failed(Fault.Storage) <==> old(log.Refused(Flat(jobs), Strongest(jobs)))
      ensures views == Failed(Fault.Data) <==> !Accepts(log.data.fold, old(Current(log.past)), Flat(jobs))
      ensures log.storage.fates == old(log.Left(Flat(jobs), Strongest(jobs)))
      ensures log.slips == old(log.slips) + (if slipped then 1 else 0)
      ensures log.faults == old(log.faults) + if views == Failed(Fault.Storage) then 1 else 0
      ensures views.Failed? ==>
        && Valid() && (views.fault == Fault.Data || views.fault == Fault.Storage)
      ensures views.Failed? && !slipped ==>
        && log.past == old(log.past) && log.patches == old(log.patches)
        && Outward() == old(Outward()) && (old(Whole()) ==> Whole())
      ensures slipped || views.Done? ==>
        var v := old(Current(log.past));
        && Accepts(log.data.fold, v, Flat(jobs)) && (slipped ==> |log.patches| > old(|log.patches|))
        && (slipped ==> Minted(log.data.fold, v, Flat(jobs)) != [])
        && log.past == old(log.past) + States(Minted(log.data.fold, v, Flat(jobs)))
        && log.patches == old(log.patches) + Patches(Minted(log.data.fold, v, Flat(jobs)))
      ensures views.Done? ==>
        && log.Valid() && holed == old(holed) && log.watermark >= old(log.watermark)
        && views.value == Seen(log.data.fold, old(Current(log.past)), Flat(jobs))
        && log.synced == (if Strongest(jobs) == Durable && log.patches != old(log.patches) then log.watermark
            else old(log.synced))
        && log.storage.Floor() == old(log.storage.Floor())
    {
      hide Accepts, Final, Minted, Seen, History, Stored, RingHolds, RingOf, Flat, Strongest;
      log.InStep();
      log.FloorIs();
      ghost var v := Current(log.past);
      views := log.Append(Flat(jobs), Strongest(jobs));
      log.FloorIs();
      slipped := views.Failed? && log.patches != old(log.patches);
      if slipped {
        MintedLengths(Minted(log.data.fold, v, Flat(jobs)), 0);
        HoleOpens(ring.entries, old(log.patches), holed, log.patches, size);
        holed := |log.patches|;
      }
    }

    lemma NotDue(fates: seq<bool>)
      ensures Charged(fates, false) == fates
    {
    }

    /** No requests, no effect. */
    lemma NothingAsked(v: View<S>)
      requires Valid()
      ensures Serial(v, log.past, log.patches, [], []) && KeptJobs<P>([], []) == [] && AckedVersions([]) == []
      ensures Feeds(ring.entries, ring.entries, [], log.patches, size, ring.capacity) && Known([], published)
      ensures !log.Slips(Flat<P>([]), Strongest<P>([])) && !log.Refused(Flat<P>([]), Strongest<P>([]))
      ensures log.Left(Flat<P>([]), Strongest<P>([])) == log.storage.fates
    {
      hide RingOf, History, Stored, Picked, Rings.LastOf, Accepts, Minted;
      ServedNone<S, P>(log.data.fold, v);
      log.InStep();
      Logs.NothingYet(log.data.fold, Current(log.past));
      assert log.past + [] == log.past && log.patches + [] == log.patches;
      FeedsNone(ring.entries, log.patches, size, ring.capacity);
    }

    /** The whole group is in the log, and then, on top of it, every request once
        more that was not lost. */
    ghost predicate Again(v: View<S>, past: seq<S>, patches: seq<P>, jobs: seq<Request<P>>, replies: seq<Reply>)
      reads this, log
    {
      var made := SerialMade(log.data.fold, v, jobs);
      && made != []
      && Serial(SerialView(log.data.fold, v, jobs), past + States(made), patches + Patches(made), jobs, replies)
    }

    /** A group append failed: commit its requests alone. */
    method Unwind(jobs: seq<Request<P>>, fault: Fault, ghost v: View<S>, ghost past: seq<S>, ghost patches: seq<P>,
            ghost slipped: bool)
      returns (replies: seq<Reply>)
      requires Valid() && jobs != [] && (fault == Fault.Data || fault == Fault.Storage)
      requires past != [] && v == Current(past) && History(log.data.fold, past, patches)
      requires fault == Fault.Data ==> !slipped && !Accepts(log.data.fold, v, Flat(jobs))
      requires !slipped ==> log.past == past && log.patches == patches
      requires slipped ==>
        && Accepts(log.data.fold, v, Flat(jobs)) && Minted(log.data.fold, v, Flat(jobs)) != []
        && log.past == past + States(Minted(log.data.fold, v, Flat(jobs)))
        && log.patches == patches + Patches(Minted(log.data.fold, v, Flat(jobs)))
      modifies this, log, log.data, log.storage, ring
      ensures Valid() && |replies| == |jobs| && Forward()
      ensures |jobs| - |KeptJobs(jobs, replies)| <=
        log.faults - old(log.faults) + if fault == Fault.Storage && |jobs| == 1 then 1 else 0
      ensures !slipped ==> (log.slips == old(log.slips) <==> Serial(v, past, patches, jobs, replies))
      ensures slipped ==>
        !Serial(v, past, patches, jobs, replies)
          && (log.slips == old(log.slips) <==> Again(v, past, patches, jobs, replies))
      ensures |jobs| == 1 ==> log.slips == old(log.slips)
      ensures |log.patches| - |patches| >=
        |AckedVersions(replies)| + log.slips - old(log.slips) + if slipped then 1 else 0
      ensures Feeds(old(ring.entries), ring.entries, AckedVersions(replies), log.patches, size, ring.capacity)
      ensures Known(AckedVersions(replies), published)
      ensures SyncedWithin(replies, old(log.synced), log.synced)
      ensures old(Whole()) && log.slips == old(log.slips) ==>
        Whole() && Moves(old(Outward()), Outward(), ring.capacity, size)
      decreases |jobs|, 1, 0
    {
      hide Accepts, Final, Minted, Seen, History, Stored, Flat, SerialView, SerialMade, Serial, KeptJobs, Moves,
        Outward, Valid, Whole, States, Patches, AckedVersions, Feeds;
      if slipped {
        GroupIsSerial(log.data.fold, v, jobs);
        SerialCurrent(log.data.fold, past, patches, jobs);
        MintedLengths(Minted(log.data.fold, v, Flat(jobs)), 0);
      }
      replies := Isolate(jobs, fault);
      if slipped {
        SlipShows(v, past, patches, jobs, replies, old(log.slips) - 1);
      }
    }

    /** Publish an append and answer its requests. */
    method FanOut(jobs: seq<Request<P>>, views: seq<View<S>>, ghost v: View<S>, ghost past: seq<S>,
            ghost patches: seq<P>, base: nat)
      returns (replies: seq<Reply>)
      requires log.Valid() && ring.Valid() && checkpointed <= log.watermark && published <= base <= log.watermark
      requires past != [] && v == Current(past) && base == v.version == |patches|
      requires Accepts(log.data.fold, v, Flat(jobs)) && views == Seen(log.data.fold, v, Flat(jobs))
      requires log.past == past + States(Minted(log.data.fold, v, Flat(jobs)))
      requires log.patches == patches + Patches(Minted(log.data.fold, v, Flat(jobs)))
      requires Strongest(jobs) == Durable && log.patches != patches ==> log.synced == log.watermark
      requires holed <= base && RingOf(ring.entries, patches, holed, size) && (log.slips == 0 ==> holed == 0)
      requires published == base || holed == base
      modifies this`checkpointed, this`published, this`oldest, log, log.storage, ring
      ensures Valid() && |replies| == |jobs| && Forward()
      ensures log.slips == old(log.slips) && log.faults == old(log.faults) && log.watermark == old(log.watermark)
      ensures log.past == old(log.past) && log.patches == old(log.patches)
      ensures Serial(v, past, patches, jobs, replies) && KeptJobs(jobs, replies) == jobs
      ensures |log.patches| - |patches| == |AckedVersions(replies)|
      ensures Feeds(old(ring.entries), ring.entries, AckedVersions(replies), log.patches, size, ring.capacity)
      ensures Known(AckedVersions(replies), published)
      ensures AllAcked(replies, old(log.synced))
      ensures checkpointed == old(checkpointed) || checkpointed == log.watermark
      ensures log.storage.fates == Charged(old(log.storage.fates),
        log.patches != patches && every > 0 && log.watermark >= old(checkpointed) + every)
      ensures old(published) == base && RingHolds(old(ring.entries), patches, size) ==>
        && Whole()
        && Reaches(Shared(patches, |patches|, |patches|, old(log.storage.Floor()), old(ring.entries)), Outward(),
            ring.capacity, size)
    {
      hide Accepts, Final, Minted, Seen, History, Stored, RingHolds, RingOf, Flat, SerialVerdicts, SerialView,
        SerialMade, Strongest, Answers, Matches, Served, KeptJobs, Reaches, AckedVersions, Picked, Rings.LastOf,
        EntriesOf, States, Patches;
      var entries;
      ghost var fold := log.data.fold;
      replies, entries := Acknowledge(fold, v, jobs, views, base, log.synced, size);
      GroupIsSerial(fold, v, jobs);
      VersionsPartition(fold, v, jobs);
      ghost var made := SerialMade(fold, v, jobs);
      MintedLengths(made, 0);
      FlushedAnswers(fold, v, jobs, replies, log.synced, log.watermark);
      NoneLost(fold, v, jobs, replies);
      ServedCounts(fold, v, jobs, replies);
      PickedRange(patches, Patches(made), size);
      EntriesLength(|patches|, Patches(made), size);
      Publish(entries, patches, Patches(made));
    }

    /** Serve a subscriber that fell below the ring, or say what was reclaimed; only a
        refused read is no answer. */
    method CatchUp(after: nat, limit: nat) returns (r: Outcome<CaughtUp<P>>)
      requires Valid()
      modifies log.storage`fates
      ensures Valid() && log.storage.Floor() == old(log.storage.Floor())
      ensures
        var asks, fates := after + 1 >= log.storage.Oldest(), old(log.storage.fates);
        && log.storage.fates == (if asks then Later(fates) else fates)
        && r == if asks && !Works(fates) then Failed(Fault.Storage)
            else Done(Caught(log.patches, log.storage.Floor(), log.storage.Oldest(), ring.entries, after, limit,
              encoded))
      ensures r.Done? && limit > 0 ==>
        CaughtRight(r.value, log.patches, log.storage.Floor(), ring.entries, after, limit)
      ensures r.Done? && r.value.Run? ==> RunOf(r.value.entries, log.patches, after) && |r.value.entries| <= limit
      ensures r.Done? && r.value.Gap? ==> r.value.to <= |log.patches|
    {
      hide History, RingOf, Stored, CaughtRight, RunOf, EntriesOf, Higher, Records;
      FrontIs(ring.entries, log.patches, holed, size);
      log.FloorIs();
      log.StoredIs();
      CaughtBounds(log.patches, log.storage.Floor(), log.storage.Oldest(), ring.entries, after, limit, encoded);
      var oldest := log.storage.Oldest();
      if after + 1 < oldest {
        return Done(Gap(oldest - 1));
      }
      var read := log.ReadAfter(after, limit);
      if read.Failed? {
        return Failed(read.fault);
      }
      var records := read.value;
      FirstIsRun(log.storage.records, log.patches, after, limit);
      if records != [] {
        if records[0].version == after + 1 {
          var entries := Entries(records, log.patches, after);
          return Done(Run(entries));
        }
        return Done(Gap(records[0].version - 1));
      }
      if after >= log.watermark {
        return Done(Run([]));
      }
      var resume := if ring.entries != [] then ring.entries[0].version else log.watermark + 1;
      r := Done(Gap(if resume == 0 then 0 else resume - 1));
    }

    method Entries(records: seq<Record<P>>, ghost patches: seq<P>, ghost after: nat)
      returns (entries: seq<Rings.Entry<P>>)
      requires after + |records| <= |patches|
      requires forall i :: 0 <= i < |records| ==> records[i] == Record(after + 1 + i, patches[after + i])
      ensures entries == EntriesOf(after, patches[after..after + |records|], encoded)
    {
      entries := [];
      for i := 0 to |records|
        invariant entries == EntriesOf(after, patches[after..after + i], encoded)
      {
        entries := entries + [Rings.Entry(records[i].version, records[i].patch, encoded(records[i].patch))];
      }
    }

    /** As far as command `end` of a queue, all is as if each append had been
        committed alone, but for those the storage refused to write; and the ring was
        given what was acknowledged. */
    ghost predicate Told(start: Start<S, P>, queue: seq<Command<P>>, end: nat, out: seq<Response<S, P>>)
      requires end <= |queue| && end <= |out| && start.ground.past != []
      reads this, log, log.storage, ring
    {
      && start.ground.fold == log.data.fold && start.ground.base == log.data.base
      && |Requests(queue, 0, end)| - |KeptOf(queue, out, end)| <= log.faults - start.faults
      && |log.patches| - |start.ground.patches| >= |AckedAll(out, end)| + log.slips - start.slips
      && Feeds(start.ring, ring.entries, AckedAll(out, end), log.patches, size, ring.capacity)
      && Known(AckedAll(out, end), published)
      && start.synced <= log.synced && SyncedIn(out, end, start.synced, log.synced)
      && (start.working ==> AllWork(log.storage.fates) && NoneBroken(out, end))
      && (log.slips == start.slips ==> AsMet(start.ground, queue, end, out))
    }

    /** History and responses are those of one command at a time. */
    ghost predicate AsMet(g: Ground<S, P>, queue: seq<Command<P>>, end: nat, out: seq<Response<S, P>>)
      requires end <= |queue| && end <= |out| && g.past != []
      reads log, log.storage
    {
      && log.past == Met(g, KeptOf(queue, out, end)) && log.patches == ToldTo(g, KeptOf(queue, out, end))
      && AllAgree(g, CoveredBy(log.storage.header), queue, out, end)
    }

    /** Commit what waits, and answer it. */
    method Settle(ghost start: Start<S, P>, ghost queue: seq<Command<P>>, ghost from: nat, ghost i: nat,
            batch: seq<Request<P>>, slots: seq<nat>, out: seq<Response<S, P>>)
      returns (placed: seq<Response<S, P>>)
      requires Valid() && History(start.ground.fold, start.ground.past, start.ground.patches)
      requires Queued(queue, from, i, batch, slots, out) && Told(start, queue, from, out)
      requires log.slips >= start.slips
      modifies this, log, log.data, log.storage, ring
      ensures Valid() && |placed| == i && Told(start, queue, i, placed) && Forward()
      ensures old(Whole()) && log.slips == old(log.slips) ==>
        Whole() && Moves(old(Outward()), Outward(), ring.capacity, size)
    {
      hide Accepts, Final, Minted, Seen, History, Stored, RingHolds, RingOf, SerialVerdicts, SerialView, SerialMade,
        Served, KeptJobs, KeptOf, Requests, Slots, AllAgree, Moves, States, Patches, AckedVersions, AckedAll, Feeds,
        Whole, Outward, Valid, Met, ToldTo;
      ghost var ring0, patches0, covered := ring.entries, log.patches, CoveredBy(log.storage.header);
      SlotsWithin(queue, from, i);
      var replies;
      ghost var slipped;
      replies, slipped := Commit(batch);
      placed := Place(out, slots, replies);
      SettledKept(queue, from, i, batch, slots, out, replies, placed);
      KnownJoin(AckedAll(out, from), AckedVersions(replies), old(published), published);
      FeedsJoin(start.ring, ring0, ring.entries, AckedAll(out, from), AckedVersions(replies), patches0, log.patches,
        size, ring.capacity);
      SettledSynced(queue, from, i, batch, slots, out, replies, placed, start.synced, old(log.synced), log.synced);
      if log.slips == start.slips {
        SettledMet(start.ground, covered, CoveredBy(log.storage.header), queue, from, i, batch, slots, out, replies,
          placed);
      }
    }

    /** The storage will not do what a command needs. */
    ghost predicate Refuses(c: Command<P>)
      reads log, log.storage
    {
      var fates := log.storage.fates;
      match c
      case Fetch(after, _) => after + 1 >= log.storage.Oldest() && !Works(fates)
      case Save => !Works(fates) || !Works(Later(fates))
      case _ => false
    }

    /** Answer a command that is not an append from the log as it stands. */
    method Look(c: Command<P>) returns (r: Response<S, P>)
      requires Valid() && !c.Append?
      modifies this`checkpointed, log, log.storage
      ensures Valid() && log.past == old(log.past) != [] && log.patches == old(log.patches)
      ensures log.slips == old(log.slips) && log.faults == old(log.faults) && Forward()
      ensures log.watermark == old(log.watermark)
      ensures Shows(c, log.past, log.patches, log.data.base, CoveredBy(log.storage.header), r)
      ensures r.Broken? <==> old(Refuses(c))
      ensures c.Fetch? && !r.Broken? ==>
        r == Fetched(Caught(log.patches, log.storage.Floor(), log.storage.Oldest(), ring.entries, c.after, c.limit,
          encoded))
      ensures c.Save? && !r.Broken? ==>
        && checkpointed == log.watermark == log.synced == log.storage.durable
        && log.storage.header == Some(Current(log.past))
      ensures (c.Save? && !r.Broken?) || checkpointed == old(checkpointed)
      ensures !c.Save? ==>
        && unchanged(log) && log.storage.header == old(log.storage.header)
        && log.storage.records == old(log.storage.records) && log.storage.durable == old(log.storage.durable)
    {
      hide History, Stored, RingOf, RunOf, CaughtRight, Caught;
      log.InStep();
      log.FloorIs();
      match c {
        case Undecodable =>
          r := Undecoded;
        case Show(at) =>
          if at == None {
            r := Shown(log.data.Now());
          } else {
            var view := log.ViewAt(at.value);
            r := if view.Some? then Shown(view.value) else NotRetained;
          }
        case Fetch(after, limit) =>
          var caught := CatchUp(after, limit);
          r := if caught.Done? then Fetched(caught.value) else Broken;
        case Save =>
          var saved := log.Checkpoint();
          log.FloorIs();
          if saved.Done? {
            checkpointed := log.watermark;
          }
          r := if saved.Done? then Saved else Broken;
      }
    }

    /** Answer a command with nothing waiting ahead of it. */
    method Reply(ghost start: Start<S, P>, queue: seq<Command<P>>, i: nat, ghost out: seq<Response<S, P>>)
      returns (r: Response<S, P>)
      requires Valid() && |out| == i < |queue| && !queue[i].Append? && start.ground.past != []
      requires Told(start, queue, i, out)
      modifies this`checkpointed, log, log.storage
      ensures Valid() && log.slips == old(log.slips) && Forward()
      ensures Told(start, queue, i + 1, out + [r])
      ensures old(Whole()) ==> Whole() && Moves(old(Outward()), Outward(), ring.capacity, size)
    {
      hide Valid, RingHolds, KeptOf, Requests, AckedAll, AllAgree, Shows, Moves, Feeds, Met, ToldTo;
      ghost var covered := CoveredBy(log.storage.header);
      r := Look(queue[i]);
      if Whole() {
        Covered(old(Outward()));
      }
      SameTold(start.ground, covered, CoveredBy(log.storage.header), queue, out, out, i);
      OneMoreTold(start.ground, CoveredBy(log.storage.header), queue, out, i, r);
      ShownNotAppended(queue[i], r);
    }

    lemma ShownNotAppended(c: Command<P>, r: Response<S, P>)
      requires Valid() && !c.Append? && log.past != []
      requires Shows(c, log.past, log.patches, log.data.base, CoveredBy(log.storage.header), r)
      ensures !r.Appended?
    {
      hide Valid, RunOf;
    }

    /** At most the storage's floor has moved. */
    lemma Covered(was: Shared<P>)
      requires Valid() && Whole() && was == Outward().(floor := was.floor) && was.floor <= log.storage.Floor()
      ensures Moves(was, Outward(), ring.capacity, size)
    {
      hide RingHolds, RingOf, History, Stored, Moves;
      log.FloorIs();
      assert log.patches[..|log.patches|] == log.patches;
      assert Step(was, Outward(), ring.capacity, size);
      MovesOne(was, Outward(), ring.capacity, size);
    }

    /** A command that must observe the appends ahead of it: commit what waits, then
        answer. */
    method Observe(ghost start: Start<S, P>, queue: seq<Command<P>>, ghost from: nat, i: nat,
            batch: seq<Request<P>>, slots: seq<nat>, out: seq<Response<S, P>>)
      returns (more: seq<Response<S, P>>)
      requires Valid() && History(start.ground.fold, start.ground.past, start.ground.patches)
      requires start.ground.past != [] && i < |queue| && !queue[i].Append?
      requires Queued(queue, from, i, batch, slots, out) && Told(start, queue, from, out) && log.slips >= start.slips
      modifies this, log, log.data, log.storage, ring
      ensures Valid() && |more| == i + 1 && Told(start, queue, i + 1, more) && Forward()
      ensures old(Whole()) && log.slips == old(log.slips) ==>
        Whole() && Moves(old(Outward()), Outward(), ring.capacity, size)
    {
      hide Valid, Whole, Told, Outward, History, Queued, Moves, Requests, KeptOf, Slots;
      var settled := Settle(start, queue, from, i, batch, slots, out);
      ghost var now := Outward();
      var r := Reply(start, queue, i, settled);
      more := settled + [r];
      if old(Whole()) && log.slips == old(log.slips) {
        MovesJoin(old(Outward()), now, Outward(), ring.capacity, size);
      }
    }

    /** Take a queue of commands: appends are gathered until something else must
        observe them. History, verdicts, acknowledged versions and views are those of
        one command at a time, but for the appends the storage refused to write,
        exactly when no flush fails after its write. */
    method Drain(queue: seq<Command<P>>) returns (out: seq<Response<S, P>>)
      requires Valid()
      modifies this, log, log.data, log.storage, ring
      ensures Valid() && |out| == |queue| && old(log.past) != [] && Forward()
      ensures |Requests(queue, 0, |queue|)| - |KeptOf(queue, out, |queue|)| <= log.faults - old(log.faults)
      ensures log.slips == old(log.slips) <==>
        AsMet(Ground(log.data.fold, old(log.past), old(log.patches), log.data.base), queue, |queue|, out)
      ensures |log.patches| - old(|log.patches|) >= |AckedAll(out, |queue|)| + log.slips - old(log.slips)
      ensures Feeds(old(ring.entries), ring.entries, AckedAll(out, |queue|), log.patches, size, ring.capacity)
      ensures Known(AckedAll(out, |queue|), published)
      ensures SyncedIn(out, |queue|, old(log.synced), log.synced)
      ensures old(AllWork(log.storage.fates)) ==> NoneBroken(out, |queue|)
      ensures old(Whole()) && log.slips == old(log.slips) ==>
        Whole() && Moves(old(Outward()), Outward(), ring.capacity, size)
    {
      hide Accepts, Final, Minted, Seen, History, Stored, RingHolds, RingOf, KeptOf, Requests, Slots, AllAgree,
        Moves, Sound, Met, ToldTo, Queued, AckedAll, Feeds, Valid, Whole, Outward, Told;
      Opened();
      ghost var start := Start(Ground(log.data.fold, log.past, log.patches, log.data.base), log.slips, log.faults,
        ring.entries, log.synced, AllWork(log.storage.fates));
      ghost var was, whole, from := Outward(), Whole(), 0;
      if Whole() {
        MovesSelf(was, ring.capacity, size);
      }
      var batch: seq<Request<P>> := [];
      var slots: seq<nat> := [];
      out := [];
      NoneTold<S, P>(start.ground, 0, queue);
      StartTold(start, queue);
      for i := 0 to |queue|
        invariant Forward() && Valid() && from <= i == |out|
        invariant Queued(queue, from, i, batch, slots, out) && Told(start, queue, from, out)
        invariant whole && log.slips == start.slips ==> Whole() && Moves(was, Outward(), ring.capacity, size)
      {
        ghost var now := Outward();
        match queue[i] {
          case Append(q) =>
            QueuedMore(queue, from, i, batch, slots, out, Waiting);
            ToldMore(start, queue, from, out, Waiting);
            batch, slots, out := batch + [q], slots + [i], out + [Waiting];
          case Undecodable =>
            QueuedMore(queue, from, i, batch, slots, out, Undecoded);
            ToldMore(start, queue, from, out, Undecoded);
            out := out + [Undecoded];
          case _ =>
            out := Observe(start, queue, from, i, batch, slots, out);
            from, batch, slots := i + 1, [], [];
            QueuedNone(queue, i + 1, out);
            if whole && log.slips == start.slips {
              MovesJoin(was, now, Outward(), ring.capacity, size);
            }
        }
      }
      ghost var now := Outward();
      out := Settle(start, queue, from, |queue|, batch, slots, out);
      if whole && log.slips == start.slips {
        MovesJoin(was, now, Outward(), ring.capacity, size);
      }
      ToldAll(start, queue, out);
    }

    lemma Opened()
      requires Valid()
      ensures log.past != [] && History(log.data.fold, log.past, log.patches)
      ensures |log.patches| == log.watermark == Current(log.past).version
      ensures ring.Valid() && checkpointed <= log.watermark && published <= log.watermark && holed <= log.watermark
      ensures RingOf(ring.entries, log.patches, holed, size) && (log.slips == 0 ==> holed == 0)
      ensures published == log.watermark || holed == log.watermark
      ensures Whole() ==> published == log.watermark && RingHolds(ring.entries, log.patches, size)
    {
      hide RingOf, RingHolds, Stored;
      log.InStep();
    }

    lemma StartTold(start: Start<S, P>, queue: seq<Command<P>>)
      requires log.past != [] && |ring.entries| <= ring.capacity
      requires start.ground == Ground(log.data.fold, log.past, log.patches, log.data.base)
      requires start.slips == log.slips && start.faults == log.faults && start.ring == ring.entries
      requires start.synced == log.synced && start.working == AllWork(log.storage.fates)
      ensures Told(start, queue, 0, [])
    {
      hide Met, ToldTo, AllAgree, Rings.LastOf, Picked;
      NoneTold<S, P>(start.ground, CoveredBy(log.storage.header), queue);
      FeedsNone(ring.entries, log.patches, size, ring.capacity);
    }

    lemma ToldMore(start: Start<S, P>, queue: seq<Command<P>>, from: nat, out: seq<Response<S, P>>, r: Response<S, P>)
      requires from <= |queue| && from <= |out| && start.ground.past != [] && Told(start, queue, from, out)
      ensures Told(start, queue, from, out + [r])
    {
      hide Met, ToldTo, Requests, AllAgree, AckedAll, Feeds;
      var covered := CoveredBy(log.storage.header);
      SameTold(start.ground, covered, covered, queue, out, out + [r], from);
    }

    /** What was told is as met exactly when no flush failed after its write. */
    lemma ToldAll(start: Start<S, P>, queue: seq<Command<P>>, out: seq<Response<S, P>>)
      requires |out| == |queue| && History(start.ground.fold, start.ground.past, start.ground.patches)
      requires start.ground.past != [] && Told(start, queue, |queue|, out) && log.slips >= start.slips
      ensures log.slips == start.slips <==> AsMet(start.ground, queue, |queue|, out)
      ensures |Requests(queue, 0, |queue|)| - |KeptOf(queue, out, |queue|)| <= log.faults - start.faults
      ensures |log.patches| - |start.ground.patches| >= |AckedAll(out, |queue|)| + log.slips - start.slips
      ensures Feeds(start.ring, ring.entries, AckedAll(out, |queue|), log.patches, size, ring.capacity)
      ensures Known(AckedAll(out, |queue|), published)
      ensures SyncedIn(out, |queue|, start.synced, log.synced)
      ensures start.working ==> NoneBroken(out, |queue|)
    {
      hide Met, ToldTo, Requests, KeptOf, AllAgree, AckedAll, Feeds, History, SerialMade, SerialView;
      if AsMet(start.ground, queue, |queue|, out) {
        MetView(start.ground, KeptOf(queue, out, |queue|));
        AgreedCount(start.ground, CoveredBy(log.storage.header), queue, out, |queue|);
      }
    }

    /** One rejected request must not take the others down: commit each alone. */
    method Isolate(jobs: seq<Request<P>>, fault: Fault) returns (replies: seq<Reply>)
      requires Valid() && jobs != [] && (fault == Fault.Data || fault == Fault.Storage)
      requires fault == Fault.Data ==> log.past != [] && !Accepts(log.data.fold, Current(log.past), Flat(jobs))
      modifies this, log, log.data, log.storage, ring
      ensures Valid() && |replies| == |jobs| && old(log.past) != [] && Forward()
      ensures |jobs| - |KeptJobs(jobs, replies)| <=
        log.faults - old(log.faults) + if fault == Fault.Storage && |jobs| == 1 then 1 else 0
      ensures log.slips == old(log.slips) <==>
        Serial(old(Current(log.past)), old(log.past), old(log.patches), jobs, replies)
      ensures |jobs| == 1 ==> log.slips == old(log.slips)
      ensures |log.patches| - old(|log.patches|) >= |AckedVersions(replies)| + log.slips - old(log.slips)
      ensures Feeds(old(ring.entries), ring.entries, AckedVersions(replies), log.patches, size, ring.capacity)
      ensures Known(AckedVersions(replies), published)
      ensures SyncedWithin(replies, old(log.synced), log.synced)
      ensures old(Whole()) && log.slips == old(log.slips) ==>
        Whole() && Moves(old(Outward()), Outward(), ring.capacity, size)
      decreases |jobs|, 0
    {
      hide Accepts, Final, Minted, Seen, History, Stored, RingHolds, RingOf, Flat, SerialVerdicts, SerialView,
        SerialMade, Strongest, Leaves, KeptJobs, Moves, Sound, States, Patches, AckedVersions, Feeds, Valid, Whole,
        Outward, Known, AllWork;
      Opened();
      ghost var fold, v, was, whole := log.data.fold, Current(log.past), Outward(), Whole();
      ghost var past, patches, held := log.past, log.patches, ring.entries;
      if Whole() {
        MovesSelf(was, ring.capacity, size);
      }
      FeedsNone(ring.entries, log.patches, size, ring.capacity);
      NothingServed(v);
      if |jobs| == 1 {
        replies := [Failure(fault)];
        LostAlone(v, jobs, replies, fault);
        return;
      }
      replies := [];
      assert jobs[..0] == [];
      for i := 0 to |jobs|
        invariant Valid() && |replies| == i && Forward()
        invariant i - |KeptJobs(jobs[..i], replies)| <= log.faults - old(log.faults)
        invariant log.slips == old(log.slips) ==> Serial(v, past, patches, jobs[..i], replies)
        invariant |log.patches| - |patches| >= |AckedVersions(replies)| + log.slips - old(log.slips)
        invariant Feeds(held, ring.entries, AckedVersions(replies), log.patches, size, ring.capacity)
        invariant Known(AckedVersions(replies), published) && SyncedWithin(replies, old(log.synced), log.synced)
        invariant whole && log.slips == old(log.slips) ==> Whole() && Moves(was, Outward(), ring.capacity, size)
      {
        ghost var now, ring0, past0, patches0, told := Outward(), ring.entries, log.past, log.patches, published;
        var one;
        ghost var slipped;
        one, slipped := Commit([jobs[i]]);
        assert jobs[..i + 1] == jobs[..i] + [jobs[i]];
        OneMoreAcked(jobs[..i], replies, [jobs[i]], one);
        KnownJoin(AckedVersions(replies), AckedVersions(one), told, published);
        FeedsJoin(held, ring0, ring.entries, AckedVersions(replies), AckedVersions(one), patches0, log.patches, size,
          ring.capacity);
        if log.slips == old(log.slips) {
          LeavesJoin(fold, past, patches, jobs[..i], replies, past0, patches0, [jobs[i]], one, log.past, log.patches);
          if whole {
            MovesJoin(was, now, Outward(), ring.capacity, size);
          }
        }
        replies := replies + one;
      }
      assert jobs[..|jobs|] == jobs;
      SlipShows(v, past, patches, jobs, replies, old(log.slips));
    }

    /** A request alone that was lost or refused leaves nothing. */
    lemma LostAlone(v: View<S>, jobs: seq<Request<P>>, replies: seq<Reply>, fault: Fault)
      requires |jobs| == 1 && replies == [Failure(fault)] && (fault == Fault.Storage || fault == Fault.Data)
      requires fault == Fault.Data ==> !Accepts(log.data.fold, v, Flat(jobs))
      ensures Serial(v, log.past, log.patches, jobs, replies) && AckedVersions(replies) == []
      ensures |KeptJobs(jobs, replies)| == if fault == Fault.Storage then 0 else 1
    {
      hide Accepts, Served, KeptJobs, SerialMade, Flat, AckedVersions, States, Patches;
      OneFailed(log.data.fold, v, jobs, replies, fault);
      FailureAcks(fault);
      assert log.past + [] == log.past && log.patches + [] == log.patches;
    }

    lemma OneMoreAcked(a: seq<Request<P>>, ra: seq<Reply>, b: seq<Request<P>>, rb: seq<Reply>)
      requires |a| == |ra| && |b| == |rb|
      ensures AckedVersions(ra + rb) == AckedVersions(ra) + AckedVersions(rb)
      ensures |KeptJobs(a + b, ra + rb)| == |KeptJobs(a, ra)| + |KeptJobs(b, rb)|
    {
      hide KeptJobs, AckedVersions;
      KeptJoin(a, ra, b, rb);
      AckedJoin(ra, rb);
    }

    lemma NothingServed(v: View<S>)
      ensures Serial(v, log.past, log.patches, [], []) && KeptJobs<P>([], []) == [] && AckedVersions([]) == []
      ensures Known([], published)
    {
      LeavesSame(log.data.fold, v, log.past, log.patches);
    }
  }

  /** Where a queue was taken up: on which log, and what had failed by then. */
  datatype Start<!S, !P> = Start(ground: Ground<S, P>, slips: nat, faults: nat, ring: seq<Rings.Entry<P>>, synced: nat,
    working: bool)

  /** Where a storage holds the end of a history, what lies above a version is the
      rest of it. */
  lemma {:induction false} HigherIs<P>(n: nat, ps: seq<P>, after: nat)
    ensures Higher(Records(n, ps), after) ==
      if after <= n then Records(n, ps) else if after >= n + |ps| then [] else Records(after, ps[after - n..])
    decreases |ps|
  {
    var rs := Records(n, ps);
    if ps != [] && after > n {
      assert rs[1..] == Records(n + 1, ps[1..]);
      HigherIs(n + 1, ps[1..], after);
      if after < n + |ps| {
        assert ps[1..][after - (n + 1)..] == ps[after - n..];
      }
    }
  }

  lemma FirstIsRun<P>(records: seq<Record<P>>, patches: seq<P>, after: nat, limit: nat)
    requires |records| <= |patches| && records == Records(|patches| - |records|, patches[|patches| - |records|..])
    ensures
      var out := FirstOf(Higher(records, after), limit);
      && |out| <= limit
      && (out != [] && out[0].version == after + 1 ==>
            && |out| == (if after + limit < |patches| then limit else |patches| - after)
            && |patches| - |records| <= after && after + |out| <= |patches|
            && forall i :: 0 <= i < |out| ==> out[i] == Record(after + 1 + i, patches[after + i]))
      && (out != [] && out[0].version != after + 1 ==>
          records != [] && out[0].version == |patches| - |records| + 1 && after < out[0].version)
      && (out == [] && limit > 0 && after < |patches| ==> records == [])
  {
    var n := |patches| - |records|;
    HigherIs(n, patches[n..], after);
  }
}
