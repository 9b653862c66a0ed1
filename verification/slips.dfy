/** A flush that fails after its write, and what becomes of the group and the ring. */
module Slips {
  import opened Common
  import opened Logs
  import opened SharedState
  import opened GroupCommit
  import opened Actors
  import Rings

  /** A structure that adds every number it is given. */
  function Add(s: int, p: int): Fold<int> {
    New(s + p)
  }

  lemma AddOne(v: View<int>, p: int)
    requires v.version < MAX_VERSION
    ensures Accepts(Add, v, [p]) && Final(Add, v, [p]) == View(v.version + 1, v.state + p)
    ensures Minted(Add, v, [p]) == [(p, v.state + p)]
  {
    NothingYet<int, int>(Add, v);
    assert Init([p]) == [] && Last([p]) == p;
  }

  /** A request of one number alone mints one version. */
  lemma AskAlone(v: View<int>, q: Request<int>)
    requires v.version < MAX_VERSION && |q.patches| == 1
    ensures After(Add, v, q) == View(v.version + 1, v.state + q.patches[0])
    ensures MadeBy(Add, v, q) == [(q.patches[0], v.state + q.patches[0])]
    ensures VerdictOf(Add, v, q) == Acked([v.version + 1])
  {
    hide Accepts, Final, Minted, Add;
    assert q.patches == [q.patches[0]];
    AddOne(v, q.patches[0]);
    RangeOne(v.version);
  }

  lemma AskOne(v: View<int>, q: Request<int>)
    requires v.version < MAX_VERSION && |q.patches| == 1
    ensures SerialView(Add, v, [q]) == View(v.version + 1, v.state + q.patches[0])
    ensures SerialMade(Add, v, [q]) == [(q.patches[0], v.state + q.patches[0])]
    ensures SerialVerdicts(Add, v, [q]) == [Acked([v.version + 1])]
  {
    hide *;
    AskAlone(v, q);
    SerialOne(Add, v, q);
  }

  lemma AskTwo(v: View<int>, q: Request<int>, r: Request<int>)
    requires v.version + 1 < MAX_VERSION && |q.patches| == |r.patches| == 1
    ensures SerialView(Add, v, [q, r]) == View(v.version + 2, v.state + q.patches[0] + r.patches[0])
    ensures SerialMade(Add, v, [q, r]) ==
      [(q.patches[0], v.state + q.patches[0]), (r.patches[0], v.state + q.patches[0] + r.patches[0])]
    ensures SerialVerdicts(Add, v, [q, r]) == [Acked([v.version + 1]), Acked([v.version + 2])]
  {
    hide SerialView, SerialMade, SerialVerdicts;
    AskOne(v, q);
    AskOne(SerialView(Add, v, [q]), r);
    SerialJoin(Add, v, [q], [r]);
    assert [q] + [r] == [q, r];
  }

  /** Where nothing was lost, the replies are the verdicts. */
  lemma AllAnswered(v: View<int>, jobs: seq<Request<int>>, replies: seq<Reply>)
    requires Served(Add, v, jobs, replies) && |KeptJobs(jobs, replies)| >= |jobs|
    ensures KeptJobs(jobs, replies) == jobs && Answers(replies, SerialVerdicts(Add, v, jobs), jobs)
  {
    hide SerialVerdicts, Answer, KeptJobs, KeptReplies;
    KeptMost(jobs, replies);
  }

  function Two(b: int, c: int): seq<Request<int>> {
    [Request([b], Durable), Request([c], Durable)]
  }

  function Eight(p: int): nat {
    8
  }

  /** What the first number leaves. */
  lemma OneKept(a: int, replies: seq<Reply>, patches: seq<int>, ring: seq<Rings.Entry<int>>)
    requires
      var q := Request([a], Written);
      && Served(Add, View(0, 0), [q], replies) && |KeptJobs([q], replies)| >= 1
      && patches == [] + Patches(SerialMade(Add, View(0, 0), KeptJobs([q], replies)))
      && Feeds([], ring, AckedVersions(replies), patches, Eight, 8)
    ensures KeptJobs([Request([a], Written)], replies) == [Request([a], Written)]
    ensures patches == [a] && ring == [Rings.Entry(1, a, 8)]
  {
    hide Served, SerialMade, SerialView, SerialVerdicts, KeptJobs, AckedVersions, Feeds;
    var q := Request([a], Written);
    AllAnswered(View(0, 0), [q], replies);
    AskOne(View(0, 0), q);
    ServedCounts(Add, View(0, 0), [q], replies);
    assert AckedVersions(replies) == [1] by {
      RangeOne(0);
    }
    Fed([], ring, 1, a, patches);
  }

  lemma Fed(before: seq<Rings.Entry<int>>, ring: seq<Rings.Entry<int>>, version: nat, p: int, patches: seq<int>)
    requires Feeds(before, ring, [version], patches, Eight, 8) && |before| < 8
    requires 1 <= version <= |patches| && patches[version - 1] == p
    ensures ring == before + [Rings.Entry(version, p, 8)]
  {
  }

  /** An actor over an empty storage, with its first number in. */
  method One(a: int) returns (actor: Actor<int, int>)
    ensures actor.Valid() && actor.log.data.fold == Add && actor.size == Eight && actor.ring.capacity == 8
    ensures fresh(actor) && fresh(actor.log) && fresh(actor.log.data) && fresh(actor.log.storage) && fresh(actor.ring)
    ensures actor.log.past == [0, a] && actor.log.patches == [a] && actor.log.slips == 0
    ensures actor.ring.entries == [Rings.Entry(1, a, 8)]
  {
    hide SerialMade, SerialView, SerialVerdicts, Served, KeptJobs, AckedVersions, Stored, History, Moves, Feeds,
      RingOf, RingHolds, Add, Strongest, Flat, Known;
    NothingStored();
    var data := new Data(Add, View(0, 0));
    var storage := new Storage<int, int>();
    var log := new Log(data, storage, [0], []);
    actor := new Actor(log, 8, Eight, Eight, 0);
    assert AllWork(log.storage.fates);
    var q := Request([a], Written);
    var replies, _ := actor.Commit([q]);
    OneKept(a, replies, log.patches, actor.ring.entries);
    AskOne(View(0, 0), q);
  }

  lemma NothingStored()
    ensures Stored<int, int>([], None, [0], []) && History(Add, [0], []) && Current([0]) == View(0, 0)
  {
  }

  /** Two numbers as one append, which is to be flushed. */
  lemma TwoSlip(v: View<int>, b: int, c: int)
    requires v.version + 1 < MAX_VERSION
    ensures Flat(Two(b, c)) == [b, c] && Strongest(Two(b, c)) == Durable
    ensures Accepts(Add, v, [b, c]) && Minted(Add, v, [b, c]) != []
  {
    hide Accepts, Final, Minted;
    AddOne(v, b);
    AddOne(View(v.version + 1, v.state + b), c);
    FoldJoin(Add, v, [b], [c]);
    assert [b] + [c] == [b, c];
    assert Two(b, c)[..0] == [] && Two(b, c)[..1] == [Two(b, c)[0]] && Two(b, c)[..2] == Two(b, c);
    FlatNext(Two(b, c), 0);
    FlatNext(Two(b, c), 1);
  }

  /** What the two leave that were written, and then written once more. */
  lemma TwoKept(a: int, b: int, c: int, replies: seq<Reply>, patches: seq<int>, ring: seq<Rings.Entry<int>>,
          published: nat)
    requires
      var v, w, jobs := View(1, a), View(3, a + b + c), Two(b, c);
      && Served(Add, w, jobs, replies) && |KeptJobs(jobs, replies)| >= 2
      && patches == [a] + Patches(SerialMade(Add, v, jobs)) + Patches(SerialMade(Add, w, KeptJobs(jobs, replies)))
      && Feeds([Rings.Entry(1, a, 8)], ring, AckedVersions(replies), patches, Eight, 8)
      && Known(AckedVersions(replies), published)
    ensures patches == [a, b, c, b, c] && published >= 5
    ensures |replies| == 2 && replies[0].Ack? && replies[1].Ack?
    ensures replies[0].versions == [4] && replies[1].versions == [5]
    ensures ring == [Rings.Entry(1, a, 8), Rings.Entry(4, b, 8), Rings.Entry(5, c, 8)]
  {
    hide Served, SerialMade, SerialView, SerialVerdicts, KeptJobs, AckedVersions, Feeds;
    var v, w, jobs := View(1, a), View(3, a + b + c), Two(b, c);
    AllAnswered(w, jobs, replies);
    AskTwo(v, jobs[0], jobs[1]);
    AskTwo(w, jobs[0], jobs[1]);
    ServedCounts(Add, w, jobs, replies);
    assert AckedVersions(replies) == [4, 5] by {
      RangeOne(3);
      RangeOne(4);
      RangeJoin(3, 4, 5);
    }
    assert published >= [4, 5][1];
    FedTwo(ring, a, b, c, patches);
    assert Answer(replies[0], SerialVerdicts(Add, w, jobs)[0], Durable);
    assert Answer(replies[1], SerialVerdicts(Add, w, jobs)[1], Durable);
  }

  lemma FedTwo(ring: seq<Rings.Entry<int>>, a: int, b: int, c: int, patches: seq<int>)
    requires Feeds([Rings.Entry(1, a, 8)], ring, [4, 5], patches, Eight, 8) && patches == [a, b, c, b, c]
    ensures ring == [Rings.Entry(1, a, 8), Rings.Entry(4, b, 8), Rings.Entry(5, c, 8)]
  {
  }

  /** What a read above version 1 finds in that ring. */
  lemma ReadOver(ring: seq<Rings.Entry<int>>, a: int, b: int, c: int, n: nat)
    requires ring == [Rings.Entry(1, a, 8), Rings.Entry(4, b, 8), Rings.Entry(5, c, 8)]
    requires Rings.Capped(FirstOf(Rings.Above(ring, 1), 8), n, 1000)
    ensures FirstOf(Rings.Above(ring, 1), 8)[..n] == [Rings.Entry(4, b, 8), Rings.Entry(5, c, 8)]
  {
    var run := [Rings.Entry(4, b, 8), Rings.Entry(5, c, 8)];
    assert Rings.Above(ring, 1) == run && FirstOf(run, 8) == run;
    assert run[..1][..0] == [] && run[..2][..1] == run[..1] && run[..2] == run;
    assert Rings.Bytes(run[..1]) == 8;
    assert Rings.Bytes(run[..2]) == 16;
  }

  /** Two durable requests of one number each are written as one, and the flush
      fails. Both are written once more and acknowledged at other versions: the log
      has each number twice, and no order of committing requests one at a time gives
      these replies and this log. The ring has a hole, over which a read skips
      without a word: a subscriber that has seen version 1 is handed 4 and 5. */
  method Strand(a: int, b: int, c: int)
    returns (actor: Actor<int, int>, replies: seq<Reply>, read: Rings.Read<int>)
    ensures actor.Valid() && actor.log.patches == [a, b, c, b, c] && actor.published == 5
    ensures |replies| == 2 && replies[0].Ack? && replies[1].Ack?
    ensures replies[0].versions == [4] && replies[1].versions == [5]
    ensures !actor.Serial(View(1, a), [0, a], [a], Two(b, c), replies) && !actor.Whole()
    ensures actor.ring.entries == [Rings.Entry(1, a, 8), Rings.Entry(4, b, 8), Rings.Entry(5, c, 8)]
    ensures read == Rings.Records([Rings.Entry(4, b, 8), Rings.Entry(5, c, 8)])
    ensures !RunOf(read.entries, actor.log.patches, 1)
  {
    hide SerialMade, SerialView, SerialVerdicts, Served, KeptJobs, AckedVersions, Stored, History, Moves, Feeds,
      RingOf, RingHolds, Add, Strongest, Flat, Known, Accepts, Minted, Rings.Above, Rings.Capped;
    actor := One(a);
    var jobs := Two(b, c);
    actor.log.storage.Doom([true, false]);
    TwoSlip(View(1, a), b, c);
    AskTwo(View(1, a), jobs[0], jobs[1]);
    ghost var slipped;
    replies, slipped := actor.Commit(jobs);
    TwoKept(a, b, c, replies, actor.log.patches, actor.ring.entries, actor.published);
    Unlike(actor);
    read := actor.ring.ReadAfter(1, 8, 1000);
    ReadOver(actor.ring.entries, a, b, c, |read.entries|);
    assert read.entries[0].version == 4;
  }

  /** A ring whose versions skip is not the end of a log. */
  lemma Unlike(actor: Actor<int, int>)
    requires |actor.ring.entries| == 3 && actor.ring.entries[0].version + 1 < actor.ring.entries[1].version
    ensures !actor.Whole()
  {
    if actor.Whole() {
      RingContiguous(actor.ring.entries, actor.log.patches, actor.size);
    }
  }
}
