/** The fan-out buffer: the most recent records, shared by every subscriber. */
module Rings {
  import opened Common

  datatype Entry<P> = Entry(version: nat, patch: P, bytes: nat)

  datatype Read<P> = Records(entries: seq<Entry<P>>) | TooOld

  /** The last `n` elements. */
  function LastOf<T>(s: seq<T>, n: nat): seq<T> {
    if |s| <= n then s else s[|s| - n..]
  }

  lemma LastOfFits<T>(s: seq<T>, n: nat)
    requires |s| <= n
    ensures LastOf(s, n) == s
  {
  }

  lemma LastOfMore<T>(s: seq<T>, x: T, n: nat)
    requires n > 0
    ensures |LastOf(s, n)| <= n
    ensures LastOf(s + [x], n) == (if |LastOf(s, n)| == n then LastOf(s, n)[1..] else LastOf(s, n)) + [x]
  {
  }

  lemma LastOfAt<T>(s: seq<T>, n: nat)
    ensures |LastOf(s, n)| == if |s| <= n then |s| else n
    ensures forall i :: 0 <= i < |LastOf(s, n)| ==> LastOf(s, n)[i] == s[|s| - |LastOf(s, n)| + i]
  {
  }

  /** Keeping the last elements in two goes is keeping them in one. */
  lemma LastOfTwice<T>(a: seq<T>, b: seq<T>, n: nat)
    ensures LastOf(LastOf(a, n) + b, n) == LastOf(a + b, n)
  {
    var x, y := LastOf(LastOf(a, n) + b, n), LastOf(a + b, n);
    assert |x| == |y|;
    forall i | 0 <= i < |x|
      ensures x[i] == y[i]
    {
    }
  }

  /** Consecutive versions. */
  ghost predicate Contiguous<P>(s: seq<Entry<P>>) {
    forall i :: 0 <= i < |s| ==> s[i].version == s[0].version + i
  }

  function Bytes<P>(s: seq<Entry<P>>): nat {
    if s == [] then 0 else Bytes(s[..|s| - 1]) + s[|s| - 1].bytes
  }

  class Ring<P> {
    const capacity: nat
    var entries: seq<Entry<P>>

    ghost predicate Valid()
      reads this
    {
      0 < capacity && |entries| <= capacity
    }

    constructor (capacity: nat)
      ensures Valid() && entries == [] && this.capacity == if capacity == 0 then 1 else capacity
    {
      this.capacity := if capacity == 0 then 1 else capacity;
      entries := [];
    }

    /** Add a batch, dropping the oldest entries once full. */
    method Push(batch: seq<Entry<P>>)
      requires Valid()
      modifies this
      ensures Valid() && entries == LastOf(old(entries) + batch, capacity)
    {
      hide LastOf;
      assert old(entries) + batch[..0] == old(entries);
      LastOfFits(old(entries), capacity);
      for i := 0 to |batch|
        invariant Valid() && entries == LastOf(old(entries) + batch[..i], capacity)
      {
        assert old(entries) + batch[..i + 1] == old(entries) + batch[..i] + [batch[i]];
        LastOfMore(old(entries) + batch[..i], batch[i], capacity);
        if |entries| == capacity {
          entries := entries[1..];
        }
        entries := entries + [batch[i]];
      }
      assert batch[..|batch|] == batch;
    }

    /** A run above `after`, no longer than `limit`, cut once it reaches
        `maxBytes`. */
    method ReadAfter(after: nat, limit: nat, maxBytes: nat) returns (r: Read<P>)
      requires Valid()
      ensures r == ReadOf(entries, after, limit, maxBytes)
      ensures r.TooOld? <==> entries != [] && after + 1 < entries[0].version
      ensures r.Records? ==>
        var run := FirstOf(Above(entries, after), limit);
        Capped(run, |r.entries|, maxBytes) && r.entries == run[..|r.entries|]
    {
      if entries == [] {
        return Records([]);
      }
      if after + 1 < entries[0].version {
        return TooOld;
      }
      hide Capped, Above;
      var out := Cut(FirstOf(Above(entries, after), limit), maxBytes);
      CappedOnce(FirstOf(Above(entries, after), limit), |out|, maxBytes);
      r := Records(out);
    }
  }

  /** What is left after skipping up to `after`, counting from the front. */
  function Above<P>(entries: seq<Entry<P>>, after: nat): seq<Entry<P>>
    requires entries != [] ==> entries[0].version <= after + 1
  {
    if entries == [] || after + 1 - entries[0].version >= |entries| then []
    else entries[after + 1 - entries[0].version..]
  }

  /** The shortest run that reaches the cap, or all of it. */
  ghost predicate Capped<P>(run: seq<Entry<P>>, n: nat, maxBytes: nat) {
    && n <= |run|
    && (forall k :: 0 < k < n ==> Bytes(run[..k]) < maxBytes)
    && (n == |run| || (n > 0 && Bytes(run[..n]) >= maxBytes))
  }

  /** How many entries of a run reach the cap: there is just one such number. */
  function CutAt<P>(run: seq<Entry<P>>, maxBytes: nat, n: nat := 0): (k: nat)
    requires n <= |run|
    ensures n <= k <= |run|
    decreases |run| - n
  {
    if n == |run| || (n > 0 && Bytes(run[..n]) >= maxBytes) then n else CutAt(run, maxBytes, n + 1)
  }

  lemma {:induction false} CutIs<P>(run: seq<Entry<P>>, maxBytes: nat, n: nat, k: nat)
    requires n <= k && Capped(run, k, maxBytes)
    ensures CutAt(run, maxBytes, n) == k
    decreases k - n
  {
    hide Bytes;
    if n < k {
      CutIs(run, maxBytes, n + 1, k);
    }
  }

  lemma CappedOnce<P>(run: seq<Entry<P>>, n: nat, maxBytes: nat)
    requires Capped(run, n, maxBytes)
    ensures CutAt(run, maxBytes) == n
  {
    CutIs(run, maxBytes, 0, n);
  }

  /** What a read comes to. */
  function ReadOf<P>(entries: seq<Entry<P>>, after: nat, limit: nat, maxBytes: nat): Read<P> {
    if entries == [] then Records([])
    else if after + 1 < entries[0].version then TooOld
    else
      var run := FirstOf(Above(entries, after), limit);
      Records(run[..CutAt(run, maxBytes)])
  }

  lemma NoBytes<P>()
    ensures Bytes<P>([]) == 0
  {
  }

  lemma BytesMore<P>(run: seq<Entry<P>>, i: nat)
    requires i < |run|
    ensures Bytes(run[..i + 1]) == Bytes(run[..i]) + run[i].bytes && run[..i + 1] == run[..i] + [run[i]]
  {
    assert run[..i + 1][..i] == run[..i];
  }

  method Cut<P>(run: seq<Entry<P>>, maxBytes: nat) returns (out: seq<Entry<P>>)
    ensures Capped(run, |out|, maxBytes) && out == run[..|out|]
  {
    hide Bytes;
    out := [];
    var bytes := 0;
    NoBytes<P>();
    assert run[..0] == [];
    for i := 0 to |run|
      invariant |out| == i && out == run[..i] && bytes == Bytes(run[..i])
      invariant forall k :: 0 < k <= i ==> Bytes(run[..k]) < maxBytes
    {
      BytesMore(run, i);
      bytes := bytes + run[i].bytes;
      out := out + [run[i]];
      if bytes >= maxBytes {
        return;
      }
    }
  }

  /** On consecutive entries a read returns the versions just above the cursor, and
      finds something whenever there is something to find. */
  lemma ReadContiguous<P>(entries: seq<Entry<P>>, after: nat, limit: nat, maxBytes: nat, n: nat)
    requires Contiguous(entries) && (entries != [] ==> entries[0].version <= after + 1)
    requires Capped(FirstOf(Above(entries, after), limit), n, maxBytes)
    ensures
      var out := FirstOf(Above(entries, after), limit)[..n];
      && n <= limit
      && (forall i :: 0 <= i < n ==> out[i].version == after + 1 + i && out[i] in entries)
      && (limit > 0 && entries != [] && after < entries[|entries| - 1].version ==> n > 0)
  {
    var run := FirstOf(Above(entries, after), limit);
    if entries != [] && Above(entries, after) != [] {
      var skip := after + 1 - entries[0].version;
      forall i | 0 <= i < |run|
        ensures run[i] == entries[skip + i] && run[i].version == after + 1 + i
      {
      }
    }
  }

}
