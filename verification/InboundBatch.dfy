/**
 * The inbound side of a peer in service/tunnel.go: a batch is compacted in place to the
 * packets that parse, and afterwards the slots of the batch are returned to the pool. A valid
 * packet that moved forward is still referenced by its old slot.
 */
module InboundBatch {
  /** Packet objects, by identity. */
  type Packet = nat

  datatype Slot = Nil | Ref(packet: Packet)

  // ----- What the code should be compared with

  function Filter(parses: Packet -> bool, s: seq<Packet>): (r: seq<Packet>)
    ensures |r| <= |s|
  {
    if s == [] then [] else
      var n := |s| - 1;
      Filter(parses, s[..n]) + if parses(s[n]) then [s[n]] else []
  }

  function Rejected(parses: Packet -> bool, s: seq<Packet>): seq<Packet> {
    Filter((p: Packet) => !parses(p), s)
  }

  /** The valid packets that the compaction moved to an earlier slot and left behind as well. */
  function LeftBehind(parses: Packet -> bool, s: seq<Packet>): seq<Packet> {
    Filter(parses, s[|Filter(parses, s)|..])
  }

  /** Everything handed to the pool for the batch `s`, in order. */
  function Returned(parses: Packet -> bool, s: seq<Packet>): seq<Packet> {
    Rejected(parses, s) + Filter(parses, s) + LeftBehind(parses, s)
  }

  /** Packets that fail to parse come after all that do. */
  ghost predicate FailuresAreSuffix(parses: Packet -> bool, s: seq<Packet>) {
    forall i, j :: 0 <= i < j < |s| && !parses(s[i]) ==> !parses(s[j])
  }

  lemma {:induction false} FilterSplits(parses: Packet -> bool, s: seq<Packet>)
    ensures multiset(Rejected(parses, s)) + multiset(Filter(parses, s)) == multiset(s)
  {
    if s != [] {
      var n := |s| - 1;
      FilterSplits(parses, s[..n]);
      assert s == s[..n] + [s[n]];
      assert Rejected(parses, s) == Rejected(parses, s[..n]) + if parses(s[n]) then [] else [s[n]];
    }
  }

  lemma {:induction false} FilterConcat(parses: Packet -> bool, s: seq<Packet>, t: seq<Packet>)
    ensures Filter(parses, s + t) == Filter(parses, s) + Filter(parses, t)
  {
    if t == [] {
      assert s + t == s;
    } else {
      var n := |t| - 1;
      assert (s + t)[..|s + t| - 1] == s + t[..n];
      FilterConcat(parses, s, t[..n]);
    }
  }

  lemma {:induction false} FilterAll(parses: Packet -> bool, s: seq<Packet>)
    ensures (forall i :: 0 <= i < |s| ==> parses(s[i])) <==> Filter(parses, s) == s
  {
    if s != [] {
      var n := |s| - 1;
      FilterAll(parses, s[..n]);
      assert s == s[..n] + [s[n]];
      if Filter(parses, s) == s {
        assert |Filter(parses, s[..n])| == n && Filter(parses, s)[..n] == s[..n];
      }
    }
  }

  lemma {:induction false} FilterNone(parses: Packet -> bool, s: seq<Packet>)
    ensures (forall i :: 0 <= i < |s| ==> !parses(s[i])) <==> Filter(parses, s) == []
  {
    if s != [] {
      var n := |s| - 1;
      FilterNone(parses, s[..n]);
      assert s == s[..n] + [s[n]];
    }
  }

  lemma {:induction false} FilterLength(parses: Packet -> bool, s: seq<Packet>)
    requires |Filter(parses, s)| == |s|
    ensures Filter(parses, s) == s
  {
    if s != [] {
      FilterLength(parses, s[..|s| - 1]);
    }
  }

  /** Something is left behind unless the failures come last. */
  lemma LeftBehindIff(parses: Packet -> bool, s: seq<Packet>)
    ensures LeftBehind(parses, s) == [] <==> FailuresAreSuffix(parses, s)
  {
    var k := |Filter(parses, s)|;
    assert s == s[..k] + s[k..];
    FilterConcat(parses, s[..k], s[k..]);
    FilterNone(parses, s[k..]);
    FilterAll(parses, s[..k]);
    if LeftBehind(parses, s) == [] {
      FilterLength(parses, s[..k]);
      forall i, j | 0 <= i < j < |s| && !parses(s[i])
        ensures !parses(s[j])
      {
        assert i >= k;
        assert s[k..][j - k] == s[j];
      }
    }
    if FailuresAreSuffix(parses, s) {
      SuffixMeansPrefix(parses, s);
    }
  }

  lemma SuffixMeansPrefix(parses: Packet -> bool, s: seq<Packet>)
    requires FailuresAreSuffix(parses, s)
    ensures LeftBehind(parses, s) == []
  {
    var m := FirstFailure(parses, s);
    FilterAll(parses, s[..m]);
    FilterNone(parses, s[m..]);
    assert s == s[..m] + s[m..];
    FilterConcat(parses, s[..m], s[m..]);
  }

  lemma {:induction false} FirstFailure(parses: Packet -> bool, s: seq<Packet>) returns (m: nat)
    requires FailuresAreSuffix(parses, s)
    ensures m <= |s| && (forall i :: 0 <= i < m ==> parses(s[i])) && (forall i :: m <= i < |s| ==> !parses(s[i]))
  {
    m := 0;
    while m < |s| && parses(s[m])
      invariant m <= |s| && forall i :: 0 <= i < m ==> parses(s[i])
    {
      m := m + 1;
    }
  }

  /**
   * Every packet of a batch goes back to the pool at least once and at most twice; twice
   * exactly for the ones left behind.
   */
  lemma ReturnedCounts(parses: Packet -> bool, s: seq<Packet>)
    ensures multiset(Returned(parses, s)) == multiset(s) + multiset(LeftBehind(parses, s))
  {
    FilterSplits(parses, s);
  }

  /** Exactly once for every packet, if and only if the packets that fail to parse come last. */
  lemma ReturnedOnceIff(parses: Packet -> bool, s: seq<Packet>)
    ensures multiset(Returned(parses, s)) == multiset(s) <==> FailuresAreSuffix(parses, s)
  {
    ReturnedCounts(parses, s);
    LeftBehindIff(parses, s);
    var extra := LeftBehind(parses, s);
    if extra != [] {
      assert extra[0] in multiset(extra);
      assert multiset(Returned(parses, s))[extra[0]] > multiset(s)[extra[0]];
    }
  }

  // ----- The code

  /** The batch after the slots before `i` were visited. */
  ghost predicate Compacted(parses: Packet -> bool, s: seq<Packet>, slots: seq<Slot>, i: nat) {
    && i <= |s| == |slots|
    && var done := Filter(parses, s[..i]);
       && (forall k :: 0 <= k < |done| ==> slots[k] == Ref(done[k]))
       && (forall k :: |done| <= k < i ==> slots[k] == if parses(s[k]) then Ref(s[k]) else Nil)
       && (forall k :: i <= k < |s| ==> slots[k] == Ref(s[k]))
  }

  method Compact(batch: array<Slot>, parses: Packet -> bool, ghost s: seq<Packet>)
    returns (newLen: nat, puts: seq<Packet>)
    requires Compacted(parses, s, batch[..], 0)
    modifies batch
    ensures Compacted(parses, s, batch[..], |s|)
    ensures newLen == |Filter(parses, s)| && puts == Rejected(parses, s)
  {
    newLen, puts := 0, [];
    var i := 0;
    while i < batch.Length
      invariant Compacted(parses, s, batch[..], i)
      invariant newLen == |Filter(parses, s[..i])| && puts == Rejected(parses, s[..i])
    {
      var packet := batch[i].packet;
      assert s[..i + 1][..i] == s[..i];
      if !parses(packet) {
        puts := puts + [packet];
        batch[i] := Nil;
      } else {
        batch[newLen] := Ref(packet);
        newLen := newLen + 1;
      }
      i := i + 1;
    }
    assert s[..i] == s;
  }

  /** The slots that are not nil, returned to the pool in order. */
  method ReturnSlots(batch: array<Slot>) returns (puts: seq<Packet>)
    modifies batch
    ensures puts == Held(old(batch[..])) && forall k :: 0 <= k < batch.Length ==> batch[k] == Nil
  {
    puts := [];
    for i := 0 to batch.Length
      invariant puts == Held(old(batch[..])[..i])
      invariant forall k :: 0 <= k < i ==> batch[k] == Nil
      invariant forall k :: i <= k < batch.Length ==> batch[k] == old(batch[..])[k]
    {
      assert old(batch[..])[..i + 1][..i] == old(batch[..])[..i];
      if batch[i] != Nil {
        puts := puts + [batch[i].packet];
        batch[i] := Nil;
      }
    }
    assert old(batch[..])[..batch.Length] == old(batch[..]);
  }

  function Held(slots: seq<Slot>): seq<Packet> {
    if slots == [] then [] else
      var n := |slots| - 1;
      Held(slots[..n]) + if slots[n] == Nil then [] else [slots[n].packet]
  }

  lemma {:induction false} HeldRefs(slots: seq<Slot>, s: seq<Packet>)
    requires |slots| == |s| && forall k :: 0 <= k < |s| ==> slots[k] == Ref(s[k])
    ensures Held(slots) == s
  {
    if s != [] {
      HeldRefs(slots[..|s| - 1], s[..|s| - 1]);
    }
  }

  lemma {:induction false} HeldValid(parses: Packet -> bool, slots: seq<Slot>, s: seq<Packet>)
    requires |slots| == |s| && forall k :: 0 <= k < |s| ==> slots[k] == if parses(s[k]) then Ref(s[k]) else Nil
    ensures Held(slots) == Filter(parses, s)
  {
    if s != [] {
      HeldValid(parses, slots[..|s| - 1], s[..|s| - 1]);
    }
  }

  lemma {:induction false} HeldConcat(a: seq<Slot>, b: seq<Slot>)
    ensures Held(a + b) == Held(a) + Held(b)
  {
    if b == [] {
      assert a + b == a;
    } else {
      assert (a + b)[..|a + b| - 1] == a + b[..|b| - 1];
      HeldConcat(a, b[..|b| - 1]);
    }
  }

  /** What the final slots hold: the valid packets, then the ones left behind. */
  lemma HeldAfterCompaction(parses: Packet -> bool, s: seq<Packet>, slots: seq<Slot>)
    requires Compacted(parses, s, slots, |s|)
    ensures Held(slots) == Filter(parses, s) + LeftBehind(parses, s)
  {
    assert s[..|s|] == s;
    var k := |Filter(parses, s)|;
    HeldRefs(slots[..k], Filter(parses, s));
    HeldValid(parses, slots[k..], s[k..]);
    HeldConcat(slots[..k], slots[k..]);
    assert slots == slots[..k] + slots[k..];
  }

  /**
   * One turn of the inbound loop: the packets written to the device are the subsequence that
   * parses, and the pool receives `Returned`.
   */
  method ProcessBatch(batch: array<Slot>, parses: Packet -> bool, ghost s: seq<Packet>)
    returns (filtered: seq<Packet>, puts: seq<Packet>)
    requires batch.Length == |s| && forall k :: 0 <= k < |s| ==> batch[k] == Ref(s[k])
    modifies batch
    ensures filtered == Filter(parses, s)
    ensures puts == Returned(parses, s)
    ensures forall k :: 0 <= k < batch.Length ==> batch[k] == Nil
  {
    var newLen, rejected := Compact(batch, parses, s);
    ghost var slots := batch[..];
    HeldAfterCompaction(parses, s, slots);
    assert s[..|s|] == s;
    filtered := [];
    for i := 0 to newLen
      invariant filtered == Filter(parses, s)[..i] && batch[..] == slots
    {
      assert slots[i] == Ref(Filter(parses, s)[i]);
      filtered := filtered + [batch[i].packet];
    }
    var rest := ReturnSlots(batch);
    puts := rejected + rest;
  }
}
