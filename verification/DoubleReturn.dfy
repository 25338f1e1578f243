/**
 * A run in which the condition of the packet ledger fails: one peer sends an invalid packet
 * and then a valid one, the inbound handler takes both in one batch, and the TUN reader ends
 * up with the valid packet object in two slots of its slice.
 */
module DoubleReturn {
  import opened Bytes
  import opened InboundBatch
  import opened PacketLedger
  import opened TunnelIndex
  import opened TunnelSteps
  import opened Peers

  const ADDRESS: uint32 := 1
  const REMOTE: PeerId := "b"

  /** The system with one peer object whose inbound side is as given. */
  function With(x: Handler, queue: seq<Packet>, inBatch: seq<Packet>, live: set<Packet>): Sys {
    Sys(AddNew(EMPTY, REMOTE, ADDRESS), [VpnPeer(Chan(true, queue), Chan(true, []), [[]], inBatch)], multiset{}, live,
        Free, Reader(false, [None, None], None, None), [x], false, false)
  }

  const IDLE := Handler(REMOTE, false, None, None)

  ghost predicate Reaches(s: Sys) {
    exists run, steps :: IsRun(run, steps) && run[|steps|] == s
  }

  lemma Then(s: Sys, e: Step, t: Sys)
    requires Reaches(s) && Enabled(s, e) && Next(s, e) == t
    ensures Reaches(t)
  {
    var run, steps :| IsRun(run, steps) && run[|steps|] == s;
    OneMore(run, steps, e, t);
    assert (run + [t])[|steps + [e]|] == t;
  }

  lemma OneMore(run: seq<Sys>, steps: seq<Step>, e: Step, t: Sys)
    requires IsRun(run, steps) && Enabled(run[|steps|], e) && Next(run[|steps|], e) == t
    ensures IsRun(run + [t], steps + [e])
  {
    var run', steps' := run + [t], steps + [e];
    forall i {:trigger steps'[i]} | 0 <= i < |steps'|
      ensures Enabled(run'[i], steps'[i]) && run'[i + 1] == Next(run'[i], steps'[i])
    {
      if i < |steps| {
        assert Enabled(run[i], steps[i]) && run[i + 1] == Next(run[i], steps[i]);
      }
    }
  }

  /** A peer is added by a refresh. */
  lemma PeerAdded() returns (s: Sys)
    ensures s == With(IDLE, [], [], {}).(handlers := []) && Reaches(s)
  {
    var s0 := Sys(EMPTY, [], multiset{}, {}, Free, Reader(false, [None, None], None, None), [], false, false);
    assert IsRun([s0], []);
    assert NewPeer(1).senders == [[]];
    var s1 := s0.(writer := Holding);
    Then(s0, ByWriter(Lock), s1);
    s := s1.(index := AddNew(EMPTY, REMOTE, ADDRESS), peers := [NewPeer(1)]);
    Then(s1, ByWriter(Refresh(REMOTE, IPv4(ADDRESS), 1)), s);
    Then(s, ByWriter(Unlock), s.(writer := Free));
    s := s.(writer := Free);
  }

  /** It opens a stream. */
  lemma Begin()
    ensures Reaches(With(IDLE, [], [], {}))
  {
    var s := PeerAdded();
    Then(s, Accept(REMOTE), With(IDLE, [], [], {}));
  }

  function Carrying(p: Packet): Handler {
    Handler(REMOTE, true, Some(0), Some(p))
  }

  /** A new packet is read from the stream, and its handler looks the peer up. */
  lemma Receive(queue: seq<Packet>, live: set<Packet>, p: Packet)
    requires Reaches(With(IDLE, queue, [], live)) && p !in live
    ensures Reaches(With(Carrying(p), queue, [], live + {p}))
  {
    var s0, s1 := With(IDLE, queue, [], live), With(IDLE.(packet := Some(p)), queue, [], live + {p});
    Then(s0, ByHandler(0, Get(p)), s1);
    var s2 := With(IDLE.(packet := Some(p), locked := true), queue, [], live + {p});
    Then(s1, ByHandler(0, LockRead), s2);
    Then(s2, ByHandler(0, FindPeer), With(Carrying(p), queue, [], live + {p}));
  }

  lemma Arrive(queue: seq<Packet>, live: set<Packet>, p: Packet)
    requires Reaches(With(IDLE, queue, [], live)) && p !in live && |queue| < CHAN_CAP
    ensures Reaches(With(IDLE, queue + [p], [], live + {p}))
  {
    Receive(queue, live, p);
    var s0 := With(Carrying(p), queue, [], live + {p});
    var s1 := With(Carrying(p).(packet := None), queue + [p], [], live + {p});
    Then(s0, ByHandler(0, Send), s1);
    Then(s1, ByHandler(0, UnlockRead), With(IDLE, queue + [p], [], live + {p}));
  }

  lemma Take(queue: seq<Packet>, inBatch: seq<Packet>, live: set<Packet>)
    requires Reaches(With(IDLE, queue, inBatch, live)) && queue != []
    ensures Reaches(With(IDLE, queue[1..], inBatch + [queue[0]], live))
  {
    var s := With(IDLE, queue, inBatch, live);
    Then(s, ByPeer(0, InboundTake), With(IDLE, queue[1..], inBatch + [queue[0]], live));
  }

  lemma FilterOne(parses: Packet -> bool, p: Packet)
    ensures Filter(parses, [p]) == if parses(p) then [p] else []
  {
    assert [p][..0] == [];
  }

  lemma ReturnsTwice(parses: Packet -> bool, bad: Packet, good: Packet)
    requires !parses(bad) && parses(good)
    ensures multiset(Returned(parses, [bad, good])) == multiset{bad} + multiset{good} + multiset{good}
  {
    FilterOne(parses, bad);
    FilterOne(parses, good);
    assert [bad, good] == [bad] + [good] && [bad, good][1..] == [good];
    FilterConcat(parses, [bad], [good]);
    ReturnedCounts(parses, [bad, good]);
  }

  /** Both packets arrive and are taken as one batch. */
  lemma BatchTaken(bad: Packet, good: Packet)
    requires bad != good
    ensures Reaches(With(IDLE, [], [bad, good], {bad, good}))
  {
    Begin();
    Arrive([], {}, bad);
    assert [] + [bad] == [bad] && {} + {bad} == {bad};
    Arrive([bad], {bad}, good);
    assert [bad] + [good] == [bad, good] && {bad} + {good} == {bad, good};
    Take([bad, good], [], {bad, good});
    assert [bad, good][1..] == [good] && [] + [bad] == [bad];
    Take([good], [bad], {bad, good});
    assert [good][1..] == [];
  }

  lemma EmptyPlus(x: multiset<Packet>)
    ensures multiset{} + x == x
  {
  }

  lemma DoneStep(parses: Packet -> bool, batch: seq<Packet>, live: set<Packet>)
    ensures Next(With(IDLE, [], batch, live), ByPeer(0, InboundDone(parses)))
         == With(IDLE, [], [], live).(pool := multiset(Returned(parses, batch)))
  {
    EmptyPlus(multiset(Returned(parses, batch)));
  }

  lemma BatchDone(parses: Packet -> bool, batch: seq<Packet>, live: set<Packet>)
    requires Reaches(With(IDLE, [], batch, live))
    ensures Reaches(With(IDLE, [], [], live).(pool := multiset(Returned(parses, batch))))
  {
    var s := With(IDLE, [], batch, live);
    DoneStep(parses, batch, live);
    Then(s, ByPeer(0, InboundDone(parses)), Next(s, ByPeer(0, InboundDone(parses))));
  }

  lemma SlotFills(s: Sys, i: nat, p: Packet, pool: multiset<Packet>)
    requires Reaches(s) && i < |s.reader.slots| && s.reader.slots[i] == None && s.pool == pool + multiset{p}
    ensures Reaches(s.(pool := pool, reader := s.reader.(slots := s.reader.slots[i := Some(p)])))
  {
    assert pool + multiset{p} - multiset{p} == pool;
    Then(s, ByReader(Fill(i, p)), s.(pool := pool, reader := s.reader.(slots := s.reader.slots[i := Some(p)])));
  }

  /** The pool after the batch, with the valid packet in it twice. */
  lemma PoolHasTwo(parses: Packet -> bool, bad: Packet, good: Packet) returns (s: Sys)
    requires !parses(bad) && parses(good)
    ensures Reaches(s) && s.pool == multiset{bad} + multiset{good} + multiset{good}
    ensures s == With(IDLE, [], [], {bad, good}).(pool := s.pool)
  {
    BatchTaken(bad, good);
    ReturnsTwice(parses, bad, good);
    BatchDone(parses, [bad, good], {bad, good});
    s := With(IDLE, [], [], {bad, good}).(pool := multiset(Returned(parses, [bad, good])));
  }

  /** A reachable state in which two slots of the TUN reader hold the same packet. */
  lemma SamePacketInTwoSlots(parses: Packet -> bool, bad: Packet, good: Packet) returns (s: Sys)
    requires !parses(bad) && parses(good)
    ensures Reaches(s) && s.reader.slots == [Some(good), Some(good)] && !Conserved(s)
  {
    s := PoolHasTwo(parses, bad, good);
    SlotFills(s, 0, good, multiset{bad} + multiset{good});
    s := s.(pool := multiset{bad} + multiset{good}, reader := s.reader.(slots := s.reader.slots[0 := Some(good)]));
    SlotFills(s, 1, good, multiset{bad});
    s := s.(pool := multiset{bad}, reader := s.reader.(slots := s.reader.slots[1 := Some(good)]));
    TwoSlots(s, good);
  }

  lemma TwoSlots(s: Sys, p: Packet)
    requires |s.reader.slots| == 2 && s.reader.slots[0] == s.reader.slots[1] == Some(p)
    ensures !Conserved(s)
  {
    SumHasTwo(InSlot, s.reader.slots, 0, 1, p);
    assert Places(s, p) >= 2;
  }
}
