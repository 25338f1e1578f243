/**
 * What one call of HandleReadPackets does to the outbound channels (service/tunnel.go): every
 * peer is offered, in order, the packets for its own address and a copy of each broadcast
 * while it is connected. An offer is accepted while the channel has room; the senders of the
 * peer may receive any number of packets between two offers. A slot is emptied exactly when
 * its packet itself was accepted.
 */
module TunDelivery {
  import opened Bytes
  import opened Peers
  import opened TunnelIndex
  import opened TunnelSteps

  const LIMITED_BROADCAST: uint32 := 0xffff_ffff

  /** A slot of the reader's slice: empty, or a packet with its destination. */
  datatype Cell = Empty | Held(dst: uint32)

  /** What lands in a channel: the packet of a slot, or a copy of it. */
  datatype Sent = Sent(slot: nat, copy: bool)

  /** An outbound channel: what its senders have received, and what is waiting. */
  datatype Pipe = Pipe(received: seq<Sent>, queue: seq<Sent>) {
    function Log(): seq<Sent> {
      received + queue
    }

    /** The senders receive up to `k` packets. */
    function Drain(k: nat): (c: Pipe)
      ensures c.Log() == Log() && |c.queue| <= |queue|
    {
      var n := Min(k, |queue|);
      Pipe(received + queue[..n], queue[n..])
    }

    function Offer(x: Sent): Pipe {
      if |queue| < CHAN_CAP then Pipe(received, queue + [x]) else this
    }
  }

  predicate IsBroadcast(dst: uint32, bcast: uint32) {
    dst == bcast || dst == LIMITED_BROADCAST
  }

  function Wanted(cell: Cell, i: nat, a: uint32, bcast: uint32, connected: bool): seq<Sent> {
    if cell.Empty? then []
    else if IsBroadcast(cell.dst, bcast) then if connected then [Sent(i, true)] else []
    else if cell.dst == a then [Sent(i, false)] else []
  }

  /** Everything in the slice that is meant for the peer at address `a`, in order. */
  function Meant(cells: seq<Cell>, a: uint32, bcast: uint32, connected: bool): seq<Sent> {
    if cells == [] then [] else
      var n := |cells| - 1;
      Meant(cells[..n], a, bcast, connected) + Wanted(cells[n], n, a, bcast, connected)
  }

  // ----- A channel that is offered a list of packets

  /** How many packets are received right before each offer. */
  type Takes = Sent -> nat

  /** The channel after it was offered `more`. */
  function Fed(c: Pipe, more: seq<Sent>, takes: Takes): Pipe {
    if more == [] then c else
      var n := |more| - 1;
      Fed(c, more[..n], takes).Drain(takes(more[n])).Offer(more[n])
  }

  /** The offer that follows `before` is accepted. */
  predicate Accepts(c: Pipe, before: seq<Sent>, x: Sent, takes: Takes) {
    |Fed(c, before, takes).Drain(takes(x)).queue| < CHAN_CAP
  }

  /** The offers that were accepted, in order. */
  function Accepted(c: Pipe, more: seq<Sent>, takes: Takes): seq<Sent> {
    if more == [] then [] else
      var n := |more| - 1;
      Accepted(c, more[..n], takes) + if Accepts(c, more[..n], more[n], takes) then [more[n]] else []
  }

  lemma FedSnoc(c: Pipe, more: seq<Sent>, x: Sent, takes: Takes)
    ensures Fed(c, more + [x], takes) == Fed(c, more, takes).Drain(takes(x)).Offer(x)
  {
    assert (more + [x])[..|more|] == more;
  }

  lemma OfferAdds(c: Pipe, x: Sent)
    ensures c.Offer(x).Log() == c.Log() + if |c.queue| < CHAN_CAP then [x] else []
  {
  }

  /** What ever went into the channel grows by exactly the accepted offers, and the queue stays bounded. */
  lemma {:induction false} FedAccepts(c: Pipe, more: seq<Sent>, takes: Takes)
    requires |c.queue| <= CHAN_CAP
    ensures Fed(c, more, takes).Log() == c.Log() + Accepted(c, more, takes)
    ensures |Fed(c, more, takes).queue| <= CHAN_CAP
  {
    if more == [] {
      assert c.Log() + [] == c.Log();
    } else {
      var n := |more| - 1;
      FedAccepts(c, more[..n], takes);
      OfferAdds(Fed(c, more[..n], takes).Drain(takes(more[n])), more[n]);
    }
  }

  /** While nobody receives, the channel takes what fits and drops the rest. */
  lemma {:induction false} FedAlone(c: Pipe, more: seq<Sent>, takes: Takes)
    requires |c.queue| <= CHAN_CAP && forall x :: takes(x) == 0
    ensures Fed(c, more, takes) == Pipe(c.received, c.queue + more[..Min(|more|, CHAN_CAP - |c.queue|)])
  {
    var room := CHAN_CAP - |c.queue|;
    if more == [] {
      assert c.queue + [] == c.queue;
    } else {
      var n := |more| - 1;
      FedAlone(c, more[..n], takes);
      DrainNothing(Fed(c, more[..n], takes));
      if n < room {
        assert c.queue + more[..n] + [more[n]] == c.queue + more[..n + 1];
      } else {
        assert more[..n][..room] == more[..room];
      }
    }
  }

  lemma DrainNothing(c: Pipe)
    ensures c.Drain(0) == c
  {
  }

  ghost predicate InSlotOrder(s: seq<Sent>) {
    forall i, j :: 0 <= i < j < |s| ==> s[i].slot < s[j].slot
  }

  ghost predicate Below(s: seq<Sent>, n: nat) {
    forall i :: 0 <= i < |s| ==> s[i].slot < n
  }

  /** What is meant for a peer comes in the order of the slots, at most once for each. */
  lemma {:induction false} MeantInOrder(cells: seq<Cell>, a: uint32, bcast: uint32, connected: bool)
    ensures InSlotOrder(Meant(cells, a, bcast, connected)) && Below(Meant(cells, a, bcast, connected), |cells|)
  {
    if cells != [] {
      MeantInOrder(cells[..|cells| - 1], a, bcast, connected);
    }
  }

  /** And so does what a channel accepts of it. */
  lemma {:induction false} AcceptedInOrder(c: Pipe, more: seq<Sent>, takes: Takes)
    requires InSlotOrder(more)
    ensures InSlotOrder(Accepted(c, more, takes))
    ensures forall x :: x in Accepted(c, more, takes) ==> x in more
  {
    if more != [] {
      var n := |more| - 1;
      AcceptedInOrder(c, more[..n], takes);
      var before := Accepted(c, more[..n], takes);
      forall i | 0 <= i < |before|
        ensures before[i].slot < more[n].slot
      {
        assert before[i] in more[..n];
      }
    }
  }

  /** What was accepted was offered at a moment with room ... */
  lemma {:induction false} AcceptedHas(c: Pipe, more: seq<Sent>, x: Sent, takes: Takes) returns (t: nat)
    requires x in Accepted(c, more, takes)
    ensures t < |more| && more[t] == x && Accepts(c, more[..t], x, takes)
  {
    var n := |more| - 1;
    if x in Accepted(c, more[..n], takes) {
      t := AcceptedHas(c, more[..n], x, takes);
      assert more[..n][..t] == more[..t];
    } else {
      t := n;
    }
  }

  /** ... and the other way round. */
  lemma {:induction false} AcceptedKeeps(c: Pipe, more: seq<Sent>, t: nat, takes: Takes)
    requires t < |more| && Accepts(c, more[..t], more[t], takes)
    ensures more[t] in Accepted(c, more, takes)
  {
    var n := |more| - 1;
    if t < n {
      assert more[..n][..t] == more[..t];
      AcceptedKeeps(c, more[..n], t, takes);
    }
  }

  // ----- What is meant for a peer

  lemma MeantSnoc(cells: seq<Cell>, i: nat, a: uint32, bcast: uint32, connected: bool)
    requires i < |cells|
    ensures Meant(cells[..i + 1], a, bcast, connected)
         == Meant(cells[..i], a, bcast, connected) + Wanted(cells[i], i, a, bcast, connected)
  {
    assert cells[..i + 1][..i] == cells[..i];
  }

  /** One more cell: its packet is offered to the peer at `a`, or is not for it. */
  lemma FedNext(c: Pipe, cells: seq<Cell>, i: nat, a: uint32, bcast: uint32, connected: bool, takes: Takes)
    requires i < |cells|
    ensures var now, next := Meant(cells[..i], a, bcast, connected), Meant(cells[..i + 1], a, bcast, connected);
            var wanted := Wanted(cells[i], i, a, bcast, connected);
            Fed(c, next, takes) == if wanted == [] then Fed(c, now, takes)
                                   else Fed(c, now, takes).Drain(takes(wanted[0])).Offer(wanted[0])
  {
    MeantSnoc(cells, i, a, bcast, connected);
    var now, wanted := Meant(cells[..i], a, bcast, connected), Wanted(cells[i], i, a, bcast, connected);
    if wanted == [] {
      assert now + wanted == now;
    } else {
      assert wanted == [wanted[0]];
      FedSnoc(c, now, wanted[0], takes);
    }
  }

  /** An entry stands for its slot, and stands after what earlier slots were meant to add. */
  lemma {:induction false} MeantAt(cells: seq<Cell>, a: uint32, bcast: uint32, connected: bool, t: nat)
    requires t < |Meant(cells, a, bcast, connected)|
    ensures var x := Meant(cells, a, bcast, connected)[t];
            && x.slot < |cells| && Meant(cells, a, bcast, connected)[..t] == Meant(cells[..x.slot], a, bcast, connected)
            && Wanted(cells[x.slot], x.slot, a, bcast, connected) == [x]
  {
    var n := |cells| - 1;
    var before := Meant(cells[..n], a, bcast, connected);
    if t < |before| {
      MeantAt(cells[..n], a, bcast, connected, t);
      assert cells[..n][..before[t].slot] == cells[..before[t].slot];
      assert Meant(cells, a, bcast, connected)[..t] == before[..t];
    } else {
      assert Meant(cells, a, bcast, connected)[..t] == before;
    }
  }

  lemma {:induction false} MeantPrefix(cells: seq<Cell>, a: uint32, bcast: uint32, connected: bool, i: nat)
    requires i <= |cells|
    ensures Meant(cells[..i], a, bcast, connected) <= Meant(cells, a, bcast, connected)
  {
    if i == |cells| {
      assert cells[..i] == cells;
    } else {
      MeantPrefix(cells[..|cells| - 1], a, bcast, connected, i);
      assert cells[..|cells| - 1][..i] == cells[..i];
    }
  }

  lemma MeantHas(cells: seq<Cell>, a: uint32, bcast: uint32, connected: bool, i: nat)
    requires i < |cells| && Wanted(cells[i], i, a, bcast, connected) != []
    ensures var all, before := Meant(cells, a, bcast, connected), Meant(cells[..i], a, bcast, connected);
            && |before| < |all| && all[..|before|] == before
            && all[|before|] == Wanted(cells[i], i, a, bcast, connected)[0]
  {
    MeantSnoc(cells, i, a, bcast, connected);
    MeantPrefix(cells, a, bcast, connected, i + 1);
  }

  lemma RoutesDiffer(ix: Index, a: uint32, b: uint32)
    requires Linked(ix) && a in ix.routes && b in ix.routes && a != b
    ensures ix.routes[a] != ix.routes[b]
  {
    assert RouteLinked(ix, a) && RouteLinked(ix, b);
  }

  // ----- One call

  type Queues = seq<Pipe>    // by peer object

  /**
   * What the call meets: the indexes, the broadcast address, who is connected, and what the
   * senders of each peer object receive in the meantime.
   */
  datatype Net = Net(index: Index, bcast: uint32, connected: PeerId -> bool, takes: nat -> Takes) {

    ghost predicate Fits(queues: Queues) {
      Linked(index) && |queues| == |index.entries|
    }

    function PeerAt(a: uint32): nat
      requires a in index.routes
    {
      index.routes[a]
    }

    ghost predicate Online(a: uint32)
      requires Linked(index) && a in index.routes
    {
      assert RouteLinked(index, a);
      connected(index.entries[PeerAt(a)].peerID)
    }

    ghost function MeantFor(slice: seq<Cell>, a: uint32): seq<Sent>
      requires Linked(index) && a in index.routes
    {
      Meant(slice, a, bcast, Online(a))
    }

    ghost function WantedBy(a: uint32, slice: seq<Cell>, i: nat): seq<Sent>
      requires Linked(index) && a in index.routes && i < |slice|
    {
      Wanted(slice[i], i, a, bcast, Online(a))
    }

    /** The channel behind route `a` after the packets of `slice`, if it was as in `was` before. */
    ghost predicate Got(a: uint32, slice: seq<Cell>, was: Queues, queues: Queues)
      requires Fits(was) && Fits(queues) && a in index.routes
    {
      assert RouteLinked(index, a);
      queues[PeerAt(a)] == Fed(was[PeerAt(a)], MeantFor(slice, a), takes(PeerAt(a)))
    }

    ghost predicate Unrouted(h: nat) {
      forall a :: a in index.routes ==> index.routes[a] != h
    }

    /** Slot `i` holds a packet for a routed address, and its channel has room when its turn comes. */
    ghost predicate Fitting(slice: seq<Cell>, i: nat, was: Queues)
      requires Fits(was) && i < |slice|
    {
      && slice[i].Held? && slice[i].dst in index.routes && RouteLinked(index, slice[i].dst)
      && var h := PeerAt(slice[i].dst);
         Accepts(was[h], MeantFor(slice[..i], slice[i].dst), Sent(i, false), takes(h))
    }

    /** Slot `i` gets empty. */
    ghost predicate Gone(slice: seq<Cell>, i: nat, was: Queues)
      requires Fits(was) && i < |slice|
    {
      Fitting(slice, i, was) && !IsBroadcast(slice[i].dst, bcast)
    }

    /** Channels without a route are left alone. */
    ghost predicate OthersSame(was: Queues, queues: Queues) {
      |was| == |queues| && forall h :: 0 <= h < |was| && Unrouted(h) ==> queues[h] == was[h]
    }

    /** Slot `i` is being dealt with: the peers in `todo` still have to be offered their part. */
    ghost predicate Progress(slice: seq<Cell>, i: nat, was: Queues, queues: Queues, todo: set<uint32>) {
      && Fits(was) && Fits(queues) && i < |slice| && OthersSame(was, queues)
      && forall a :: a in index.routes ==> Got(a, if a in todo then slice[..i] else slice[..i + 1], was, queues)
    }

    /** The channels after the first `i` slots. */
    ghost predicate Delivered(slice: seq<Cell>, i: nat, was: Queues, queues: Queues) {
      && Fits(was) && Fits(queues) && i <= |slice| && OthersSame(was, queues)
      && forall a :: a in index.routes ==> Got(a, slice[..i], was, queues)
    }

    /** The slots after the first `i` were handled. */
    ghost predicate Emptied(slice: seq<Cell>, i: nat, was: Queues, cells: seq<Cell>) {
      && Fits(was) && i <= |slice| == |cells|
      && forall j :: 0 <= j < |slice| ==> cells[j] == if j < i && Gone(slice, j, was) then Empty else slice[j]
    }

    /** The channels after peer object `h` was offered its part of slot `i`. */
    ghost function Offered(queues: Queues, h: nat, wanted: seq<Sent>): Queues
      requires h < |queues|
    {
      if wanted == [] then queues
      else queues[h := queues[h].Drain(takes(h)(wanted[0])).Offer(wanted[0])]
    }

    lemma OfferedGets(slice: seq<Cell>, i: nat, was: Queues, before: Queues, a: uint32)
      requires Fits(was) && Fits(before) && i < |slice| && a in index.routes && Got(a, slice[..i], was, before)
      requires PeerAt(a) < |before|
      ensures Got(a, slice[..i + 1], was, Offered(before, PeerAt(a), WantedBy(a, slice, i)))
    {
      assert RouteLinked(index, a);
      FedNext(was[PeerAt(a)], slice, i, a, bcast, Online(a), takes(PeerAt(a)));
    }

    lemma OfferedSpares(slice: seq<Cell>, was: Queues, before: Queues, a: uint32, b: uint32, wanted: seq<Sent>)
      requires Fits(was) && Fits(before) && a in index.routes && b in index.routes && a != b
      requires PeerAt(a) < |before| && Got(b, slice, was, before)
      ensures Got(b, slice, was, Offered(before, PeerAt(a), wanted))
    {
      RoutesDiffer(index, a, b);
    }

    /** The peer at `a` is dealt with once it was offered the packet, or does not want it. */
    lemma Advance(slice: seq<Cell>, i: nat, was: Queues, before: Queues, queues: Queues, todo: set<uint32>, a: uint32)
      requires Progress(slice, i, was, before, todo) && a in todo && a in index.routes && PeerAt(a) < |before|
      requires queues == Offered(before, PeerAt(a), WantedBy(a, slice, i))
      ensures Progress(slice, i, was, queues, todo - {a})
    {
      forall b | b in index.routes
        ensures Got(b, if b in todo - {a} then slice[..i] else slice[..i + 1], was, queues)
      {
        assert Got(b, if b in todo then slice[..i] else slice[..i + 1], was, before);
        if b == a {
          OfferedGets(slice, i, was, before, a);
        } else {
          OfferedSpares(if b in todo then slice[..i] else slice[..i + 1], was, before, a, b, WantedBy(a, slice, i));
        }
      }
    }

    /** Peers that do not want slot `i` are dealt with already. */
    lemma OthersAreDone(slice: seq<Cell>, i: nat, was: Queues, queues: Queues, todo: set<uint32>)
      requires Delivered(slice, i, was, queues) && i < |slice|
      requires forall a :: a in index.routes && a !in todo ==> WantedBy(a, slice, i) == []
      ensures Progress(slice, i, was, queues, todo)
    {
      forall a | a in index.routes
        ensures Got(a, if a in todo then slice[..i] else slice[..i + 1], was, queues)
      {
        assert RouteLinked(index, a) && Got(a, slice[..i], was, queues);
        if a !in todo {
          OfferedGets(slice, i, was, queues, a);
        }
      }
    }

    /** A unicast packet is accepted exactly when its channel has room at that moment. */
    lemma RoomMeansGone(slice: seq<Cell>, i: nat, was: Queues, queues: Queues)
      requires Delivered(slice, i, was, queues) && i < |slice|
      requires slice[i].Held? && !IsBroadcast(slice[i].dst, bcast) && slice[i].dst in index.routes
      requires PeerAt(slice[i].dst) < |queues|
      ensures var h := PeerAt(slice[i].dst);
              Gone(slice, i, was) <==> |queues[h].Drain(takes(h)(Sent(i, false))).queue| < CHAN_CAP
    {
      assert RouteLinked(index, slice[i].dst);
      assert Got(slice[i].dst, slice[..i], was, queues);
    }

    /** When the turn of a slot comes there is room for `x` in the channel of peer object `h`. */
    ghost predicate RoomFor(mid: Queues, h: nat, x: Sent)
      requires h < |mid|
    {
      |mid[h].Drain(takes(h)(x)).queue| < 2000
    }

    /** What went into a channel: what its peer wants, if there was room in its turn. */
    lemma EntryIff(slice: seq<Cell>, was: Queues, mid: Queues, queues: Queues, a: uint32, x: Sent)
      requires x.slot < |slice| && Delivered(slice, x.slot, was, mid) && Delivered(slice, |slice|, was, queues)
      requires a in index.routes && PeerAt(a) < |was|
      requires |was[PeerAt(a)].queue| <= CHAN_CAP && x !in was[PeerAt(a)].Log()
      ensures x in queues[PeerAt(a)].Log() <==> WantedBy(a, slice, x.slot) == [x] && RoomFor(mid, PeerAt(a), x)
    {
      var h, i := PeerAt(a), x.slot;
      assert slice[..|slice|] == slice;
      assert RouteLinked(index, a) && Got(a, slice[..i], was, mid) && Got(a, slice, was, queues);
      FedAccepts(was[h], MeantFor(slice, a), takes(h));
      if x in Accepted(was[h], MeantFor(slice, a), takes(h)) {
        var t := AcceptedHas(was[h], MeantFor(slice, a), x, takes(h));
        MeantAt(slice, a, bcast, Online(a), t);
      }
      if WantedBy(a, slice, i) == [x] && RoomFor(mid, h, x) {
        MeantHas(slice, a, bcast, Online(a), i);
        AcceptedKeeps(was[h], MeantFor(slice, a), |MeantFor(slice[..i], a)|, takes(h));
      }
    }

    /**
     * Where a packet and its copies go, for every slot and every routed peer: a copy to each
     * connected peer if the packet is for the broadcast address of the subnet or for
     * 255.255.255.255, and else the packet itself to the peer with its address; each if the
     * channel has room in its turn.
     */
    lemma GoesWhere(slice: seq<Cell>, was: Queues, mid: Queues, queues: Queues, a: uint32, i: nat)
      requires i < |slice| && Delivered(slice, i, was, mid) && Delivered(slice, |slice|, was, queues)
      requires a in index.routes && PeerAt(a) < |was| && |was[PeerAt(a)].queue| <= CHAN_CAP
      requires Sent(i, true) !in was[PeerAt(a)].Log() && Sent(i, false) !in was[PeerAt(a)].Log()
      ensures PeerAt(a) < |index.entries|
      ensures Sent(i, true) in queues[PeerAt(a)].Log() <==>
                && slice[i].Held? && (slice[i].dst == bcast || slice[i].dst == 0xffff_ffff)
                && connected(index.entries[PeerAt(a)].peerID) && RoomFor(mid, PeerAt(a), Sent(i, true))
      ensures Sent(i, false) in queues[PeerAt(a)].Log() <==>
                && slice[i].Held? && slice[i].dst == a && a != bcast && a != 0xffff_ffff
                && RoomFor(mid, PeerAt(a), Sent(i, false))
    {
      assert RouteLinked(index, a);
      EntryIff(slice, was, mid, queues, a, Sent(i, true));
      EntryIff(slice, was, mid, queues, a, Sent(i, false));
    }

    /** The channels were within their capacity, and none had seen the packet of slot `i`. */
    ghost predicate NewTo(was: Queues, i: nat) {
      forall h :: 0 <= h < |was| ==> |was[h].queue| <= CHAN_CAP && Sent(i, false) !in was[h].Log()
    }

    /** What is new in a channel was sent to the route that leads to it, and is gone from its slot. */
    lemma SentMeansGone(slice: seq<Cell>, was: Queues, queues: Queues, i: nat, h: nat)
      requires Delivered(slice, |slice|, was, queues) && i < |slice| && NewTo(was, i)
      requires h < |queues| && Sent(i, false) in queues[h].Log()
      ensures Gone(slice, i, was) && PeerAt(slice[i].dst) == h
    {
      assert slice[..|slice|] == slice;
      var a :| a in index.routes && index.routes[a] == h;
      assert RouteLinked(index, a) && Got(a, slice, was, queues);
      FedAccepts(was[h], MeantFor(slice, a), takes(h));
      var t := AcceptedHas(was[h], MeantFor(slice, a), Sent(i, false), takes(h));
      MeantAt(slice, a, bcast, Online(a), t);
    }

    lemma GoneMeansSent(slice: seq<Cell>, was: Queues, queues: Queues, i: nat)
      requires Delivered(slice, |slice|, was, queues) && i < |slice| && NewTo(was, i) && Gone(slice, i, was)
      ensures PeerAt(slice[i].dst) < |queues| && Sent(i, false) in queues[PeerAt(slice[i].dst)].Log()
    {
      var a := slice[i].dst;
      var h := PeerAt(a);
      assert slice[..|slice|] == slice;
      assert Got(a, slice, was, queues);
      MeantHas(slice, a, bcast, Online(a), i);
      AcceptedKeeps(was[h], MeantFor(slice, a), |MeantFor(slice[..i], a)|, takes(h));
      FedAccepts(was[h], MeantFor(slice, a), takes(h));
    }

    /** After a call a packet itself went into a channel if and only if its slot was emptied. */
    lemma SentIffGone(slice: seq<Cell>, was: Queues, queues: Queues, i: nat)
      requires Delivered(slice, |slice|, was, queues) && i < |slice| && NewTo(was, i)
      ensures (exists h :: 0 <= h < |queues| && Sent(i, false) in queues[h].Log()) <==> Gone(slice, i, was)
    {
      if Gone(slice, i, was) {
        GoneMeansSent(slice, was, queues, i);
      }
      forall h | 0 <= h < |queues| && Sent(i, false) in queues[h].Log()
        ensures Gone(slice, i, was)
      {
        SentMeansGone(slice, was, queues, i, h);
      }
    }
  }

  /** What a call adds to a channel comes in the order of the slots, at most one entry for each. */
  lemma ArrivesInOrder(net: Net, slice: seq<Cell>, was: Queues, queues: Queues, a: uint32)
    requires net.Delivered(slice, |slice|, was, queues) && a in net.index.routes && net.PeerAt(a) < |was|
    requires |was[net.PeerAt(a)].queue| <= CHAN_CAP
    ensures var before, after := was[net.PeerAt(a)].Log(), queues[net.PeerAt(a)].Log();
            before <= after && InSlotOrder(after[|before|..])
  {
    var h, more := net.PeerAt(a), net.MeantFor(slice, a);
    assert slice[..|slice|] == slice;
    assert net.Got(a, slice, was, queues);
    FedAccepts(was[h], more, net.takes(h));
    MeantInOrder(slice, a, net.bcast, net.Online(a));
    AcceptedInOrder(was[h], more, net.takes(h));
    assert queues[h].Log()[|was[h].Log()|..] == Accepted(was[h], more, net.takes(h));
  }

  /** After a call a slot is empty exactly if it was, or if its packet went into a channel. */
  lemma EmptiedIffSent(net: Net, slice: seq<Cell>, was: Queues, cells: seq<Cell>, queues: Queues, i: nat)
    requires net.Delivered(slice, |slice|, was, queues) && net.Emptied(slice, |slice|, was, cells)
    requires i < |slice| && net.NewTo(was, i)
    ensures |cells| == |slice| && (cells[i] == slice[i] || cells[i].Empty?)
    ensures cells[i].Empty? <==>
              slice[i].Empty? || exists h :: 0 <= h < |queues| && Sent(i, false) in queues[h].Log()
  {
    net.SentIffGone(slice, was, queues, i);
  }

  /** The reader's slice and the outbound channels. */
  class Outbound {
    const net: Net
    var cells: seq<Cell>
    var queues: Queues

    constructor (net: Net, cells: seq<Cell>, queues: Queues)
      ensures this.net == net && this.cells == cells && this.queues == queues
    {
      this.net, this.cells, this.queues := net, cells, queues;
    }

    /** One packet to one peer, after its senders received what they like; tells whether it was taken. */
    method Send(h: nat, x: Sent) returns (taken: bool)
      requires h < |queues|
      modifies this`queues
      ensures taken == (|old(queues)[h].Drain(net.takes(h)(x)).queue| < CHAN_CAP)
      ensures queues == net.Offered(old(queues), h, [x])
    {
      var c := queues[h].Drain(net.takes(h)(x));
      taken := |c.queue| < CHAN_CAP;
      if taken {
        c := Pipe(c.received, c.queue + [x]);
      }
      queues := queues[h := c];
    }

    /** A copy for every connected peer, in any order of the route table. */
    method Broadcast(i: nat, ghost slice: seq<Cell>, ghost was: Queues)
      requires net.Progress(slice, i, was, queues, net.index.routes.Keys)
      requires slice[i].Held? && IsBroadcast(slice[i].dst, net.bcast)
      modifies this`queues
      ensures net.Progress(slice, i, was, queues, {})
    {
      var todo := net.index.routes.Keys;
      while todo != {}
        invariant todo <= net.index.routes.Keys && net.Progress(slice, i, was, queues, todo)
      {
        var a :| a in todo;
        BroadcastTo(i, a, slice, was, todo);
        todo := todo - {a};
      }
    }

    method BroadcastTo(i: nat, a: uint32, ghost slice: seq<Cell>, ghost was: Queues, ghost todo: set<uint32>)
      requires net.Progress(slice, i, was, queues, todo) && a in todo && a in net.index.routes
      requires slice[i].Held? && IsBroadcast(slice[i].dst, net.bcast)
      modifies this`queues
      ensures net.Progress(slice, i, was, queues, todo - {a})
    {
      assert RouteLinked(net.index, a);
      ghost var before := queues;
      var h := net.PeerAt(a);
      if net.connected(net.index.entries[h].peerID) {
        var _ := Send(h, Sent(i, true));
      }
      net.Advance(slice, i, was, before, queues, todo, a);
    }

    /** One packet for one address; its slot is emptied if the channel took it. */
    method Unicast(i: nat, dst: uint32, ghost slice: seq<Cell>, ghost was: Queues)
      requires net.Delivered(slice, i, was, queues) && i < |slice| == |cells|
      requires slice[i] == Held(dst) && !IsBroadcast(dst, net.bcast)
      modifies this
      ensures net.Progress(slice, i, was, queues, {})
      ensures cells == if net.Gone(slice, i, was) then old(cells)[i := Empty] else old(cells)
    {
      if dst !in net.index.routes {
        net.OthersAreDone(slice, i, was, queues, {});
        return;
      }
      assert RouteLinked(net.index, dst);
      net.OthersAreDone(slice, i, was, queues, {dst});
      net.RoomMeansGone(slice, i, was, queues);
      ghost var before := queues;
      var taken := Send(net.PeerAt(dst), Sent(i, false));
      if taken {
        cells := cells[i := Empty];
      }
      net.Advance(slice, i, was, before, queues, {dst}, dst);
      assert {dst} - {dst} == {};
    }

    /** One slot of the slice. */
    method HandleSlot(i: nat, ghost slice: seq<Cell>, ghost was: Queues)
      requires net.Delivered(slice, i, was, queues) && net.Emptied(slice, i, was, cells) && i < |slice|
      modifies this
      ensures net.Delivered(slice, i + 1, was, queues) && net.Emptied(slice, i + 1, was, cells)
    {
      match cells[i]
      case Empty => net.OthersAreDone(slice, i, was, queues, {});
      case Held(dst) =>
        if IsBroadcast(dst, net.bcast) {
          Broadcast(i, slice, was);
        } else {
          Unicast(i, dst, slice, was);
        }
    }

    /**
     * The whole call, with senders receiving at any time: every routed peer was offered what
     * was meant for it, no other channel changed, and exactly the slots whose own packet was
     * accepted are empty.
     */
    method HandleReadPackets(isClosed: bool)
      requires net.Fits(queues)
      modifies this
      ensures isClosed ==> cells == old(cells) && queues == old(queues)
      ensures !isClosed ==> net.Delivered(old(cells), |old(cells)|, old(queues), queues)
      ensures !isClosed ==> net.Emptied(old(cells), |old(cells)|, old(queues), cells)
    {
      if isClosed {
        return;
      }
      ghost var slice, was := cells, queues;
      var i := 0;
      while i < |cells|
        invariant 0 <= i <= |cells| == |slice|
        invariant net.Delivered(slice, i, was, queues) && net.Emptied(slice, i, was, cells)
      {
        HandleSlot(i, slice, was);
        i := i + 1;
      }
    }
  }
}
