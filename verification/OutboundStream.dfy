/**
 * The sending loop of a peer in service/tunnel.go: packets go out in batches over a stream
 * that is replaced before it carries too much. The limit is only known once a stream is open,
 * and stays at its old value while none is.
 */
module OutboundStream {
  import Framing
  import opened Bytes
  import opened Packets

  const MIB := 0x10_0000
  const MAX_PACKETS_PER_UNLIMITED_STREAM := 5 * 1024 * MIB / INTERFACE_MTU
  const MAX_PACKETS_PER_LIMITED_STREAM := 20 * MIB / INTERFACE_MTU
  const PACKETS_BATCH_SIZE := 100

  /** The most packets on a limited stream, and the room this leaves to each of them. */
  const LIMITED_QUOTA := MAX_PACKETS_PER_LIMITED_STREAM - 1
  const ROOM_PER_PACKET := 20 * MIB / LIMITED_QUOTA

  function LimitOf(limited: bool): nat {
    if limited then MAX_PACKETS_PER_LIMITED_STREAM else MAX_PACKETS_PER_UNLIMITED_STREAM
  }

  /** How opening a stream ends, if the loop tries to. */
  datatype Opening = Fails | Opens(limited: bool)

  datatype Event =
    | Batch(sizes: seq<nat>, connected: bool, opening: Opening, writeOk: bool)
    | IdleTick(queueEmpty: bool)

  ghost predicate Possible(e: Event) {
    e.Batch? ==> 1 <= |e.sizes| <= PACKETS_BATCH_SIZE
  }

  function Total(sizes: seq<nat>): nat {
    if sizes == [] then 0 else Total(sizes[..|sizes| - 1]) + sizes[|sizes| - 1]
  }

  /** A stream that was opened, and the number and the bytes of the packets written to it. */
  datatype Stream = Stream(limited: bool, packets: nat, bytes: nat)

  /** The loop's variables, and the streams it is done with. */
  datatype Sender = Sender(maxPackets: nat, current: nat, stream: Current, past: seq<Stream>) {
    /** Every stream so far, in order. */
    function Streams(): seq<Stream> {
      if stream.Open? then past + [stream.s] else past
    }
  }

  datatype Current = NoStream | Open(s: Stream)

  const START := Sender(0, 0, NoStream, [])

  function CloseStream(s: Sender): Sender {
    s.(current := 0, stream := NoStream, past := s.Streams())
  }

  /** A write counts in full even if it fails part of the way. */
  function Written(st: Stream, sizes: seq<nat>): Stream {
    Stream(st.limited, st.packets + |sizes|, st.bytes + Total(sizes))
  }

  function SendPacket(s: Sender, sizes: seq<nat>, opening: Opening, writeOk: bool): (Sender, bool) {
    if s.stream.Open? then (s.(stream := Open(Written(s.stream.s, sizes))), writeOk)
    else if opening.Fails? then (s, false)
    else
      var st := Stream(opening.limited, 0, 0);
      (s.(maxPackets := LimitOf(opening.limited), stream := Open(Written(st, sizes))), writeOk)
  }

  function Handle(s: Sender, e: Event): Sender {
    match e
    case IdleTick(queueEmpty) => if queueEmpty then CloseStream(s) else s
    case Batch(sizes, connected, opening, writeOk) =>
      if !connected then s
      else
        var c := if s.current + |sizes| >= s.maxPackets then CloseStream(s) else s;
        var (t, ok) := SendPacket(c.(current := c.current + |sizes|), sizes, opening, writeOk);
        if ok then t else CloseStream(t)
  }

  function Run(events: seq<Event>): Sender {
    if events == [] then START else Handle(Run(events[..|events| - 1]), events[|events| - 1])
  }

  // ----- The quota

  ghost predicate WithinQuota(streams: seq<Stream>) {
    forall i :: 0 <= i < |streams| ==> streams[i].packets < LimitOf(streams[i].limited)
  }

  /** While a stream is open the counter is its load and the limit is its own; otherwise it is 0. */
  ghost predicate Inv(s: Sender) {
    && WithinQuota(s.past)
    && (s.stream.NoStream? ==> s.current == 0)
    && (s.stream.Open? ==>
          var st := s.stream.s;
          s.current == st.packets && s.maxPackets == LimitOf(st.limited) && s.current < s.maxPackets)
  }

  lemma HandleKeepsInv(s: Sender, e: Event)
    requires Inv(s) && Possible(e)
    ensures Inv(Handle(s, e))
  {
  }

  /**
   * Over every sequence of batches, connectivity changes, failures and idle ticks, fewer
   * packets go onto a stream than the limit of that stream's own kind.
   */
  lemma {:induction false} QuotaHolds(events: seq<Event>)
    requires forall e :: e in events ==> Possible(e)
    ensures Inv(Run(events)) && WithinQuota(Run(events).Streams())
  {
    if events != [] {
      QuotaHolds(events[..|events| - 1]);
      HandleKeepsInv(Run(events[..|events| - 1]), events[|events| - 1]);
    }
  }

  // ----- Bytes

  ghost predicate Small(e: Event, m: nat) {
    e.Batch? ==> forall i :: 0 <= i < |e.sizes| ==> e.sizes[i] <= m
  }

  /** All that can happen while no packet is larger than `m`. */
  ghost predicate Usual(events: seq<Event>, m: nat) {
    forall e :: e in events ==> Possible(e) && Small(e, m)
  }

  lemma {:induction false} TotalBound(sizes: seq<nat>, m: nat)
    requires forall i :: 0 <= i < |sizes| ==> sizes[i] <= m
    ensures Total(sizes) <= |sizes| * m
  {
    if sizes != [] {
      TotalBound(sizes[..|sizes| - 1], m);
      assert |sizes| * m == (|sizes| - 1) * m + m;
    }
  }

  lemma {:induction false} TotalOfEqual(sizes: seq<nat>, m: nat)
    requires forall i :: 0 <= i < |sizes| ==> sizes[i] == m
    ensures Total(sizes) == |sizes| * m
  {
    if sizes != [] {
      TotalOfEqual(sizes[..|sizes| - 1], m);
      assert |sizes| * m == (|sizes| - 1) * m + m;
    }
  }

  ghost predicate BytesBounded(streams: seq<Stream>, m: nat) {
    forall i :: 0 <= i < |streams| ==> streams[i].bytes <= streams[i].packets * m
  }

  lemma HandleKeepsBytes(s: Sender, e: Event, m: nat)
    requires BytesBounded(s.Streams(), m) && Small(e, m)
    ensures BytesBounded(Handle(s, e).Streams(), m)
  {
    if e.Batch? {
      TotalBound(e.sizes, m);
      WrittenBounded(Stream(true, 0, 0), e.sizes, m);
      WrittenBounded(Stream(false, 0, 0), e.sizes, m);
      if s.stream.Open? {
        assert s.Streams()[|s.past|] == s.stream.s;
        assert BytesBounded(s.past, m) by {
          assert forall i :: 0 <= i < |s.past| ==> s.past[i] == s.Streams()[i];
        }
        WrittenBounded(s.stream.s, e.sizes, m);
      }
    }
  }

  lemma WrittenBounded(st: Stream, sizes: seq<nat>, m: nat)
    requires st.bytes <= st.packets * m && Total(sizes) <= |sizes| * m
    ensures Written(st, sizes).bytes <= Written(st, sizes).packets * m
  {
    Distribute(st.packets, |sizes|, m);
  }

  lemma Distribute(a: nat, b: nat, m: nat)
    ensures (a + b) * m == a * m + b * m
  {
  }

  lemma {:induction false} BytesPerPacket(events: seq<Event>, m: nat)
    requires Usual(events, m)
    ensures BytesBounded(Run(events).Streams(), m)
  {
    if events != [] {
      BytesPerPacket(events[..|events| - 1], m);
      HandleKeepsBytes(Run(events[..|events| - 1]), events[|events| - 1], m);
    }
  }

  /** What a stream carries when each packet costs `header` bytes more. */
  function Carried(st: Stream, header: nat): nat {
    st.bytes + header * st.packets
  }

  function Sizes(packets: seq<seq<byte>>): (sizes: seq<nat>)
    ensures |sizes| == |packets|
  {
    if packets == [] then [] else Sizes(packets[..|packets| - 1]) + [|packets[|packets| - 1]|]
  }

  /** The frames of a batch on the wire: its packets with one length header each. */
  lemma {:induction false} FramesOnTheWire(packets: seq<seq<byte>>)
    ensures |Framing.Encode(packets)| == Carried(Stream(true, |packets|, Total(Sizes(packets))), Framing.HEADER)
  {
    if packets != [] {
      var n := |packets| - 1;
      FramesOnTheWire(packets[..n]);
      FrameOnTheWire(packets[..n], packets[n]);
      assert packets == packets[..n] + [packets[n]];
      assert Sizes(packets)[..n] == Sizes(packets[..n]);
    }
  }

  lemma FrameOnTheWire(packets: seq<seq<byte>>, p: seq<byte>)
    ensures |Framing.Encode(packets + [p])| == |Framing.Encode(packets)| + Framing.HEADER + |p|
  {
    Framing.EncodeSnoc(packets, p);
  }

  /** Whatever happens, no limited stream carries more than 20 MiB. */
  ghost predicate StaysWithinLimit(m: nat, header: nat) {
    forall events, i :: Usual(events, m) && 0 <= i < |Run(events).Streams()| && Run(events).Streams()[i].limited ==>
      Carried(Run(events).Streams()[i], header) <= 20 * MIB
  }

  lemma LimitedNumbers()
    ensures LimitOf(true) == 5991 && LIMITED_QUOTA == 5990 && ROOM_PER_PACKET == 3501 && LimitOf(false) == 1533916
  {
  }

  lemma ProductBound(a: nat, b: nat, x: nat)
    requires a <= b
    ensures a * x <= b * x
  {
    assert b * x == a * x + (b - a) * x;
  }

  /** A stream within its quota whose packets are small enough carries no more than the limit. */
  lemma QuotaTimesRoom(st: Stream, m: nat, header: nat)
    requires st.packets <= LIMITED_QUOTA && st.bytes <= st.packets * m && m + header <= ROOM_PER_PACKET
    ensures Carried(st, header) <= 20 * MIB
  {
    LimitedNumbers();
    assert st.packets * m + header * st.packets == st.packets * (m + header);
    ProductBound(st.packets, 5990, m + header);
  }

  lemma SmallEnough(m: nat, header: nat, events: seq<Event>, i: nat)
    requires m + header <= ROOM_PER_PACKET
    requires Usual(events, m) && i < |Run(events).Streams()| && Run(events).Streams()[i].limited
    ensures Carried(Run(events).Streams()[i], header) <= 20 * MIB
  {
    QuotaHolds(events);
    BytesPerPacket(events, m);
    QuotaTimesRoom(Run(events).Streams()[i], m, header);
  }

  // ----- A stream filled to the last packet

  function Equal(n: nat, m: nat): (sizes: seq<nat>)
    ensures |sizes| == n && forall i :: 0 <= i < n ==> sizes[i] == m
  {
    seq(n, i => m)
  }

  /** The sender while its first stream is open. */
  function Filling(limited: bool, packets: nat, bytes: nat): Sender {
    Sender(LimitOf(limited), packets, Open(Stream(limited, packets, bytes)), [])
  }

  ghost predicate Sends(e: Event) {
    e.Batch? && e.connected && e.writeOk
  }

  lemma OneMoreBatch(before: seq<Event>, limited: bool, packets: nat, bytes: nat, e: Event)
    requires Run(before) == Filling(limited, packets, bytes)
    requires Sends(e) && packets + |e.sizes| < LimitOf(limited)
    ensures Run(before + [e]) == Filling(limited, packets + |e.sizes|, bytes + Total(e.sizes))
  {
    RunSnoc(before, e);
  }

  lemma FirstBatch(e: Event)
    requires Sends(e) && e.opening.Opens?
    ensures Run([e]) == Filling(e.opening.limited, |e.sizes|, Total(e.sizes))
  {
    assert [e][..0] == [];
  }

  function Times(k: nat, x: nat): nat {
    if k == 0 then 0 else Times(k - 1, x) + x
  }

  lemma RunSnoc(events: seq<Event>, e: Event)
    ensures Run(events + [e]) == Handle(Run(events), e)
  {
    assert (events + [e])[..|events|] == events;
  }

  ghost predicate Fills(events: seq<Event>, limited: bool, k: nat, n: nat, x: nat) {
    Run(events) == Filling(limited, Times(k, n), Times(k, x))
  }

  lemma FillsOneMore(events: seq<Event>, limited: bool, e: Event, k: nat, n: nat, x: nat)
    requires Fills(events, limited, k, n, x) && Sends(e) && |e.sizes| == n && Total(e.sizes) == x
    requires Times(k + 1, n) < LimitOf(limited)
    ensures Fills(events + [e], limited, k + 1, n, x)
  {
    OneMoreBatch(events, limited, Times(k, n), Times(k, x), e);
  }

  lemma FillsFirst(e: Event)
    requires Sends(e) && e.opening.Opens?
    ensures Fills([e], e.opening.limited, 1, |e.sizes|, Total(e.sizes))
  {
    FirstBatch(e);
    TimesIsProduct(1, |e.sizes|);
    TimesIsProduct(1, Total(e.sizes));
  }

  lemma {:induction false} TimesGrows(k: nat, n: nat)
    ensures Times(k, n) <= Times(k + 1, n)
  {
  }

  /** The same batch again and again goes onto one stream while the quota lasts. */
  lemma {:induction false} RepeatedFills(k: nat, e: Event, n: nat, x: nat) returns (events: seq<Event>)
    requires Sends(e) && e.opening.Opens? && |e.sizes| == n && Total(e.sizes) == x
    requires k > 0 && Times(k, n) < LimitOf(e.opening.limited)
    ensures Fills(events, e.opening.limited, k, n, x) && forall f :: f in events ==> f == e
  {
    if k == 1 {
      events := [e];
      FillsFirst(e);
    } else {
      TimesGrows(k - 1, n);
      var before := RepeatedFills(k - 1, e, n, x);
      FillsOneMore(before, e.opening.limited, e, k - 1, n, x);
      events := before + [e];
    }
  }

  lemma {:induction false} TimesIsProduct(k: nat, x: nat)
    ensures Times(k, x) == k * x
  {
    if k > 0 {
      TimesIsProduct(k - 1, x);
    }
  }

  /** `k` full batches and a last one of `r` packets, all of size `m`, on one stream. */
  lemma FilledBy(limited: bool, k: nat, r: nat, m: nat) returns (events: seq<Event>)
    requires k > 0 && 1 <= r <= PACKETS_BATCH_SIZE && k * PACKETS_BATCH_SIZE + r < LimitOf(limited)
    ensures Usual(events, m)
    ensures Run(events).Streams()
         == [Stream(limited, k * PACKETS_BATCH_SIZE + r, k * (PACKETS_BATCH_SIZE * m) + r * m)]
  {
    var batch := Batch(Equal(PACKETS_BATCH_SIZE, m), true, Opens(limited), true);
    var last := Batch(Equal(r, m), true, Fails, true);
    TotalOfEqual(batch.sizes, m);
    TotalOfEqual(last.sizes, m);
    TimesIsProduct(k, PACKETS_BATCH_SIZE);
    TimesIsProduct(k, PACKETS_BATCH_SIZE * m);
    var full := RepeatedFills(k, batch, PACKETS_BATCH_SIZE, PACKETS_BATCH_SIZE * m);
    OneMoreBatch(full, limited, k * PACKETS_BATCH_SIZE, k * (PACKETS_BATCH_SIZE * m), last);
    events := full + [last];
  }

  /** The most a limited stream can carry: as many packets as its quota allows, all of size `m`. */
  lemma FilledStream(m: nat) returns (events: seq<Event>)
    ensures Usual(events, m)
    ensures Run(events).Streams() == [Stream(true, LIMITED_QUOTA, LIMITED_QUOTA * m)]
  {
    LimitedNumbers();
    events := FilledBy(true, 59, 90, m);
    assert 59 * (PACKETS_BATCH_SIZE * m) + 90 * m == 5990 * m;
  }

  /** The same for a stream that is not limited: 5 GiB in packets of the MTU, less one packet. */
  lemma FilledUnlimited(m: nat) returns (events: seq<Event>)
    ensures Usual(events, m)
    ensures Run(events).Streams() == [Stream(false, 1533915, 1533915 * m)]
  {
    LimitedNumbers();
    events := FilledBy(false, 15339, 15, m);
    assert 15339 * (PACKETS_BATCH_SIZE * m) + 15 * m == 1533915 * m;
  }

  /** Fewer than 5991 packets go onto a limited stream and fewer than 1533916 onto another one. */
  lemma QuotaInNumbers(events: seq<Event>, i: nat)
    requires forall e :: e in events ==> Possible(e)
    requires i < |Run(events).Streams()|
    ensures Run(events).Streams()[i].packets <= if Run(events).Streams()[i].limited then 5990 else 1533915
  {
    LimitedNumbers();
    QuotaHolds(events);
  }

  /**
   * The exact condition. With `header` bytes added to each packet, limited streams stay within
   * 20 MiB in every run if and only if the largest packet leaves room for a full quota.
   */
  lemma WithinLimitExactlyWhen(m: nat, header: nat)
    ensures StaysWithinLimit(m, header) <==> m + header <= 3501
  {
    LimitedNumbers();
    if m + header <= ROOM_PER_PACKET {
      forall events, i | Usual(events, m) && 0 <= i < |Run(events).Streams()| && Run(events).Streams()[i].limited
        ensures Carried(Run(events).Streams()[i], header) <= 20 * MIB
      {
        SmallEnough(m, header, events, i);
      }
    } else {
      var events := FilledStream(m);
      assert Carried(Run(events).Streams()[0], header) == 5990 * m + header * 5990;
    }
  }

  /** Payload alone fits for every packet up to the interface MTU. */
  lemma LimitedPayload(events: seq<Event>, i: nat)
    requires Usual(events, INTERFACE_MTU)
    requires i < |Run(events).Streams()| && Run(events).Streams()[i].limited
    ensures Run(events).Streams()[i].bytes < 20 * MIB
  {
    LimitedNumbers();
    QuotaHolds(events);
    BytesPerPacket(events, INTERFACE_MTU);
  }

  /** With the length headers the largest packets that always fit are 7 bytes below the MTU. */
  lemma WireBytesFitExactlyWhen(m: nat)
    ensures StaysWithinLimit(m, 8) <==> m <= 3493
  {
    WithinLimitExactlyWhen(m, 8);
  }

  /** A run whose limited stream carries more than 20 MiB once the length headers are counted. */
  lemma WireBytesCanExceedLimit() returns (events: seq<Event>)
    ensures Usual(events, INTERFACE_MTU)
    ensures Run(events).Streams() != [] && Run(events).Streams()[0].limited
    ensures Carried(Run(events).Streams()[0], Framing.HEADER) > 20 * MIB
  {
    LimitedNumbers();
    events := FilledStream(INTERFACE_MTU);
  }

  // ----- The code

  /** The loop's variables and its closures. */
  class OutboundHandler {
    var stream: Current
    var maxPacketsPerStream: nat
    var currentPacketsForStream: nat
    var past: seq<Stream>

    function State(): Sender
      reads this
    {
      Sender(maxPacketsPerStream, currentPacketsForStream, stream, past)
    }

    constructor ()
      ensures State() == START
    {
      stream, maxPacketsPerStream, currentPacketsForStream, past := NoStream, 0, 0, [];
    }

    method Send(sizes: seq<nat>, opening: Opening, writeOk: bool) returns (ok: bool)
      modifies this
      ensures (State(), ok) == SendPacket(old(State()), sizes, opening, writeOk)
    {
      if stream.NoStream? {
        if opening.Fails? {
          return false;
        }
        stream := Open(Stream(opening.limited, 0, 0));
        maxPacketsPerStream := LimitOf(opening.limited);
      }
      stream := Open(Written(stream.s, sizes));
      return writeOk;
    }

    method Close()
      modifies this
      ensures State() == CloseStream(old(State()))
    {
      if stream.Open? {
        stream, past := NoStream, past + [stream.s];
      }
      currentPacketsForStream := 0;
    }

    method Turn(e: Event)
      modifies this
      ensures State() == Handle(old(State()), e)
    {
      match e
      case Batch(sizes, connected, opening, writeOk) =>
        if !connected {
          return;
        }
        if currentPacketsForStream + |sizes| >= maxPacketsPerStream {
          Close();
        }
        currentPacketsForStream := currentPacketsForStream + |sizes|;
        var ok := Send(sizes, opening, writeOk);
        if !ok {
          Close();
        }
      case IdleTick(queueEmpty) =>
        if queueEmpty {
          Close();
        }
    }

    /** The loop, over the events that wake it up. */
    method Loop(events: seq<Event>)
      requires State() == START && forall e :: e in events ==> Possible(e)
      modifies this
      ensures State() == Run(events) && WithinQuota(State().Streams())
    {
      for i := 0 to |events|
        invariant State() == Run(events[..i])
      {
        assert events[..i + 1][..i] == events[..i];
        Turn(events[i]);
      }
      assert events[..|events|] == events;
      QuotaHolds(events);
    }
  }
}
