/**
 * Tunnel framing: each packet goes onto a stream as an 8-byte big-endian length followed by
 * its bytes (protocol/protocol.go), and is read back by the loop of service/tunnel.go from a
 * stream that may return any chunk sizes, including empty ones.
 */
module Framing {
  import opened Bytes
  import opened Packets

  const HEADER := 8
  const MAX_FRAME := MAX_CONTENT_SIZE - TUN_PACKET_OFFSET

  // ----- Big-endian numbers

  function Pow256(k: nat): nat {
    if k == 0 then 1 else 256 * Pow256(k - 1)
  }

  function BigEndian(n: nat, width: nat): (b: seq<byte>)
    ensures |b| == width
  {
    if width == 0 then [] else BigEndian(n / 256, width - 1) + [n % 256]
  }

  function FromBigEndian(b: seq<byte>): nat {
    if b == [] then 0 else FromBigEndian(b[..|b| - 1]) * 256 + b[|b| - 1]
  }

  lemma {:induction false} BigEndianRoundTrip(n: nat, width: nat)
    requires n < Pow256(width)
    ensures FromBigEndian(BigEndian(n, width)) == n
  {
    if width > 0 {
      BigEndianRoundTrip(n / 256, width - 1);
      var b := BigEndian(n, width);
      assert b[..width - 1] == BigEndian(n / 256, width - 1);
    }
  }

  /** The bytes of a number by their weights, the heaviest first. */
  lemma {:induction false} BigEndianByte(n: nat, width: nat, k: nat)
    requires k < width
    ensures Pow256(width - 1 - k) > 0 && BigEndian(n, width)[k] == n / Pow256(width - 1 - k) % 256
  {
    Pow256Positive(width - 1 - k);
    if k < width - 1 {
      BigEndianByte(n / 256, width - 1, k);
      DivideTwice(n, Pow256(width - 2 - k));
    }
  }

  lemma {:induction false} Pow256Positive(k: nat)
    ensures Pow256(k) > 0
  {
    if k > 0 {
      Pow256Positive(k - 1);
    }
  }

  lemma DivideTwice(n: nat, d: nat)
    requires d > 0
    ensures n / 256 / d == n / (256 * d)
  {
    var a, q := n / 256, n / 256 / d;
    var r := a % d;
    assert a == q * d + r;
    assert n == (256 * d) * q + (256 * r + n % 256) by {
      assert n == 256 * a + n % 256;
      assert 256 * (q * d) == (256 * d) * q;
    }
    DivideIs(n, 256 * d, q, 256 * r + n % 256);
  }

  lemma DivideIs(n: nat, d: nat, q: nat, r: nat)
    requires n == d * q + r && r < d
    ensures n / d == q
  {
    var k := n / d;
    assert n == d * k + n % d;
    if k < q {
      assert d * q >= d * (k + 1) by { ProductGrows(d, k + 1, q); }
    } else if q < k {
      assert d * k >= d * (q + 1) by { ProductGrows(d, q + 1, k); }
    }
  }

  lemma {:induction false} ProductGrows(d: nat, a: nat, b: nat)
    requires a <= b
    ensures d * a <= d * b
  {
    if a < b {
      ProductGrows(d, a, b - 1);
      assert d * b == d * (b - 1) + d;
    }
  }

  // ----- Frames

  function Frame(packet: seq<byte>): seq<byte> {
    BigEndian(|packet|, HEADER) + packet
  }

  /** The frame of a packet: its length in eight bytes, the heaviest first, and then its bytes. */
  lemma FrameBytes(packet: seq<byte>, k: nat)
    requires k < 8
    ensures |Frame(packet)| == 8 + |packet| && Frame(packet)[8..] == packet
    ensures Pow256(7 - k) > 0 && Frame(packet)[k] == |packet| / Pow256(7 - k) % 256
  {
    BigEndianByte(|packet|, 8, k);
    assert Frame(packet)[8..] == packet;
  }

  function Encode(packets: seq<seq<byte>>): seq<byte> {
    if packets == [] then [] else Frame(packets[0]) + Encode(packets[1..])
  }

  /**
   * The packets a reader of `b` delivers. When the bytes end inside a packet and the stream
   * ended cleanly, the bytes that did arrive are delivered as a last, shorter packet.
   */
  function Decode(b: seq<byte>, clean: bool): seq<seq<byte>> {
    if |b| < HEADER then []
    else
      var n, rest := FromBigEndian(b[..HEADER]), b[HEADER..];
      if n <= |rest| then [rest[..n]] + Decode(rest[n..], clean)
      else if clean then [rest] else []
  }

  /** Every frame that a reader of `b` meets declares a length that fits a packet buffer. */
  predicate FramesFit(b: seq<byte>) {
    |b| >= HEADER ==>
      var n, rest := FromBigEndian(b[..HEADER]), b[HEADER..];
      n <= MAX_FRAME && (n <= |rest| ==> FramesFit(rest[n..]))
  }

  /** Packets that fit the buffer they are read into: 3600 bytes, of which the first 14 are kept free. */
  ghost predicate Sendable(packets: seq<seq<byte>>) {
    forall p :: p in packets ==> |p| <= 3586
  }

  lemma MaxFrameFits()
    ensures MAX_FRAME < Pow256(HEADER)
  {
    assert Pow256(1) == 256;
    assert MAX_FRAME < Pow256(2);
    assert Pow256(3) >= Pow256(2) && Pow256(4) >= Pow256(3) && Pow256(5) >= Pow256(4);
    assert Pow256(6) >= Pow256(5) && Pow256(7) >= Pow256(6);
  }

  lemma PrefixDecodes(n: nat, width: nat, tail: seq<byte>)
    requires n < Pow256(width)
    ensures var b := BigEndian(n, width) + tail; FromBigEndian(b[..width]) == n && b[width..] == tail
  {
    BigEndianRoundTrip(n, width);
    assert (BigEndian(n, width) + tail)[..width] == BigEndian(n, width);
  }

  lemma FrameHeader(p: seq<byte>, tail: seq<byte>)
    requires |p| <= MAX_FRAME
    ensures var b := Frame(p) + tail;
            FromBigEndian(b[..HEADER]) == |p| && b[HEADER..] == p + tail
  {
    MaxFrameFits();
    PrefixDecodes(|p|, HEADER, p + tail);
    assert Frame(p) + tail == BigEndian(|p|, HEADER) + (p + tail);
  }

  /** How many of the packets are on the wire in full within the first `c` bytes. */
  function WholeFrames(packets: seq<seq<byte>>, c: nat): (k: nat)
    ensures k <= |packets|
  {
    if packets == [] || c < |Frame(packets[0])| then 0
    else 1 + WholeFrames(packets[1..], c - |Frame(packets[0])|)
  }

  /** What is left of a cut inside the frame that follows the whole ones. */
  function Leftover(packets: seq<seq<byte>>, c: nat): nat {
    if packets == [] || c < |Frame(packets[0])| then c
    else Leftover(packets[1..], c - |Frame(packets[0])|)
  }

  /** What a reader delivers when the encoding of `packets` is cut after `c` bytes. */
  function Surviving(packets: seq<seq<byte>>, c: nat, clean: bool): seq<seq<byte>> {
    if packets == [] then []
    else if c < |Frame(packets[0])| then if clean && c >= HEADER then [packets[0][..c - HEADER]] else []
    else [packets[0]] + Surviving(packets[1..], c - |Frame(packets[0])|, clean)
  }

  /**
   * Cutting an encoded stream after any number of bytes delivers exactly the packets whose
   * frames are complete, plus, on a clean end past a length header, one short prefix of the
   * next packet.
   */
  lemma DecodeOfCut(packets: seq<seq<byte>>, c: nat, clean: bool)
    requires Sendable(packets) && c <= |Encode(packets)|
    ensures FramesFit(Encode(packets)[..c])
    ensures var k, r := WholeFrames(packets, c), Leftover(packets, c);
            && (k == |packets| ==> r == 0)
            && (k < |packets| ==> r < |Frame(packets[k])|)
            && Decode(Encode(packets)[..c], clean)
               == packets[..k] + (if clean && r >= HEADER then [packets[k][..r - HEADER]] else [])
  {
    DecodeSurviving(packets, c, clean);
    SurvivingShape(packets, c, clean);
  }

  lemma {:induction false} DecodeSurviving(packets: seq<seq<byte>>, c: nat, clean: bool)
    requires Sendable(packets) && c <= |Encode(packets)|
    ensures FramesFit(Encode(packets)[..c])
    ensures Decode(Encode(packets)[..c], clean) == Surviving(packets, c, clean)
  {
    if packets != [] {
      var p, e := packets[0], Encode(packets[1..]);
      if c < |Frame(p)| {
        assert Encode(packets)[..c] == Frame(p)[..c];
        DecodePartial(p, c, clean);
      } else {
        var d := c - |Frame(p)|;
        assert Encode(packets)[..c] == Frame(p) + e[..d];
        DecodeFrame(p, e[..d], clean);
        DecodeSurviving(packets[1..], d, clean);
      }
    }
  }

  lemma {:induction false} SurvivingShape(packets: seq<seq<byte>>, c: nat, clean: bool)
    requires c <= |Encode(packets)|
    ensures var k, r := WholeFrames(packets, c), Leftover(packets, c);
            && (k == |packets| ==> r == 0)
            && (k < |packets| ==> r < |Frame(packets[k])|)
            && Surviving(packets, c, clean)
               == packets[..k] + (if clean && r >= HEADER then [packets[k][..r - HEADER]] else [])
  {
    if packets != [] && c >= |Frame(packets[0])| {
      var d := c - |Frame(packets[0])|;
      SurvivingShape(packets[1..], d, clean);
      assert packets[..WholeFrames(packets, c)] == [packets[0]] + packets[1..][..WholeFrames(packets[1..], d)];
    }
  }

  lemma DecodeFrame(p: seq<byte>, tail: seq<byte>, clean: bool)
    requires |p| <= MAX_FRAME
    ensures Decode(Frame(p) + tail, clean) == [p] + Decode(tail, clean)
    ensures FramesFit(Frame(p) + tail) == FramesFit(tail)
  {
    FrameHeader(p, tail);
    assert (p + tail)[..|p|] == p && (p + tail)[|p|..] == tail;
  }

  lemma DecodePartial(p: seq<byte>, c: nat, clean: bool)
    requires |p| <= MAX_FRAME && c < |Frame(p)|
    ensures FramesFit(Frame(p)[..c])
    ensures Decode(Frame(p)[..c], clean) == if clean && c >= HEADER then [p[..c - HEADER]] else []
  {
    FrameHeader(p, []);
    assert Frame(p) + [] == Frame(p);
    if c >= HEADER {
      assert Frame(p)[..c][..HEADER] == Frame(p)[..HEADER];
      assert Frame(p)[..c][HEADER..] == p[..c - HEADER];
    }
  }

  /** Decoding what was encoded gives back the packets. */
  lemma {:induction false} RoundTrip(packets: seq<seq<byte>>, clean: bool)
    requires Sendable(packets)
    ensures FramesFit(Encode(packets)) && Decode(Encode(packets), clean) == packets
  {
    WholeAtEnd(packets);
    DecodeOfCut(packets, |Encode(packets)|, clean);
    assert Encode(packets)[..|Encode(packets)|] == Encode(packets);
  }

  lemma {:induction false} WholeAtEnd(packets: seq<seq<byte>>)
    ensures WholeFrames(packets, |Encode(packets)|) == |packets|
  {
    if packets != [] {
      WholeAtEnd(packets[1..]);
    }
  }

  lemma {:induction false} EncodeSnoc(packets: seq<seq<byte>>, p: seq<byte>)
    ensures Encode(packets + [p]) == Encode(packets) + Frame(p)
  {
    if packets == [] {
      assert packets + [p] == [p] && [p][1..] == [];
    } else {
      assert (packets + [p])[1..] == packets[1..] + [p];
      EncodeSnoc(packets[1..], p);
    }
  }

  // ----- The sender

  method AppendPacketToBuf(buf: seq<byte>, packet: seq<byte>) returns (r: seq<byte>)
    ensures r == buf + Frame(packet)
  {
    var lenHeader := BigEndian(|packet|, HEADER);
    r := buf + lenHeader;
    r := r + packet;
  }

  /** The bytes one batch of the outbound loop puts on the stream. */
  method SerializeBatch(packets: seq<seq<byte>>) returns (data: seq<byte>)
    ensures data == Encode(packets)
  {
    data := [];
    for i := 0 to |packets|
      invariant data == Encode(packets[..i])
    {
      EncodeSnoc(packets[..i], packets[i]);
      assert packets[..i + 1] == packets[..i] + [packets[i]];
      data := AppendPacketToBuf(data, packets[i]);
    }
    assert packets[..|packets|] == packets;
  }

  // ----- The reader

  datatype Status = More | Eof | Broken

  /** How one call of Read behaves: at most `size` bytes, and whether the end may come with them. */
  datatype Chunk = Chunk(size: nat, endWithData: bool)

  /**
   * A network stream: the bytes still to come, how it ends, and a schedule that fixes the
   * outcome of the next calls. Ranging over all schedules is ranging over all chunkings.
   */
  class Stream {
    var data: seq<byte>
    var schedule: seq<Chunk>
    const ending: Status

    constructor (data: seq<byte>, schedule: seq<Chunk>, ending: Status)
      requires ending != More
      ensures this.data == data && this.schedule == schedule && this.ending == ending
    {
      this.data, this.schedule, this.ending := data, schedule, ending;
    }

    ghost function Budget(): nat
      reads this
    {
      |data| + |schedule|
    }

    /** Fills part of `buf[from..to]`. The end is reported only once every byte was returned. */
    method Read(buf: array<byte>, from: nat, to: nat) returns (n: nat, status: Status)
      requires from < to <= buf.Length && ending != More
      modifies this, buf
      ensures n <= to - from && n <= |old(data)| && data == old(data)[n..]
      ensures buf[..] == old(buf[..])[..from] + old(data)[..n] + old(buf[..])[from + n..]
      ensures status != More ==> status == ending && data == []
      ensures status == More ==> Budget() < old(Budget())
    {
      var next := if schedule == [] then Chunk(to - from, false) else schedule[0];
      n := Min(next.size, Min(to - from, |data|));
      forall i | 0 <= i < n {
        buf[from + i] := data[i];
      }
      data := data[n..];
      status := if data == [] && (next.endWithData || (n == 0 && next.size > 0)) then ending else More;
      schedule := if schedule == [] then [] else schedule[1..];
    }
  }

  /** io.ReadFull of the length header, and its value. */
  method ReadUint64(stream: Stream) returns (value: nat, ok: bool)
    requires stream.ending != More
    modifies stream
    ensures ok <==> |old(stream.data)| >= HEADER
    ensures ok ==> value == FromBigEndian(old(stream.data)[..HEADER]) && stream.data == old(stream.data)[HEADER..]
  {
    var header := ReadFull(stream, HEADER);
    if |header| < HEADER {
      return 0, false;
    }
    return FromBigEndian(header), true;
  }

  /** The next `size` bytes, or all that is left. */
  method ReadFull(stream: Stream, size: nat) returns (b: seq<byte>)
    requires stream.ending != More
    modifies stream
    ensures |b| <= size && (|b| < size ==> |old(stream.data)| < size)
    ensures |b| <= |old(stream.data)| && b == old(stream.data)[..|b|] && stream.data == old(stream.data)[|b|..]
  {
    var buf := new byte[size];
    var got, status := 0, More;
    while got < size && status == More
      invariant got <= size && got <= |old(stream.data)|
      invariant stream.data == old(stream.data)[got..]
      invariant buf[..got] == old(stream.data)[..got]
      invariant status != More ==> stream.data == []
      decreases status == More, stream.Budget()
    {
      var n;
      n, status := stream.Read(buf, got, size);
      got := got + n;
      assert buf[..got] == old(stream.data)[..got];
    }
    b := buf[..got];
  }

  /**
   * Packet.ReadFrom on a reader limited to `limit` bytes: whatever the chunking, the packet
   * holds the next `limit` bytes of the stream, or all that is left of it at a clean end.
   */
  method ReadFrom(packet: Packet, stream: Stream, limit: nat) returns (ok: bool)
    requires packet.Valid() && stream.ending != More && limit <= MAX_FRAME
    modifies packet, packet.Buffer, stream
    ensures ok ==> packet.Valid() && packet.Content() == old(stream.data)[..Min(limit, |old(stream.data)|)]
    ensures ok ==> stream.data == old(stream.data)[Min(limit, |old(stream.data)|)..]
    ensures ok || (stream.ending == Broken && |old(stream.data)| <= limit)
    ensures ok && |old(stream.data)| < limit ==> stream.ending == Eof
  {
    var total, left, status := TUN_PACKET_OFFSET, limit, More;
    while left > 0 && status == More
      invariant total == TUN_PACKET_OFFSET + (limit - left) <= packet.Buffer.Length
      invariant 0 <= left <= limit && limit - left <= |old(stream.data)|
      invariant stream.data == old(stream.data)[limit - left..]
      invariant packet.Buffer[TUN_PACKET_OFFSET..total] == old(stream.data)[..limit - left]
      invariant status != More ==> stream.data == [] && status == stream.ending
      decreases status == More, stream.Budget()
    {
      ghost var before := packet.Buffer[..];
      var n;
      n, status := stream.Read(packet.Buffer, total, total + left);
      assert packet.Buffer[TUN_PACKET_OFFSET..total] == before[TUN_PACKET_OFFSET..total];
      total, left := total + n, left - n;
      assert packet.Buffer[TUN_PACKET_OFFSET..total] == old(stream.data)[..limit - left];
    }
    assert |stream.data| == |old(stream.data)| - (limit - left);
    if status == Broken {
      return false;
    }
    packet.len := total - TUN_PACKET_OFFSET;
    assert limit - left == Min(limit, |old(stream.data)|);
    return true;
  }

  /** One turn of the handler's loop takes one packet off what is still to be delivered. */
  lemma DecodeUnfold(b: seq<byte>, clean: bool, p: seq<byte>, tail: seq<byte>)
    requires |b| >= HEADER
    requires var n, rest := FromBigEndian(b[..HEADER]), b[HEADER..];
             p == rest[..Min(n, |rest|)] && tail == rest[Min(n, |rest|)..] && (n <= |rest| || clean)
    ensures Decode(b, clean) == [p] + Decode(tail, clean)
    ensures FramesFit(b) ==> FramesFit(tail)
  {
    var n, rest := FromBigEndian(b[..HEADER]), b[HEADER..];
    if n > |rest| {
      assert tail == [] && p == rest;
    }
  }

  /** One turn of the loop: a packet, or the end of the stream. */
  method ReadPacket(stream: Stream) returns (p: seq<byte>, ok: bool)
    requires stream.ending != More && FramesFit(stream.data)
    modifies stream
    ensures ok ==> FramesFit(stream.data) && |stream.data| < |old(stream.data)|
    ensures ok ==>
              Decode(old(stream.data), stream.ending == Eof) == [p] + Decode(stream.data, stream.ending == Eof)
    ensures !ok && stream.ending == Eof ==> Decode(old(stream.data), true) == []
    ensures !ok ==> |Decode(old(stream.data), false)| <= 1
  {
    ghost var b := stream.data;
    var size, gotHeader := ReadUint64(stream);
    if !gotHeader {
      return [], false;
    }
    var packet := new Packet();
    ok := ReadFrom(packet, stream, size);
    if !ok {
      return [], false;
    }
    p := packet.Content();
    DecodeUnfold(b, stream.ending == Eof, p, stream.data);
  }

  /**
   * The loop of the tunnel's stream handler: the packets it delivers depend on the bytes of
   * the stream and not on their chunking. A broken stream may lose the last whole packet, when
   * the failure is reported together with its final bytes.
   */
  method ReadPackets(stream: Stream) returns (delivered: seq<seq<byte>>)
    requires stream.ending != More && FramesFit(stream.data)
    modifies stream
    ensures stream.ending == Eof ==> delivered == Decode(old(stream.data), true)
    ensures var whole := Decode(old(stream.data), false);
            stream.ending == Broken ==>
              delivered == whole || (whole != [] && delivered == whole[..|whole| - 1])
  {
    delivered := [];
    ghost var clean := stream.ending == Eof;
    ghost var all := Decode(stream.data, clean);
    while true
      invariant FramesFit(stream.data)
      invariant all == delivered + Decode(stream.data, clean)
      decreases |stream.data|
    {
      var p, ok := ReadPacket(stream);
      if !ok {
        return;
      }
      delivered := delivered + [p];
    }
  }

  /**
   * Sender and reader together: whatever arrives of the frames of `packets`, in whatever
   * chunks, a clean end delivers the whole frames and the started one's prefix, and a broken
   * stream delivers the whole frames or all but the last of them.
   */
  method Transmit(packets: seq<seq<byte>>, c: nat, schedule: seq<Chunk>, ending: Status)
    returns (delivered: seq<seq<byte>>)
    requires Sendable(packets) && c <= |Encode(packets)| && ending != More
    ensures var k, r := WholeFrames(packets, c), Leftover(packets, c);
            && (k == |packets| ==> r == 0)
            && (k < |packets| ==> r < |Frame(packets[k])|)
            && (ending == Eof ==>
                  delivered == packets[..k] + (if r >= HEADER then [packets[k][..r - HEADER]] else []))
    ensures var k := WholeFrames(packets, c);
            ending == Broken ==> delivered == packets[..k] || (k > 0 && delivered == packets[..k - 1])
    ensures c == |Encode(packets)| && ending == Eof ==> delivered == packets
  {
    var data := SerializeBatch(packets);
    var stream := new Stream(data[..c], schedule, ending);
    DecodeOfCut(packets, c, ending == Eof);
    delivered := ReadPackets(stream);
    if c == |Encode(packets)| {
      WholeAtEnd(packets);
    }
  }
}
