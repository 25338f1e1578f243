/**
 * WritePacketsBatch of vpn/vpn.go: the packets of an inbound batch are rewritten in place and
 * handed to the TUN device, except IPv6 ones, which are skipped. A packet object may occur
 * twice in a batch; rewriting it again changes nothing.
 */
module DeviceWrite {
  import opened Bytes
  import opened Checksum
  import opened Packets

  // ----- Rewriting is idempotent

  /** The same bytes, but for the header checksum and the two bytes at `field`. */
  ghost predicate Agree(p: seq<byte>, q: seq<byte>, field: nat) {
    && |p| == |q|
    && forall i :: 0 <= i < |p| && !(HEADER_CHECKSUM_AT <= i < SRC_AT) && !(field <= i < field + 2) ==> p[i] == q[i]
  }

  /** The transport field, or the header checksum for packets without one. */
  ghost function Field(p: seq<byte>): nat
    requires ChecksumFits(p)
  {
    if HasTransport(p) then FieldAt(p) else HEADER_CHECKSUM_AT
  }

  /** The rewritten fields overlap neither the header length nor the protocol. */
  lemma AgreeingFits(p: seq<byte>, q: seq<byte>)
    requires ChecksumFits(p) && Agree(p, q, Field(p))
    ensures ChecksumFits(q) && q[0] == p[0] && q[9] == p[9] && Field(q) == Field(p)
  {
  }

  lemma HeadersAgree(p: seq<byte>, q: seq<byte>)
    requires ChecksumFits(p) && ChecksumFits(q) && q[0] == p[0] && q[9] == p[9] && Agree(p, q, Field(p))
    ensures var h, g := WithHeaderChecksum(p), WithHeaderChecksum(q);
            && |h| == |g| == |p| && h[0] == g[0] == p[0] && h[9] == g[9] == p[9]
            && forall i :: 0 <= i < |h| && !(HasTransport(p) && Field(p) <= i < Field(p) + 2) ==> h[i] == g[i]
  {
    var n := HeaderLen(p);
    assert HeaderZeroed(p)[..n] == HeaderZeroed(q)[..n];
  }

  lemma SameRecalculated(p: seq<byte>, q: seq<byte>)
    requires ChecksumFits(p) && ChecksumFits(q) && q[0] == p[0] && q[9] == p[9] && Agree(p, q, Field(p))
    ensures Recalculated(p) == Recalculated(q)
  {
    HeadersAgree(p, q);
    var h, g := WithHeaderChecksum(p), WithHeaderChecksum(q);
    if HasTransport(p) {
      assert TransportZeroed(h) == TransportZeroed(g);
    } else {
      assert h == g;
    }
  }

  lemma RecalculatedAgrees(p: seq<byte>)
    requires ChecksumFits(p)
    ensures Agree(p, Recalculated(p), Field(p))
  {
  }

  lemma AddressedFits(c: seq<byte>, sender: IPv4Bytes, local: IPv4Bytes)
    requires ChecksumFits(c)
    ensures ChecksumFits(Addressed(c, sender, local))
  {
    var a := Addressed(c, sender, local);
    assert a[0] == c[0] && a[9] == c[9];
  }

  /** What the device gets for the bytes `c`. */
  ghost function Rewritten(c: seq<byte>, sender: IPv4Bytes, local: IPv4Bytes): seq<byte>
    requires ChecksumFits(c)
  {
    AddressedFits(c, sender, local);
    Recalculated(Addressed(c, sender, local))
  }

  lemma AddressedAgain(a: seq<byte>, r: seq<byte>, sender: IPv4Bytes, local: IPv4Bytes, field: nat)
    requires IsIPv4(a) && IsIPv4(r) && Agree(a, r, field) && Addressed(a, sender, local) == a
    ensures Agree(a, Addressed(r, sender, local), field)
  {
    var b := Addressed(r, sender, local);
    forall i | 0 <= i < |a| && !(HEADER_CHECKSUM_AT <= i < SRC_AT) && !(field <= i < field + 2)
      ensures a[i] == b[i]
    {
      assert SRC_AT <= i < DST_AT + 4 ==> a[i] == Addressed(a, sender, local)[i];
      SameAddresses(a, r, sender, local, i);
    }
  }

  lemma SameAddresses(a: seq<byte>, r: seq<byte>, sender: IPv4Bytes, local: IPv4Bytes, i: nat)
    requires IsIPv4(a) && IsIPv4(r) && |a| == |r| && i < |a|
    ensures var x, y := Addressed(a, sender, local), Addressed(r, sender, local);
            if SRC_AT <= i < DST_AT + 4 then x[i] == y[i] else x[i] == a[i] && y[i] == r[i]
  {
  }

  lemma AddressedTwice(c: seq<byte>, sender: IPv4Bytes, local: IPv4Bytes)
    requires IsIPv4(c) && IsIPv4(Addressed(c, sender, local))
    ensures Addressed(Addressed(c, sender, local), sender, local) == Addressed(c, sender, local)
  {
    var a := Addressed(c, sender, local);
    var b := Addressed(a, sender, local);
    forall i | 0 <= i < |a|
      ensures b[i] == a[i]
    {
      SameAddresses(c, a, sender, local, i);
    }
  }

  /** Rewriting a packet twice is rewriting it once. */
  lemma RewrittenTwice(c: seq<byte>, sender: IPv4Bytes, local: IPv4Bytes)
    requires ChecksumFits(c)
    ensures var r := Rewritten(c, sender, local); ChecksumFits(r) && Rewritten(r, sender, local) == r
  {
    AddressedFits(c, sender, local);
    var a := Addressed(c, sender, local);
    var r := Recalculated(a);
    RecalculatedAgrees(a);
    AgreeingFits(a, r);
    AddressedTwice(c, sender, local);
    AddressedAgain(a, r, sender, local, Field(a));
    var b := Addressed(r, sender, local);
    AgreeingFits(a, b);
    SameRecalculated(a, b);
  }

  // ----- The batch

  ghost predicate Writable(p: Packet)
    reads p, p.Buffer
  {
    p.Parsed() && (!p.isIPv6 ==> ChecksumFits(p.Content()))
  }

  /** A buffer belongs to one packet object. */
  ghost predicate Owned(packets: seq<Packet>) {
    forall i, j :: 0 <= i < |packets| && 0 <= j < |packets| && packets[i].Buffer == packets[j].Buffer ==>
      packets[i] == packets[j]
  }

  /** The bytes of a packet after the call, if they were `was` before. */
  ghost predicate Done(p: Packet, was: seq<byte>, sender: IPv4Bytes, local: IPv4Bytes)
    reads p, p.Buffer
  {
    && p.Valid()
    && if p.isIPv6 then p.Content() == was
       else ChecksumFits(was) && p.Content() == Rewritten(was, sender, local)
  }

  /** Occurrences of one packet object start from the same bytes. */
  ghost predicate Consistent(packets: seq<Packet>, was: seq<seq<byte>>) {
    && |packets| == |was|
    && forall i, j :: 0 <= i < |packets| && 0 <= j < |packets| && packets[i] == packets[j] ==> was[i] == was[j]
  }

  ghost predicate Pending(p: Packet, was: seq<byte>)
    reads p, p.Buffer
  {
    Writable(p) && p.Content() == was
  }

  ghost function Buffers(packets: seq<Packet>): set<array<byte>> {
    set p | p in packets :: p.Buffer
  }

  /** The packet is written; before its turn it may be as it was. */
  ghost predicate Shows(p: Packet, was: seq<byte>, sender: IPv4Bytes, local: IPv4Bytes, written: bool)
    reads p, p.Buffer
  {
    Writable(p) && ((!written && p.Content() == was) || Done(p, was, sender, local))
  }

  /** The first `i` packets are written; the others are as they were, unless they occurred before. */
  ghost predicate Progress(packets: seq<Packet>, i: nat, sender: IPv4Bytes, local: IPv4Bytes, was: seq<seq<byte>>)
    reads packets, Buffers(packets)
  {
    && i <= |packets| == |was|
    && forall j :: 0 <= j < |packets| ==> Shows(packets[j], was[j], sender, local, j < i)
  }

  /** One packet, for the first time or again. */
  method WriteOne(p: Packet, sender: IPv4Bytes, local: IPv4Bytes, ghost was: seq<byte>)
    requires Shows(p, was, sender, local, false)
    modifies p.Buffer
    ensures Shows(p, was, sender, local, true)
  {
    if !p.isIPv6 {
      ghost var c := p.Content();
      RewrittenTwice(c, sender, local);
      RewrittenTwice(was, sender, local);
      p.Rewrite(sender, local);
      assert p.Content() == Rewritten(c, sender, local);
    }
  }

  /** A packet of the batch; other objects are not touched. */
  method WriteNext(packets: seq<Packet>, i: nat, sender: IPv4Bytes, local: IPv4Bytes, ghost was: seq<seq<byte>>)
    requires i < |packets| && Owned(packets) && Consistent(packets, was) && Progress(packets, i, sender, local, was)
    modifies packets[i].Buffer
    ensures Progress(packets, i + 1, sender, local, was)
  {
    assert Shows(packets[i], was[i], sender, local, false);
    WriteOne(packets[i], sender, local, was[i]);
    forall j | 0 <= j < |packets|
      ensures Shows(packets[j], was[j], sender, local, j < i + 1)
    {
      if packets[j] != packets[i] {
        assert packets[j].Buffer != packets[i].Buffer;
        assert old(Shows(packets[j], was[j], sender, local, j < i));
      }
    }
  }

  /** The packets that go to the device, in order. */
  function ToDevice(packets: seq<Packet>): seq<Packet>
    reads packets
  {
    if packets == [] then [] else
      var n := |packets| - 1;
      ToDevice(packets[..n]) + if packets[n].isIPv6 then [] else [packets[n]]
  }

  lemma ToDeviceSnoc(packets: seq<Packet>, i: nat)
    requires i < |packets|
    ensures ToDevice(packets[..i + 1]) == ToDevice(packets[..i]) + if packets[i].isIPv6 then [] else [packets[i]]
  {
    assert packets[..i + 1][..i] == packets[..i];
  }

  /**
   * Every IPv4 packet of the batch carries its new addresses and checksums, IPv6 packets are
   * as they were, and the device gets exactly the IPv4 packets, in order; also if one packet
   * object occurs in the batch more than once.
   */
  method WritePacketsBatch(packets: seq<Packet>, sender: IPv4Bytes, local: IPv4Bytes, ghost was: seq<seq<byte>>)
    returns (bufs: seq<Packet>)
    requires Owned(packets) && |was| == |packets|
    requires forall i :: 0 <= i < |packets| ==> Pending(packets[i], was[i])
    modifies Buffers(packets)
    ensures forall i :: 0 <= i < |packets| ==> Done(packets[i], was[i], sender, local)
    ensures bufs == ToDevice(packets)
  {
    assert Consistent(packets, was);
    bufs := WriteAll(packets, sender, local, was);
  }

  method WriteAll(packets: seq<Packet>, sender: IPv4Bytes, local: IPv4Bytes, ghost was: seq<seq<byte>>)
    returns (bufs: seq<Packet>)
    requires Owned(packets) && Consistent(packets, was) && Progress(packets, 0, sender, local, was)
    modifies Buffers(packets)
    ensures Progress(packets, |packets|, sender, local, was) && bufs == ToDevice(packets)
  {
    bufs := [];
    for i := 0 to |packets|
      invariant Progress(packets, i, sender, local, was)
      invariant bufs == ToDevice(packets[..i])
    {
      assert packets[i].Buffer in Buffers(packets);
      bufs := WriteAndAppend(packets, i, sender, local, bufs, was);
    }
    assert packets[..|packets|] == packets;
  }

  method WriteAndAppend(packets: seq<Packet>, i: nat, sender: IPv4Bytes, local: IPv4Bytes, bufs: seq<Packet>,
                        ghost was: seq<seq<byte>>)
    returns (next: seq<Packet>)
    requires i < |packets| && Owned(packets) && Consistent(packets, was) && Progress(packets, i, sender, local, was)
    requires bufs == ToDevice(packets[..i])
    modifies packets[i].Buffer
    ensures Progress(packets, i + 1, sender, local, was) && next == ToDevice(packets[..i + 1])
  {
    next := if packets[i].isIPv6 then bufs else bufs + [packets[i]];
    WriteNext(packets, i, sender, local, was);
    ToDeviceSnoc(packets, i);
  }
}
