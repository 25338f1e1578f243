/**
 * Pooled packets of vpn/packet.go and what vpn/vpn.go does to an inbound packet before it
 * reaches the TUN device: put the peer's virtual address in the source field and the local
 * one in the destination field, and recompute both checksums, in place.
 */
module Packets {
  import opened Bytes
  import opened Checksum

  const INTERFACE_MTU := 3500
  const MAX_CONTENT_SIZE := INTERFACE_MTU + 100
  const TUN_PACKET_OFFSET := 14

  const TCP: byte := 6
  const UDP: byte := 17
  const IPV4_HEADER_LEN := 20
  const IPV6_HEADER_LEN := 40
  const HEADER_CHECKSUM_AT := 10
  const SRC_AT := 12
  const DST_AT := 16

  // ----- Packets as byte strings

  function Version(p: seq<byte>): nat
    requires p != []
  {
    p[0] / 16
  }

  predicate IsIPv4(p: seq<byte>) {
    |p| >= IPV4_HEADER_LEN && Version(p) == 4
  }

  predicate IsIPv6(p: seq<byte>) {
    |p| >= IPV6_HEADER_LEN && Version(p) == 6
  }

  function HeaderLen(p: seq<byte>): nat
    requires p != []
  {
    p[0] % 16 * 4
  }

  /** Offset of the checksum field inside a TCP or UDP segment; 0 for other protocols. */
  function TransportFieldAt(protocol: byte): nat {
    if protocol == TCP then 16 else if protocol == UDP then 6 else 0
  }

  predicate HasTransport(p: seq<byte>)
    requires IsIPv4(p)
  {
    p[9] == TCP || p[9] == UDP
  }

  /** Every index that the checksum code touches lies inside the packet. */
  predicate ChecksumFits(p: seq<byte>) {
    && IsIPv4(p)
    && |p| < 0x1_0000
    && HeaderLen(p) <= |p|
    && (HasTransport(p) ==> HeaderLen(p) + TransportFieldAt(p[9]) + 2 <= |p|)
  }

  function Put(p: seq<byte>, off: nat, w: seq<byte>): (q: seq<byte>)
    requires off + |w| <= |p|
    ensures |q| == |p|
    ensures forall i :: 0 <= i < |p| && !(off <= i < off + |w|) ==> q[i] == p[i]
    ensures q[off..off + |w|] == w
  {
    p[..off] + w + p[off + |w|..]
  }

  function Addressed(p: seq<byte>, sender: IPv4Bytes, local: IPv4Bytes): seq<byte>
    requires IsIPv4(p)
  {
    Put(Put(p, SRC_AT, sender), DST_AT, local)
  }

  function HeaderZeroed(p: seq<byte>): seq<byte>
    requires ChecksumFits(p)
  {
    Put(p, HEADER_CHECKSUM_AT, [0, 0])
  }

  function WithHeaderChecksum(p: seq<byte>): (q: seq<byte>)
    requires ChecksumFits(p)
  {
    var z := HeaderZeroed(p);
    Put(z, HEADER_CHECKSUM_AT, BigEndian16(InternetChecksum(z[..HeaderLen(p)])))
  }

  /** The bytes a transport checksum covers: pseudo-header, then segment. */
  function Covered(p: seq<byte>): seq<byte>
    requires ChecksumFits(p)
  {
    PseudoHeader(p[SRC_AT..DST_AT], p[DST_AT..DST_AT + 4], p[9], |p| - HeaderLen(p)) + p[HeaderLen(p)..]
  }

  function FieldAt(p: seq<byte>): nat
    requires ChecksumFits(p)
  {
    HeaderLen(p) + TransportFieldAt(p[9])
  }

  function TransportZeroed(p: seq<byte>): (z: seq<byte>)
    requires ChecksumFits(p) && HasTransport(p)
  {
    Put(p, FieldAt(p), [0, 0])
  }

  function WithTransportChecksum(p: seq<byte>): (q: seq<byte>)
    requires ChecksumFits(p)
  {
    if HasTransport(p)
    then Put(TransportZeroed(p), FieldAt(p), BigEndian16(InternetChecksum(Covered(TransportZeroed(p)))))
    else p
  }

  /** What `RecalculateChecksum` does to an IPv4 packet. */
  function Recalculated(p: seq<byte>): (q: seq<byte>)
    requires ChecksumFits(p)
  {
    WithTransportChecksum(WithHeaderChecksum(p))
  }

  // ----- What the rewriting promises

  ghost predicate HeaderSumsToOnes(p: seq<byte>)
    requires ChecksumFits(p)
  {
    OnesComplement(WordSum(p[..HeaderLen(p)])) == 0xffff
  }

  ghost predicate TransportSumsToOnes(p: seq<byte>)
    requires ChecksumFits(p)
  {
    OnesComplement(WordSum(Covered(p))) == 0xffff
  }

  lemma HeaderChecksumHolds(p: seq<byte>)
    requires ChecksumFits(p) && HeaderLen(p) >= IPV4_HEADER_LEN
    ensures HeaderSumsToOnes(WithHeaderChecksum(p))
  {
    var z, n, q := HeaderZeroed(p), HeaderLen(p), WithHeaderChecksum(p);
    var c := InternetChecksum(z[..n]);
    var off := HEADER_CHECKSUM_AT;
    assert z[off..off + 2] == [0, 0];
    assert z[off] == 0 && z[off + 1] == 0;
    FilledFieldSums(z[..n], off, c);
    assert q[..n] == z[..n][..off] + BigEndian16(c) + z[..n][off + 2..];
  }

  lemma TransportChecksumHolds(p: seq<byte>)
    requires ChecksumFits(p) && HeaderLen(p) >= IPV4_HEADER_LEN && HasTransport(p)
    ensures TransportSumsToOnes(WithTransportChecksum(p))
  {
    var z := TransportZeroed(p);
    CoveredZero(p);
    FilledFieldSums(Covered(z), 12 + TransportFieldAt(p[9]), InternetChecksum(Covered(z)));
    CoveredPut(z, InternetChecksum(Covered(z)));
  }

  /** Among the covered bytes, the zeroed field sits behind the pseudo-header. */
  lemma CoveredZero(p: seq<byte>)
    requires ChecksumFits(p) && HeaderLen(p) >= IPV4_HEADER_LEN && HasTransport(p)
    ensures var z, off := TransportZeroed(p), 12 + TransportFieldAt(p[9]);
            && ChecksumFits(z) && HeaderLen(z) == HeaderLen(p) && HasTransport(z) && FieldAt(z) == FieldAt(p)
            && off + 2 <= |Covered(z)| && Covered(z)[off] == 0 && Covered(z)[off + 1] == 0
  {
    var z, at := TransportZeroed(p), FieldAt(p);
    assert z[at..at + 2] == [0, 0];
    assert z[at] == 0 && z[at + 1] == 0;
  }

  lemma CoveredPut(z: seq<byte>, c: uint16)
    requires ChecksumFits(z) && HeaderLen(z) >= IPV4_HEADER_LEN && HasTransport(z)
    ensures var off := 12 + TransportFieldAt(z[9]);
            Covered(Put(z, FieldAt(z), BigEndian16(c)))
            == Covered(z)[..off] + BigEndian16(c) + Covered(z)[off + 2..]
  {
    var q, n := Put(z, FieldAt(z), BigEndian16(c)), HeaderLen(z);
    assert q[SRC_AT..DST_AT] == z[SRC_AT..DST_AT] && q[DST_AT..DST_AT + 4] == z[DST_AT..DST_AT + 4];
    var t := TransportFieldAt(z[9]);
    assert q[n..] == z[n..][..t] + BigEndian16(c) + z[n..][t + 2..];
  }

  /** Index `i` belongs to an address or to a checksum. */
  predicate Rewritable(p: seq<byte>, i: nat)
    requires ChecksumFits(p)
  {
    || HEADER_CHECKSUM_AT <= i < DST_AT + 4
    || (HasTransport(p) && FieldAt(p) <= i < FieldAt(p) + 2)
  }

  lemma AddressesInPlace(p: seq<byte>, sender: IPv4Bytes, local: IPv4Bytes)
    requires ChecksumFits(p) && HeaderLen(p) >= IPV4_HEADER_LEN
    ensures var a := Addressed(p, sender, local);
            && ChecksumFits(a) && HeaderLen(a) == HeaderLen(p) && a[9] == p[9]
            && a[SRC_AT..DST_AT] == sender && a[DST_AT..DST_AT + 4] == local
  {
    var a := Addressed(p, sender, local);
    assert a[SRC_AT..DST_AT] == Put(p, SRC_AT, sender)[SRC_AT..DST_AT];
  }

  /** The transport checksum lies behind the header. */
  lemma HeaderStays(h: seq<byte>)
    requires ChecksumFits(h) && HeaderLen(h) >= IPV4_HEADER_LEN
    ensures var q := WithTransportChecksum(h);
            && q[..HeaderLen(h)] == h[..HeaderLen(h)]
            && q[SRC_AT..DST_AT] == h[SRC_AT..DST_AT] && q[DST_AT..DST_AT + 4] == h[DST_AT..DST_AT + 4]
  {
  }

  /**
   * For every IPv4 packet with a whole header and room for its checksums: the rewritten
   * packet carries the two addresses, its header sums to 0xffff, pseudo-header plus segment
   * sums to 0xffff for TCP and UDP, and every byte outside those fields is untouched.
   */
  lemma RewritingIsSound(p: seq<byte>, sender: IPv4Bytes, local: IPv4Bytes)
    requires ChecksumFits(p) && HeaderLen(p) >= IPV4_HEADER_LEN
    ensures ChecksumFits(Addressed(p, sender, local))
    ensures var q := Recalculated(Addressed(p, sender, local));
            && ChecksumFits(q)
            && q[SRC_AT..DST_AT] == sender && q[DST_AT..DST_AT + 4] == local
            && HeaderSumsToOnes(q)
            && (HasTransport(p) ==> TransportSumsToOnes(q))
            && |q| == |p| && forall i :: 0 <= i < |p| && !Rewritable(p, i) ==> q[i] == p[i]
  {
    AddressesInPlace(p, sender, local);
    var a := Addressed(p, sender, local);
    HeaderChecksumHolds(a);
    var h := WithHeaderChecksum(a);
    assert h[SRC_AT..DST_AT] == sender && h[DST_AT..DST_AT + 4] == local;
    if HasTransport(p) {
      TransportChecksumHolds(h);
      HeaderStays(h);
    }
  }

  // ----- The code

  /** A slice of a packet's own buffer, as kept in its Src and Dst fields. */
  datatype Slice = Nil | Slice(off: nat, len: nat)

  class Packet {
    const Buffer: array<byte>
    var len: nat            // the Packet field is Buffer[14 .. 14 + len]
    var Src: Slice
    var Dst: Slice
    var isIPv6: bool
    var IPProtocol: byte

    constructor ()
      ensures Valid() && fresh(Buffer) && len == 0
    {
      Buffer := new byte[MAX_CONTENT_SIZE];
      len, Src, Dst, isIPv6, IPProtocol := 0, Nil, Nil, false, 0;
    }

    ghost predicate Valid()
      reads this
    {
      Buffer.Length == MAX_CONTENT_SIZE && TUN_PACKET_OFFSET + len <= Buffer.Length
    }

    /** The bytes of the Packet field. */
    function Content(): seq<byte>
      requires Valid()
      reads this, Buffer
    {
      Buffer[TUN_PACKET_OFFSET..TUN_PACKET_OFFSET + len]
    }

    /** The bytes of the buffer that are not part of the packet. */
    function Outside(): seq<byte>
      requires Valid()
      reads this, Buffer
    {
      Buffer[..TUN_PACKET_OFFSET] + Buffer[TUN_PACKET_OFFSET + len..]
    }

    /** The fields agree with the bytes, as after a successful `Parse`. */
    ghost predicate Parsed()
      reads this, Buffer
    {
      && Valid()
      && (if isIPv6 then IsIPv6(Content()) else IsIPv4(Content()))
      && (!isIPv6 ==> Src == Slice(TUN_PACKET_OFFSET + SRC_AT, 4) && Dst == Slice(TUN_PACKET_OFFSET + DST_AT, 4))
    }

    method Parse() returns (ok: bool)
      requires Valid()
      modifies this
      ensures Valid() && len == old(len) && Content() == old(Content())
      ensures var p := Content(); ok <==> (|p| >= 20 && p[0] / 16 == 4) || (|p| >= 40 && p[0] / 16 == 6)
      ensures ok ==> Parsed() && isIPv6 == (Content()[0] / 16 == 6)
      ensures ok && !isIPv6 ==> Src == Slice(14 + 12, 4) && Dst == Slice(14 + 16, 4) && IPProtocol == Content()[9]
      ensures ok && isIPv6 ==> Src == Slice(14 + 8, 16) && Dst == Slice(14 + 24, 16)
    {
      if len == 0 {
        return false;
      }
      var version := Buffer[TUN_PACKET_OFFSET] / 16;
      if version == 4 {
        if len < IPV4_HEADER_LEN {
          return false;
        }
        Src := Slice(TUN_PACKET_OFFSET + SRC_AT, 4);
        Dst := Slice(TUN_PACKET_OFFSET + DST_AT, 4);
        isIPv6 := false;
        IPProtocol := Buffer[TUN_PACKET_OFFSET + 9];
      } else if version == 6 {
        if len < IPV6_HEADER_LEN {
          return false;
        }
        Src := Slice(TUN_PACKET_OFFSET + 8, 16);
        Dst := Slice(TUN_PACKET_OFFSET + 24, 16);
        isIPv6 := true;
      } else {
        return false;
      }
      return true;
    }

    /** Overwrites part of the packet, inside its buffer. */
    method PutBytes(at: nat, w: seq<byte>)
      requires Valid() && at + |w| <= len
      modifies Buffer
      ensures Content() == Put(old(Content()), at, w)
      ensures Outside() == old(Outside())
    {
      var from := TUN_PACKET_OFFSET + at;
      forall i | 0 <= i < |w| {
        Buffer[from + i] := w[i];
      }
      ghost var p, q := old(Content()), Content();
      forall i | 0 <= i < len
        ensures q[i] == Put(p, at, w)[i]
      {
        assert q[i] == Buffer[TUN_PACKET_OFFSET + i] && p[i] == old(Buffer[TUN_PACKET_OFFSET + i]);
      }
      assert q == Put(p, at, w);
      assert Buffer[..TUN_PACKET_OFFSET] == old(Buffer[..TUN_PACKET_OFFSET]);
      assert Buffer[TUN_PACKET_OFFSET + len..] == old(Buffer[TUN_PACKET_OFFSET + len..]);
    }

    method RecalculateChecksum()
      requires Parsed()
      requires !isIPv6 ==> ChecksumFits(Content())
      modifies Buffer
      ensures Content() == if isIPv6 then old(Content()) else Recalculated(old(Content()))
      ensures Outside() == old(Outside())
    {
      if !isIPv6 {
        ghost var p := Content();
        var ipHeaderLen := Buffer[TUN_PACKET_OFFSET] % 16 * 4;
        PutBytes(HEADER_CHECKSUM_AT, [0, 0]);
        assert Content() == HeaderZeroed(p);
        var ipChecksum := ChecksumIPv4Header(Content()[..ipHeaderLen]);
        PutBytes(HEADER_CHECKSUM_AT, BigEndian16(ipChecksum));
        assert Content() == WithHeaderChecksum(p);
        var protocol := Buffer[TUN_PACKET_OFFSET + 9];
        if protocol == TCP {
          RecalculateTransport(protocol, ipHeaderLen + 16);
        } else if protocol == UDP {
          RecalculateTransport(protocol, ipHeaderLen + 6);
        }
      }
    }

    method RecalculateTransport(protocol: byte, field: nat)
      requires Parsed() && !isIPv6 && ChecksumFits(Content()) && HasTransport(Content())
      requires protocol == Content()[9] && field == FieldAt(Content())
      modifies Buffer
      ensures Content() == WithTransportChecksum(old(Content()))
      ensures Outside() == old(Outside())
    {
      PutBytes(field, [0, 0]);
      var checksum := TransportChecksum(protocol);
      PutBytes(field, BigEndian16(checksum));
    }

    method TransportChecksum(protocol: byte) returns (c: uint16)
      requires Parsed() && !isIPv6 && ChecksumFits(Content()) && protocol == Content()[9]
      ensures c == InternetChecksum(Covered(Content()))
    {
      var p := Content();
      var src := ReadSlice(Src);
      var dst := ReadSlice(Dst);
      c := ChecksumIPv4TCPUDP(p[HeaderLen(p)..], protocol, src, dst);
    }

    method ReadSlice(s: Slice) returns (b: seq<byte>)
      requires Valid() && s.Slice? && TUN_PACKET_OFFSET <= s.off && s.off + s.len <= TUN_PACKET_OFFSET + len
      ensures b == Content()[s.off - TUN_PACKET_OFFSET..s.off + s.len - TUN_PACKET_OFFSET]
    {
      b := Buffer[s.off..s.off + s.len];
      ghost var k := s.off - TUN_PACKET_OFFSET;
      SliceOfSlice(Buffer[..], TUN_PACKET_OFFSET, TUN_PACKET_OFFSET + len, k, k + s.len);
    }

    /** The addresses of an inbound packet, then its checksums. */
    method Rewrite(sender: IPv4Bytes, local: IPv4Bytes)
      requires Parsed() && !isIPv6 && ChecksumFits(Content())
      modifies Buffer
      ensures ChecksumFits(Addressed(old(Content()), sender, local))
      ensures Content() == Recalculated(Addressed(old(Content()), sender, local))
      ensures Outside() == old(Outside())
    {
      PutBytes(Src.off - TUN_PACKET_OFFSET, sender);
      PutBytes(Dst.off - TUN_PACKET_OFFSET, local);
      RecalculateChecksum();
    }
  }
}
