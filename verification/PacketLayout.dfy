/**
 * What rewriting does to the bytes of a packet, by the offsets of the protocols: the IPv4
 * header of section 3.1 of RFC 791, the TCP header of section 3.1 of RFC 9293 (checksum at 16)
 * and the UDP header of RFC 768 (checksum at 6).
 */
module PacketLayout {
  import opened Bytes
  import opened Checksum
  import opened Packets

  /** An IPv4 packet whose header is whole, with room for a TCP or UDP checksum. */
  predicate Whole(p: seq<byte>) {
    && 20 <= |p| < 0x1_0000 && p[0] / 16 == 4 && 20 <= p[0] % 16 * 4 <= |p|
    && (p[9] == 6 ==> p[0] % 16 * 4 + 18 <= |p|)
    && (p[9] == 17 ==> p[0] % 16 * 4 + 8 <= |p|)
  }

  lemma WholeFits(p: seq<byte>, sender: IPv4Bytes, local: IPv4Bytes)
    requires Whole(p)
    ensures ChecksumFits(p) && ChecksumFits(Addressed(p, sender, local))
    ensures HeaderLen(p) == p[0] % 16 * 4 >= IPV4_HEADER_LEN
  {
    AddressesInPlace(p, sender, local);
  }

  ghost function Rewritten(p: seq<byte>, sender: IPv4Bytes, local: IPv4Bytes): seq<byte>
    requires Whole(p)
  {
    WholeFits(p, sender, local);
    Recalculated(Addressed(p, sender, local))
  }

  /** In the header, only the checksum at 10 and the two addresses at 12 and 16 change. */
  lemma HeaderBytes(p: seq<byte>, sender: IPv4Bytes, local: IPv4Bytes)
    requires Whole(p)
    ensures var q, n := Rewritten(p, sender, local), p[0] % 16 * 4;
            && |q| == |p| && q[12..16] == sender && q[16..20] == local
            && (forall i :: 0 <= i < n && !(10 <= i < 20) ==> q[i] == p[i])
            && OnesComplement(WordSum(q[..n])) == 0xffff
  {
    WholeFits(p, sender, local);
    RewritingIsSound(p, sender, local);
  }

  /**
   * Behind the header, only the two bytes at 16 change for TCP, only the two at 6 for UDP, and
   * nothing for other protocols.
   */
  lemma SegmentBytes(p: seq<byte>, sender: IPv4Bytes, local: IPv4Bytes)
    requires Whole(p)
    ensures var q, n := Rewritten(p, sender, local), p[0] % 16 * 4;
            && |q| == |p|
            && (p[9] == 6 ==> forall i :: n <= i < |p| && i != n + 16 && i != n + 17 ==> q[i] == p[i])
            && (p[9] == 17 ==> forall i :: n <= i < |p| && i != n + 6 && i != n + 7 ==> q[i] == p[i])
            && (p[9] != 6 && p[9] != 17 ==> q[n..] == p[n..])
  {
    WholeFits(p, sender, local);
    RewritingIsSound(p, sender, local);
  }

  /** Source, destination, zero, protocol and length, then the segment, sum to 0xffff for TCP and UDP. */
  lemma SegmentSums(p: seq<byte>, sender: IPv4Bytes, local: IPv4Bytes)
    requires Whole(p) && (p[9] == 6 || p[9] == 17)
    ensures var q, n := Rewritten(p, sender, local), p[0] % 16 * 4;
            && n <= |q|
            && var length := |p| - n;
               OnesComplement(WordSum(sender + local + [0, p[9]] + [length / 256, length % 256] + q[n..])) == 0xffff
  {
    WholeFits(p, sender, local);
    RewritingIsSound(p, sender, local);
    var q, n := Rewritten(p, sender, local), p[0] % 16 * 4;
    var length := |p| - n;
    CoveredBytes(q, sender, local);
    assert q[0] == p[0] && q[9] == p[9];
  }

  lemma CoveredBytes(q: seq<byte>, sender: IPv4Bytes, local: IPv4Bytes)
    requires ChecksumFits(q) && q[12..16] == sender && q[16..20] == local
    ensures var n := q[0] % 16 * 4;
            && n <= |q|
            && Covered(q) == sender + local + [0, q[9]] + [(|q| - n) / 256, (|q| - n) % 256] + q[n..]
  {
  }
}
