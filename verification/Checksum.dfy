/**
 * The Internet checksum of vpn/packet.go (RFC 1071): the sum of big-endian 16-bit words in
 * 32-bit accumulators, folded to 16 bits with end-around carry, and complemented.
 */
module Checksum {
  import opened Bytes

  type uint16 = x: int | 0 <= x < 0x1_0000

  /** Addition on the 32-bit accumulator, with wrap-around. */
  function Add32(a: uint32, b: uint32): (c: uint32)
    ensures c == (a + b) % TWO32
  {
    if a + b < TWO32 then a + b else a + b - TWO32
  }

  /** Sum of the big-endian words of `b` over the integers; an odd last byte is a high byte. */
  function WordSum(b: seq<byte>): nat {
    if |b| == 0 then 0
    else if |b| == 1 then Word(b[0], 0)
    else Word(b[0], b[1]) + WordSum(b[2..])
  }

  /** Ones' complement value of an unbounded sum: its residue mod 65535, 0 only for 0. */
  function OnesComplement(v: nat): uint16 {
    if v == 0 then 0 else (v - 1) % 65535 + 1
  }

  function Word(hi: int, lo: int): int {
    hi * 256 + lo
  }

  function Complement(v: uint16): uint16 {
    0xffff - v
  }

  /** The checksum of a byte string by definition, without machine widths. */
  function InternetChecksum(b: seq<byte>): uint16 {
    Complement(OnesComplement(WordSum(b)))
  }

  function BigEndian16(v: uint16): seq<byte> {
    [v / 256, v % 256]
  }

  type IPv4Bytes = s: seq<byte> | |s| == 4 witness [0, 0, 0, 0]

  /** The 12-byte pseudo-header of TCP and UDP over IPv4. */
  function PseudoHeader(src: IPv4Bytes, dst: IPv4Bytes, protocol: byte, length: uint16): seq<byte> {
    src + dst + [0, protocol] + BigEndian16(length)
  }

  // ----- Arithmetic of the definition

  lemma {:induction false} WordSumConcat(a: seq<byte>, b: seq<byte>)
    requires |a| % 2 == 0
    ensures WordSum(a + b) == WordSum(a) + WordSum(b)
  {
    if a == [] {
      assert a + b == b;
    } else {
      assert (a + b)[2..] == a[2..] + b;
      WordSumConcat(a[2..], b);
    }
  }

  lemma {:induction false} WordSumBound(b: seq<byte>)
    ensures WordSum(b) <= (|b| + 1) / 2 * 65535
  {
    if |b| > 1 {
      WordSumBound(b[2..]);
    }
  }

  /** One folding step keeps the ones' complement value. */
  lemma FoldStep(v: nat)
    requires v > 0xffff
    ensures OnesComplement(v / 0x1_0000 + v % 0x1_0000) == OnesComplement(v)
  {
    var hi, lo := v / 0x1_0000, v % 0x1_0000;
    assert v - 1 == (hi + lo - 1) + 65535 * hi;
    ModShift(hi + lo - 1, hi);
  }

  lemma {:induction false} ModShift(a: nat, k: nat)
    ensures (a + 65535 * k) % 65535 == a % 65535
  {
    if k > 0 {
      ModShift(a, k - 1);
      assert a + 65535 * k == (a + 65535 * (k - 1)) + 65535;
    }
  }

  /** Filling in the complement makes the whole sum all ones. */
  lemma ComplementCompletes(v: nat)
    ensures OnesComplement(v + Complement(OnesComplement(v))) == 0xffff
  {
    if v > 0 {
      var q := (v - 1) / 65535;
      assert v - 1 == q * 65535 + (v - 1) % 65535;
      ModShift(65534, q);
    }
  }

  /**
   * Writing the checksum of `b` with its field zero into that field, at any even offset,
   * makes the string sum to 0xffff.
   */
  lemma FilledFieldSums(b: seq<byte>, off: nat, c: uint16)
    requires off % 2 == 0 && off + 2 <= |b|
    requires b[off] == 0 && b[off + 1] == 0
    requires c == InternetChecksum(b)
    ensures OnesComplement(WordSum(b[..off] + BigEndian16(c) + b[off + 2..])) == 0xffff
  {
    var w := BigEndian16(c);
    assert Word(w[0], w[1]) == c;
    FieldAddsItsValue(b, off, w);
    ComplementCompletes(WordSum(b));
  }

  lemma FieldAddsItsValue(b: seq<byte>, off: nat, w: seq<byte>)
    requires off % 2 == 0 && off + 2 <= |b| && |w| == 2
    requires b[off] == 0 && b[off + 1] == 0
    ensures WordSum(b[..off] + w + b[off + 2..]) == WordSum(b) + Word(w[0], w[1])
  {
    var a, z, t := b[..off], b[off..off + 2], b[off + 2..];
    assert WordSum(b) == WordSum(a) + WordSum(t) by {
      assert b == a + z + t;
      WordSumThree(a, z, t);
    }
    WordSumThree(a, w, t);
  }

  lemma WordSumThree(a: seq<byte>, w: seq<byte>, t: seq<byte>)
    requires |a| % 2 == 0 && |w| == 2
    ensures WordSum(a + w + t) == WordSum(a) + Word(w[0], w[1]) + WordSum(t)
  {
    WordSumConcat(a + w, t);
    assert WordSum(a + w) == WordSum(a) + Word(w[0], w[1]) by {
      WordSumConcat(a, w);
      assert w[2..] == [];
    }
  }

  /** The pseudo-header contributes what the code adds up by hand. */
  lemma PseudoHeaderSum(src: IPv4Bytes, dst: IPv4Bytes, protocol: byte, length: uint16)
    ensures WordSum(PseudoHeader(src, dst, protocol, length))
         == (src[0] + src[2]) * 256 + (src[1] + src[3]) + (dst[0] + dst[2]) * 256 + (dst[1] + dst[3])
            + protocol + length
  {
    var h := PseudoHeader(src, dst, protocol, length);
    assert WordSum(h[10..]) == length;
    assert WordSum(h[8..]) == protocol + length by { assert h[8..][2..] == h[10..]; }
    assert WordSum(h[6..]) == dst[2] * 256 + dst[3] + protocol + length by { assert h[6..][2..] == h[8..]; }
    assert WordSum(h[4..]) == dst[0] * 256 + dst[1] + WordSum(h[6..]) by { assert h[4..][2..] == h[6..]; }
    assert WordSum(h[2..]) == src[2] * 256 + src[3] + WordSum(h[4..]) by { assert h[2..][2..] == h[4..]; }
  }

  /** A sum that is `v` plus a whole number of wraps is `v` once reduced. */
  lemma Unwrap(v: uint32, wraps: nat, sum: nat)
    requires v + wraps * TWO32 == sum
    ensures v == sum % TWO32
    ensures sum < TWO32 ==> v == sum
  {
  }

  /** The ones' complement value of a sum is congruent to it modulo 65535, and 0 only for 0. */
  lemma ResidueOf(v: nat)
    ensures OnesComplement(v) % 65535 == v % 65535 && (OnesComplement(v) == 0 <==> v == 0)
  {
    if v > 0 {
      var q := (v - 1) / 65535;
      assert v == (OnesComplement(v) as nat) + 65535 * q;
      ModShift(OnesComplement(v), q);
    }
  }

  /** The weight of the byte at index `i`: bytes at even places are high bytes. */
  function Weighted(b: seq<byte>, i: nat): nat
    requires i < |b|
  {
    if i % 2 == 0 then b[i] as int * 256 else b[i]
  }

  function WeightedSum(b: seq<byte>): nat {
    if b == [] then 0 else WeightedSum(b[..|b| - 1]) + Weighted(b, |b| - 1)
  }

  /** The sum of words is the weighted sum of the bytes, from whichever end it is taken. */
  lemma {:induction false} WordSumIsWeighted(b: seq<byte>)
    ensures WordSum(b) == WeightedSum(b)
  {
    if b != [] {
      var n := |b| - 1;
      WordSumIsWeighted(b[..n]);
      if n % 2 == 0 {
        WordSumOdd(b);
      } else {
        WordSumSnoc(b, n - 1);
        WordSumOdd(b[..n]);
        assert b[..n + 1] == b && b[..n][..n - 1] == b[..n - 1];
      }
    }
  }

  // ----- The code

  /** The folding loop; it ends at the residue mod 65535 that is 0 only for a zero input. */
  method Fold(v: uint32) returns (r: uint16)
    ensures r == OnesComplement(v)
    ensures r % 65535 == v % 65535 && (r == 0 <==> v == 0)
  {
    var csum: uint32 := v;
    while csum > 0xffff
      invariant OnesComplement(csum) == OnesComplement(v)
      decreases csum
    {
      FoldStep(csum);
      csum := Add32(csum / 0x1_0000, csum % 0x1_0000);
    }
    r := csum;
    ResidueOf(v);
  }

  /** `csum` is what a wrapping accumulator holds once it has added up `sum`. */
  ghost predicate Wraps(csum: uint32, sum: nat) {
    exists wraps: nat :: csum + wraps * TWO32 == sum
  }

  lemma WrapsAdd(csum: uint32, sum: nat, v: uint32)
    requires Wraps(csum, sum)
    ensures Wraps(Add32(csum, v), sum + v)
  {
    var wraps: nat :| csum + wraps * TWO32 == sum;
    var k: nat := if csum + v < TWO32 then wraps else wraps + 1;
    assert Add32(csum, v) + k * TWO32 == sum + v;
  }

  lemma WrapsMod(csum: uint32, sum: nat)
    requires Wraps(csum, sum)
    ensures csum == sum % TWO32
    ensures sum < TWO32 ==> csum == sum
  {
    var wraps: nat :| csum + wraps * TWO32 == sum;
    Unwrap(csum, wraps, sum);
  }

  /** Fewer than 65536 bytes on top of a partial sum below 2^31 never overflow 32 bits. */
  lemma NoOverflow(data: seq<byte>, initial: nat)
    requires |data| < 0x1_0000 && initial < 0x8000_0000
    ensures initial + WordSum(data) < TWO32
    ensures (initial + WordSum(data)) % TWO32 == initial + WordSum(data)
  {
    WordSumBound(data);
  }

  /** Two more bytes: the code adds them one by one. */
  lemma WrapsTwoBytes(csum: uint32, initial: uint32, data: seq<byte>, i: nat)
    requires i % 2 == 0 && i + 2 <= |data| && Wraps(csum, initial + WordSum(data[..i]))
    ensures Wraps(Add32(Add32(csum, Word(data[i], 0)), data[i + 1]), initial + WordSum(data[..i + 2]))
  {
    var sum, hi := initial + WordSum(data[..i]), Word(data[i], 0);
    WordSumSnoc(data, i);
    WrapsAdd(csum, sum, hi);
    WrapsAdd(Add32(csum, hi), sum + hi, data[i + 1]);
  }

  lemma WrapsNothing(csum: uint32)
    ensures Wraps(csum, csum)
  {
    assert csum + 0 * TWO32 == csum;
  }

  /** The generic loop; the accumulator wraps at 32 bits. */
  method TcpipChecksum(data: seq<byte>, initial: uint32) returns (r: uint16)
    ensures r == Complement(OnesComplement((initial + WordSum(data)) % TWO32))
  {
    var csum: uint32 := AddWords(data, initial);
    var length := |data| - 1;
    if |data| % 2 == 1 {
      WordSumOdd(data);
      WrapsAdd(csum, initial + WordSum(data[..length]), Word(data[length], 0));
      csum := Add32(csum, Word(data[length], 0));
    } else {
      assert data[..|data|] == data;
    }
    WrapsMod(csum, initial + WordSum(data));
    r := Fold(csum);
    r := Complement(r);
  }

  /** Its loop over the whole words. */
  method AddWords(data: seq<byte>, initial: uint32) returns (csum: uint32)
    ensures Wraps(csum, initial + WordSum(data[..|data| - |data| % 2]))
  {
    csum := initial;
    var length := |data| - 1;
    var i := 0;
    WrapsNothing(csum);
    while i < length
      invariant 0 <= i <= |data| && i % 2 == 0
      invariant Wraps(csum, initial + WordSum(data[..i]))
    {
      WrapsTwoBytes(csum, initial, data, i);
      csum := Add32(csum, Word(data[i], 0));
      csum := Add32(csum, data[i + 1]);
      i := i + 2;
    }
  }

  /** The header loop computes the checksum by definition, for every length below 65536. */
  method ChecksumIPv4Header(buf: seq<byte>) returns (r: uint16)
    ensures r == Complement(OnesComplement(WordSum(buf) % TWO32))
    ensures |buf| < 0x1_0000 ==> r == InternetChecksum(buf)
  {
    var v: uint32 := 0;
    var i := 0;
    assert buf[..0] == [] && Wraps(v, 0) by {
      assert v + 0 * TWO32 == 0;
    }
    while i < |buf| - 1
      invariant 0 <= i <= |buf| && i % 2 == 0
      invariant Wraps(v, WordSum(buf[..i]))
    {
      WordSumSnoc(buf, i);
      WrapsAdd(v, WordSum(buf[..i]), Word(buf[i], buf[i + 1]));
      v := Add32(v, Word(buf[i], buf[i + 1]));
      i := i + 2;
    }
    if |buf| % 2 == 1 {
      WordSumOdd(buf);
      WrapsAdd(v, WordSum(buf[..i]), Word(buf[|buf| - 1], 0));
      v := Add32(v, Word(buf[|buf| - 1], 0));
    } else {
      assert buf[..i] == buf;
    }
    WrapsMod(v, WordSum(buf));
    if |buf| < 0x1_0000 {
      NoOverflow(buf, 0);
    }
    r := Fold(v);
    r := Complement(r);
  }

  lemma WordSumSnoc(b: seq<byte>, i: nat)
    requires i % 2 == 0 && i + 2 <= |b|
    ensures WordSum(b[..i + 2]) == WordSum(b[..i]) + Word(b[i], b[i + 1])
  {
    assert b[..i + 2] == b[..i] + b[i..i + 2];
    WordSumConcat(b[..i], b[i..i + 2]);
    assert b[i..i + 2][2..] == [];
  }

  lemma WordSumOdd(b: seq<byte>)
    requires |b| % 2 == 1
    ensures WordSum(b) == WordSum(b[..|b| - 1]) + Word(b[|b| - 1], 0)
  {
    assert b == b[..|b| - 1] + [b[|b| - 1]];
    WordSumConcat(b[..|b| - 1], [b[|b| - 1]]);
  }

  /** Equals the checksum of the explicit pseudo-header followed by the segment. */
  method ChecksumIPv4TCPUDP(segment: seq<byte>, protocol: byte, src: IPv4Bytes, dst: IPv4Bytes)
    returns (r: uint16)
    requires |segment| < 0x1_0000
    ensures r == InternetChecksum(PseudoHeader(src, dst, protocol, |segment|) + segment)
  {
    var csum := PseudoSum(protocol, src, dst, |segment|);
    WordSumConcat(PseudoHeader(src, dst, protocol, |segment|), segment);
    NoOverflow(segment, csum);
    r := TcpipChecksum(segment, csum);
  }

  /** The pseudo-header, added up by hand. */
  method PseudoSum(protocol: byte, src: IPv4Bytes, dst: IPv4Bytes, totalLen: uint16) returns (csum: uint32)
    ensures csum == WordSum(PseudoHeader(src, dst, protocol, totalLen)) && csum < 0x8000_0000
  {
    csum := 0;
    csum := Add32(csum, Word(src[0] as int + src[2] as int, 0));
    csum := Add32(csum, src[1] as int + src[3] as int);
    csum := Add32(csum, Word(dst[0] as int + dst[2] as int, 0));
    csum := Add32(csum, dst[1] as int + dst[3] as int);
    csum := Add32(csum, protocol);
    csum := Add32(csum, totalLen % 0x1_0000);
    csum := Add32(csum, totalLen / 0x1_0000);
    PseudoHeaderSum(src, dst, protocol, totalLen);
  }
}
