/**
 * The VPN subnet as an interval of addresses: membership by masking (config/network_addr.go)
 * and the broadcast address (vpn/packet.go).
 */
module Addressing {
  import opened Bits
  import opened Bytes

  lemma Pow2At32()
    ensures Pow2(32) == TWO32
  {
    assert Pow2(8) == 256 by { assert Pow2(4) == 16; }
    assert Pow2(16) == 0x1_0000 by { assert Pow2(12) == 0x1000; }
    assert Pow2(24) == 0x100_0000 by { assert Pow2(20) == 0x10_0000; }
    assert Pow2(28) == 0x1000_0000;
  }

  // ----- The subnet

  /** The interface address with its mask, as in "10.66.0.1/24". */
  datatype Subnet = Subnet(local: uint32, prefix: nat) {
    function Hosts(): nat
      requires prefix <= 32
    {
      Pow2(32 - prefix)
    }

    function Network(): int
      requires prefix <= 32
    {
      local - local % Hosts()
    }

    function Broadcast(): int
      requires prefix <= 32
    {
      Network() + Hosts() - 1
    }

    predicate Contains(a: int)
      requires prefix <= 32
    {
      Network() <= a <= Broadcast()
    }
  }

  type Net = n: Subnet | n.prefix <= 32 witness Subnet(0, 0)

  lemma LocalIsInside(net: Net)
    ensures net.Contains(net.local) && 0 <= net.Network() && net.Broadcast() < TWO32
  {
    ModBounds(net.local, net.Hosts());
    BroadcastIsLast(net);
    ValBound(OrNot(ToBits(net.local, 32), MaskOf(net.prefix)));
    Pow2At32();
  }

  lemma ModBounds(x: nat, h: nat)
    requires h > 0
    ensures 0 <= x - x % h <= x < x - x % h + h
  {
    assert x == x / h * h + x % h;
  }

  // ----- Masks

  function MaskOf(prefix: nat): (m: seq<bool>)
    ensures |m| == 32
  {
    seq(32, i => i < prefix)
  }

  function And(x: seq<bool>, m: seq<bool>): (r: seq<bool>)
    requires |x| == |m|
    ensures |r| == |x|
  {
    seq(|x|, i requires 0 <= i < |x| => x[i] && m[i])
  }

  /** `x | ^m` */
  function OrNot(x: seq<bool>, m: seq<bool>): (r: seq<bool>)
    requires |x| == |m|
    ensures |r| == |x|
  {
    seq(|x|, i requires 0 <= i < |x| => x[i] || !m[i])
  }

  /** net.IPNet.Contains: equal masked addresses are exactly the interval of the subnet. */
  lemma ContainsIsMasking(net: Net, a: uint32)
    ensures net.Contains(a) <==>
              And(ToBits(a, 32), MaskOf(net.prefix)) == And(ToBits(net.local, 32), MaskOf(net.prefix))
  {
    var s, t, p := ToBits(a, 32), ToBits(net.local, 32), net.prefix;
    BlockOfPrefix(a, p);
    BlockOfPrefix(net.local, p);
    SameBlock(a, net.local, net.Hosts());
    SamePrefix(s, t, p);
    PrefixFromValue(s[..p], t[..p], net.Hosts());
  }

  /** The prefix bits of an address determine the start of its block. */
  lemma BlockOfPrefix(a: uint32, p: nat)
    requires p <= 32
    ensures a - a % Pow2(32 - p) == Val(ToBits(a, 32)[..p]) * Pow2(32 - p)
  {
    Pow2At32();
    ValToBits(a, 32);
    LowBits(ToBits(a, 32), p);
  }

  lemma SamePrefix(s: seq<bool>, t: seq<bool>, p: nat)
    requires |s| == |t| == 32 && p <= 32
    ensures And(s, MaskOf(p)) == And(t, MaskOf(p)) <==> s[..p] == t[..p]
  {
    var m := MaskOf(p);
    if And(s, m) == And(t, m) {
      forall i | 0 <= i < p
        ensures s[i] == t[i]
      {
        assert And(s, m)[i] == s[i] && And(t, m)[i] == t[i];
      }
    }
    if s[..p] == t[..p] {
      forall i | 0 <= i < 32
        ensures And(s, m)[i] == And(t, m)[i]
      {
        assert i < p ==> s[i] == s[..p][i] && t[i] == t[..p][i];
      }
    }
  }

  lemma PrefixFromValue(a: seq<bool>, b: seq<bool>, h: nat)
    requires |a| == |b| && h > 0
    ensures Val(a) * h == Val(b) * h <==> a == b
  {
    ToBitsVal(a);
    ToBitsVal(b);
    if Val(a) < Val(b) {
      MulLess(h, Val(a), Val(b));
    } else if Val(b) < Val(a) {
      MulLess(h, Val(b), Val(a));
    }
  }

  /** Two numbers round down to the same multiple of `h` iff one lies in the block of the other. */
  lemma SameBlock(a: nat, b: nat, h: nat)
    requires h > 0
    ensures a - a % h == b - b % h <==> b - b % h <= a < b - b % h + h
  {
    if b - b % h <= a < b - b % h + h {
      assert b - b % h == b / h * h;
      ModUnique(a, h, b / h, a - b / h * h);
    }
  }

  lemma BroadcastIsLast(net: Net)
    ensures Val(OrNot(ToBits(net.local, 32), MaskOf(net.prefix))) == net.Broadcast()
  {
    var s, p := ToBits(net.local, 32), net.prefix;
    var r := OrNot(s, MaskOf(p));
    Pow2At32();
    ValToBits(net.local, 32);
    LowBits(s, p);
    OrNotSplits(s, p);
    ValConcat(r[..p], r[p..]);
    ValOnes(r[p..]);
  }

  lemma OrNotSplits(s: seq<bool>, p: nat)
    requires |s| == 32 && p <= 32
    ensures var r := OrNot(s, MaskOf(p));
            r == r[..p] + r[p..] && r[..p] == s[..p] && forall i :: 0 <= i < |r[p..]| ==> r[p..][i]
  {
  }

  lemma OrNotSlice(x: seq<bool>, m: seq<bool>, i: nat, j: nat)
    requires i <= j <= |x| == |m|
    ensures OrNot(x[i..j], m[i..j]) == OrNot(x, m)[i..j]
    ensures OrNot(x, m)[..i] + OrNot(x, m)[i..j] == OrNot(x, m)[..j]
  {
  }

  /** The loop over the four octets of an address; its result is the last of the subnet. */
  method GetIPv4BroadcastAddress(net: Net) returns (ip: seq<bool>)
    ensures |ip| == 32 && Val(ip) == net.Broadcast()
  {
    var addr, mask := ToBits(net.local, 32), MaskOf(net.prefix);
    ip := [];
    for octet := 0 to 4
      invariant ip == OrNot(addr, mask)[..8 * octet]
    {
      OrNotSlice(addr, mask, 8 * octet, 8 * octet + 8);
      ip := ip + OrNot(addr[8 * octet..8 * octet + 8], mask[8 * octet..8 * octet + 8]);
    }
    assert ip == OrNot(addr, mask);
    BroadcastIsLast(net);
  }
}
