/**
 * Choosing addresses: `GenerateNextIpAddrExcept` and `CheckIPUnique` of
 * config/network_addr.go, and the suggestions that api/peers.go makes for pending requests.
 */
module AddressPool {
  import opened Addressing
  import opened Bytes
  import opened Counting
  import opened Peers

  type Registry = map<PeerId, KnownPeer>

  // ----- What is in use

  predicate UsesInside(net: Net, p: KnownPeer) {
    p.ip.IPv4? && net.Contains(p.ip.addr)
  }

  /** The local address and those of the peers inside the subnet. */
  ghost function InUse(net: Net, known: Registry): set<uint32> {
    {net.local} + set id | id in known && UsesInside(net, known[id]) :: known[id].ip.addr
  }

  lemma {:induction false} HasMaximum(s: set<uint32>) returns (m: uint32)
    requires s != {}
    ensures m in s && forall a :: a in s ==> a <= m
  {
    m :| m in s;
    var rest := s - {m};
    assert forall a :: a in s ==> a == m || a in rest;
    if rest != {} {
      var n := HasMaximum(rest);
      if m < n {
        m := n;
      }
    }
  }

  ghost predicate IsMaximum(s: set<uint32>, m: uint32) {
    m in s && forall a :: a in s ==> a <= m
  }

  ghost function MaxOf(s: set<uint32>): (m: uint32)
    requires s != {}
    ensures IsMaximum(s, m)
  {
    assert exists m :: IsMaximum(s, m) by {
      var m := HasMaximum(s);
      assert IsMaximum(s, m);
    }
    var m :| IsMaximum(s, m);
    m
  }

  /** The greatest address in use. */
  ghost function Top(net: Net, known: Registry): (m: uint32)
    ensures IsMaximum(InUse(net, known), m)
  {
    assert net.local in InUse(net, known);
    MaxOf(InUse(net, known))
  }

  lemma TopIsUnique(net: Net, known: Registry, m: uint32)
    requires IsMaximum(InUse(net, known), m)
    ensures m == Top(net, known)
  {
  }

  /** The local address or that of a peer in the subnet, and none of these is greater. */
  lemma TopMeans(net: Net, known: Registry)
    ensures var top := Top(net, known);
            && net.local <= top
            && (forall id :: id in known && known[id].ip.IPv4? && net.Contains(known[id].ip.addr) ==>
                  known[id].ip.addr <= top)
            && (top != net.local ==> exists id :: id in known && known[id].ip == IPv4(top) && net.Contains(top))
  {
    var top := Top(net, known);
    assert net.local in InUse(net, known);
    forall id | id in known && known[id].ip.IPv4? && net.Contains(known[id].ip.addr)
      ensures known[id].ip.addr <= top
    {
      assert UsesInside(net, known[id]);
      assert known[id].ip.addr in InUse(net, known);
    }
    if top != net.local {
      var id :| id in known && UsesInside(net, known[id]) && known[id].ip.addr == top;
      assert known[id].ip == IPv4(top);
    }
  }

  lemma TopIsInside(net: Net, known: Registry)
    ensures net.Contains(Top(net, known))
  {
    LocalIsInside(net);
  }

  /** `a + k` as a 32-bit counter reaches it. */
  function Plus(a: uint32, k: nat): uint32
    requires k <= TWO32
  {
    if a + k < TWO32 then a + k else a + k - TWO32
  }

  function IncrementIPAddr(a: uint32): uint32 {
    if a == TWO32 - 1 then 0 else a + 1
  }

  // ----- The generator

  /** The `k` addresses that follow `top` are all excepted. */
  ghost predicate RunOfExcepted(top: uint32, k: nat, except: seq<IPText>) {
    k <= TWO32 && forall j :: 1 <= j <= k ==> IPv4(Plus(top, j)) in except
  }

  lemma RunIsShort(top: uint32, k: nat, except: seq<IPText>)
    requires RunOfExcepted(top, k, except)
    ensures k <= |except|
  {
    var xs := seq(k, i requires 0 <= i < k => IPv4(Plus(top, i + 1)));
    Pigeonhole(xs, set x | x in except);
    MembersBound(except);
  }

  /** Some address is left to generate. */
  ghost predicate SomeLeft(except: seq<IPText>) {
    exists a: uint32 :: IPv4(a) !in except
  }

  /** The generator would go round for ever only if every address were excepted. */
  lemma NeverAllTheWay(top: uint32, k: nat, except: seq<IPText>)
    requires RunOfExcepted(top, k, except) && SomeLeft(except)
    ensures k < TWO32
  {
    var a: uint32 :| IPv4(a) !in except;
    var j := if a > top then a - top else a + TWO32 - top;
    assert Plus(top, j) == a && 1 <= j <= TWO32;
  }

  /** The greatest in-subnet address in use, found in any order of the peer map. */
  method MaxAddress(net: Net, known: Registry) returns (maxIp: uint32)
    ensures maxIp == Top(net, known)
  {
    maxIp := net.local;
    var rest := known.Keys;
    while rest != {}
      invariant rest <= known.Keys
      invariant maxIp in InUse(net, known) && maxIp >= net.local
      invariant forall id :: id in known && id !in rest && UsesInside(net, known[id]) ==> known[id].ip.addr <= maxIp
      decreases rest
    {
      var id :| id in rest;
      if UsesInside(net, known[id]) && known[id].ip.addr > maxIp {
        maxIp := known[id].ip.addr;
      }
      rest := rest - {id};
    }
    TopIsUnique(net, known, maxIp);
  }

  /**
   * Ends after at most |except| + 1 increments, with the first address above everything in
   * use that is not excepted. If every address is excepted the code does not end.
   */
  method GenerateNextIpAddrExcept(net: Net, known: Registry, except: seq<IPText>)
    returns (ip: uint32, ghost steps: nat)
    requires SomeLeft(except)
    ensures 1 <= steps <= |except| + 1 && steps <= TWO32 && ip == Plus(Top(net, known), steps)
    ensures IPv4(ip) !in except && RunOfExcepted(Top(net, known), steps - 1, except)
    ensures Top(net, known) + steps < TWO32 ==>
              ip > Top(net, known) && forall a: uint32 :: Top(net, known) < a < ip ==> IPv4(a) in except
  {
    var maxIp := MaxAddress(net, known);
    ghost var top := maxIp;
    steps := 0;
    while true
      invariant steps <= |except| && steps < TWO32
      invariant maxIp == Plus(top, steps) && RunOfExcepted(top, steps, except)
      decreases |except| - steps
    {
      var newIp := IncrementIPAddr(maxIp);
      if IPv4(newIp) !in except {
        ip := newIp;
        steps := steps + 1;
        assert top + steps < TWO32 ==> forall a: uint32 :: top < a < ip ==> IPv4(a) == IPv4(Plus(top, a - top));
        return;
      }
      maxIp, steps := newIp, steps + 1;
      RunIsShort(top, steps, except);
      NeverAllTheWay(top, steps, except);
    }
  }

  // ----- The check

  datatype IPCheck = Accepted | Invalid | Outside | UsedBy(id: PeerId)

  /** A valid address inside the subnet that no peer but `except` has. */
  ghost predicate IPFree(net: Net, known: Registry, ip: IPText, except: PeerId) {
    && ip.IPv4? && net.Contains(ip.addr)
    && forall id :: id in known && known[id].ip == ip ==> except != "" && known[id].peerID == except
  }

  method CheckIPUnique(net: Net, known: Registry, ip: IPText, except: PeerId) returns (r: IPCheck)
    ensures r.Accepted? <==> IPFree(net, known, ip, except)
    ensures r.Invalid? <==> !ip.IPv4?
    ensures r.Outside? <==> ip.IPv4? && !net.Contains(ip.addr)
    ensures r.UsedBy? ==> r.id in known && known[r.id].ip == ip && (except == "" || known[r.id].peerID != except)
  {
    if !ip.IPv4? {
      return Invalid;
    }
    if !net.Contains(ip.addr) {
      return Outside;
    }
    var rest := known.Keys;
    while rest != {}
      invariant rest <= known.Keys
      invariant forall id :: id in known && id !in rest && known[id].ip == ip ==>
                  except != "" && known[id].peerID == except
      decreases rest
    {
      var id :| id in rest;
      rest := rest - {id};
      if known[id].ip != ip {
        continue;
      }
      if except != "" && known[id].peerID == except {
        continue;
      }
      return UsedBy(id);
    }
    return Accepted;
  }

  /** An address above everything in use is free while it stays inside the subnet. */
  lemma AboveTopIsFree(net: Net, known: Registry, a: uint32, except: PeerId)
    requires Top(net, known) < a <= net.Broadcast()
    ensures IPFree(net, known, IPv4(a), except)
  {
    TopIsInside(net, known);
    forall id | id in known
      ensures known[id].ip != IPv4(a)
    {
      if UsesInside(net, known[id]) {
        assert known[id].ip.addr in InUse(net, known);
      }
    }
  }

  /**
   * The suggestions for `n` pending requests are the `n` addresses that follow the greatest
   * one in use; each passes the uniqueness check as long as the last is inside the subnet.
   */
  method SuggestIPs(net: Net, known: Registry, n: nat) returns (ips: seq<IPText>)
    requires n <= TWO32
    ensures |ips| == n
    ensures forall i :: 0 <= i < n ==> ips[i] == IPv4(Plus(Top(net, known), i + 1))
    ensures Top(net, known) + n <= net.Broadcast() ==>
              forall i, except :: 0 <= i < n ==> IPFree(net, known, ips[i], except)
  {
    ghost var top := Top(net, known);
    ips := [];
    for k := 0 to n
      invariant |ips| == k
      invariant forall i :: 0 <= i < k ==> ips[i] == IPv4(Plus(top, i + 1))
      invariant RunOfExcepted(top, k, ips)
    {
      var ip;
      ghost var steps;
      assert IPv4(Plus(top, k + 1)) !in ips;
      ip, steps := GenerateNextIpAddrExcept(net, known, ips);
      ips := ips + [IPv4(ip)];
    }
    if top + n <= net.Broadcast() {
      LocalIsInside(net);
      forall i, except | 0 <= i < n
        ensures IPFree(net, known, ips[i], except)
      {
        AboveTopIsFree(net, known, ips[i].addr, except);
      }
    }
  }
}
