/**
 * The repair of the known peers on load, in `setDefaults` of config/other.go: one pass over
 * the map, in any order, that makes aliases unique and fills in missing addresses and domain
 * names. `trim` stands for the domain-name normalisation of awldns.
 */
module ConfigRepair {
  import opened Addressing
  import opened AddressPool
  import opened Aliases
  import opened Bytes
  import opened Peers

  /** Nothing is left for a repair pass to do. */
  ghost predicate Repaired(known: Registry, trim: string -> string) {
    && (forall id :: id in known ==> Complete(known[id], trim))
    && forall i, j :: i in known && j in known && i != j ==> known[i].alias != known[j].alias
  }

  predicate Complete(p: KnownPeer, trim: string -> string) {
    && p.alias != "" && p.ip != NoIP
    && (p.domainName == "" ==> trim(p.DisplayName()) == "")
  }

  /** What a repair may do to one record: fill gaps, and replace the alias. */
  ghost predicate OnlyRepairs(p: KnownPeer, q: KnownPeer, trim: string -> string) {
    && q == p.(alias := q.alias, ip := q.ip, domainName := q.domainName)
    && (p.ip != NoIP ==> q.ip == p.ip)
    && q.domainName == (if p.domainName != "" then p.domainName else trim(q.DisplayName()))
  }

  ghost function Missing(known: Registry): set<PeerId> {
    set id | id in known && known[id].ip == NoIP
  }

  lemma TopDependsOnAddresses(net: Net, k: Registry, m: Registry)
    requires k.Keys == m.Keys && forall id :: id in k ==> k[id].ip == m[id].ip
    ensures Top(net, k) == Top(net, m)
  {
    assert InUse(net, k) == InUse(net, m);
  }

  /** Giving a peer without an address the next one moves the top by one. */
  lemma TopAdvances(net: Net, known: Registry, id: PeerId, p: KnownPeer)
    requires id in known && known[id].ip == NoIP
    requires Top(net, known) < net.Broadcast() && p.ip.IPv4? && p.ip.addr == Top(net, known) + 1
    ensures Top(net, known[id := p]) == Top(net, known) + 1
  {
    var k, next := known[id := p], p.ip.addr;
    TopIsInside(net, known);
    assert UsesInside(net, k[id]) && next in InUse(net, k);
    forall a | a in InUse(net, k)
      ensures a <= next
    {
      assert a == next || a in InUse(net, known);
    }
    TopIsUnique(net, k, next);
  }

  // ----- What the loop keeps, for the set `done` of peers already visited

  /** Visited records are complete, with aliases of their own; the others are untouched. */
  ghost predicate Progress(
    known: Registry, cur: Registry, done: set<PeerId>, used: set<string>, trim: string -> string)
  {
    && cur.Keys == known.Keys && done <= known.Keys
    && (forall id :: id in known && id !in done ==> cur[id] == known[id])
    && (forall id :: id in done ==> Complete(cur[id], trim) && OnlyRepairs(known[id], cur[id], trim))
    && (forall id :: id in done ==> cur[id].alias in used)
    && (forall i, j :: i in done && j in done && i != j ==> cur[i].alias != cur[j].alias)
  }

  /** A complete configuration stays as it is. */
  ghost predicate Untouched(
    known: Registry, cur: Registry, done: set<PeerId>, used: set<string>, trim: string -> string)
  {
    Repaired(known, trim) ==>
      cur == known && forall a :: a in used ==> exists id :: id in done && id in known && known[id].alias == a
  }

  ghost predicate Lacks(known: Registry, id: PeerId) {
    id in known && known[id].ip == NoIP
  }

  /** The addresses left between the greatest one in use and the end of the subnet. */
  ghost function Room(net: Net, known: Registry): nat {
    TopIsInside(net, known);
    net.Broadcast() - Top(net, known)
  }

  /** What the generator yields once the last address of the subnet is in use. */
  function Overflow(net: Net): uint32 {
    LocalIsInside(net);
    if net.Broadcast() == TWO32 - 1 then 0 else net.Broadcast() + 1
  }

  ghost predicate GotBetween(known: Registry, cur: Registry, id: PeerId, base: int, top: int) {
    Lacks(known, id) && id in cur && cur[id].ip.IPv4? && base < cur[id].ip.addr <= top
  }

  /** The visited peers that got an address in `(base, top]`. */
  ghost function Fitted(known: Registry, cur: Registry, done: set<PeerId>, base: int, top: int): set<PeerId> {
    set id | id in done && GotBetween(known, cur, id, base, top)
  }

  /** The greatest address in use once `n` peers got one. */
  ghost function TopAfter(net: Net, known: Registry, n: nat): int {
    Top(net, known) + Min(n, Room(net, known))
  }

  /** A visited peer without an address got one in `(base, top]`, or the address `over`. */
  ghost predicate Got(base: int, over: uint32, known: Registry, cur: Registry, top: int, id: PeerId) {
    GotBetween(known, cur, id, base, top) || (id in cur && cur[id].ip == IPv4(over))
  }

  /**
   * Of the visited peers without an address `top - base` got different ones in `(base, top]`;
   * all the others got the address `over`.
   */
  ghost predicate Given(base: int, over: uint32, known: Registry, cur: Registry, done: set<PeerId>, top: int) {
    && GivenAll(base, over, known, cur, done, top) && GivenOwn(base, known, cur, done, top)
    && |Fitted(known, cur, done, base, top)| == top - base
  }

  ghost predicate GivenAll(base: int, over: uint32, known: Registry, cur: Registry, done: set<PeerId>, top: int) {
    forall id :: id in done && Lacks(known, id) ==> Got(base, over, known, cur, top, id)
  }

  ghost predicate GivenOwn(base: int, known: Registry, cur: Registry, done: set<PeerId>, top: int) {
    forall i, j :: i in done && j in done && i != j && GotBetween(known, cur, i, base, top) && Lacks(known, j) ==>
      j in cur && cur[i].ip != cur[j].ip
  }

  ghost predicate HandedOut(net: Net, known: Registry, cur: Registry, done: set<PeerId>) {
    HandedOutTo(net, known, cur, done, |Missing(known) * done|)
  }

  /** The state once `n` peers without an address have been visited. */
  ghost predicate HandedOutTo(net: Net, known: Registry, cur: Registry, done: set<PeerId>, n: nat) {
    && Top(net, cur) == TopAfter(net, known, n)
    && Given(Top(net, known), Overflow(net), known, cur, done, Top(net, cur))
  }

  /** One more peer gets the next address while there is room ... */
  lemma GiveNext(base: int, over: uint32, known: Registry, cur: Registry, done: set<PeerId>, top: int,
                 id: PeerId, p: KnownPeer)
    requires Given(base, over, known, cur, done, top) && Lacks(known, id) && id !in done && base <= top
    requires p.ip.IPv4? && p.ip.addr == top + 1 && over != top + 1
    ensures Given(base, over, known, cur[id := p], done + {id}, top + 1)
  {
    var next := cur[id := p];
    assert GivenAll(base, over, known, next, done + {id}, top + 1) by {
      forall q | q in done && Lacks(known, q)
        ensures Got(base, over, known, next, top + 1, q)
      {
        assert Got(base, over, known, cur, top, q);
      }
    }
    SameBelow(base, over, known, cur, done, top, id, p);
    assert Fitted(known, next, done + {id}, base, top + 1) == Fitted(known, cur, done, base, top) + {id};
  }

  /** Nobody that was visited before has the next address. */
  lemma SameBelow(base: int, over: uint32, known: Registry, cur: Registry, done: set<PeerId>, top: int,
                  id: PeerId, p: KnownPeer)
    requires GivenAll(base, over, known, cur, done, top) && GivenOwn(base, known, cur, done, top)
    requires Lacks(known, id) && id !in done && p.ip.IPv4? && p.ip.addr == top + 1 && over != top + 1
    ensures forall q :: q in done && Lacks(known, q) ==>
              (GotBetween(known, cur[id := p], q, base, top + 1) <==> GotBetween(known, cur, q, base, top))
    ensures GivenOwn(base, known, cur[id := p], done + {id}, top + 1)
  {
    forall q | q in done && Lacks(known, q)
      ensures q in cur && cur[q].ip != p.ip
      ensures GotBetween(known, cur[id := p], q, base, top + 1) <==> GotBetween(known, cur, q, base, top)
    {
      assert Got(base, over, known, cur, top, q);
    }
  }

  /** ... and the overflow address when there is none. */
  lemma GiveOverflow(base: int, over: uint32, known: Registry, cur: Registry, done: set<PeerId>, top: int,
                     id: PeerId, p: KnownPeer)
    requires Given(base, over, known, cur, done, top) && Lacks(known, id) && id !in done
    requires p.ip == IPv4(over) && !(base < over <= top)
    ensures Given(base, over, known, cur[id := p], done + {id}, top)
  {
    var next := cur[id := p];
    assert Fitted(known, next, done + {id}, base, top) == Fitted(known, cur, done, base, top);
  }

  lemma GiveNone(base: int, over: uint32, known: Registry, cur: Registry, done: set<PeerId>, top: int,
                 id: PeerId, p: KnownPeer)
    requires Given(base, over, known, cur, done, top) && id in known && !Lacks(known, id)
    ensures Given(base, over, known, cur[id := p], done + {id}, top)
  {
    var next := cur[id := p];
    assert Fitted(known, next, done + {id}, base, top) == Fitted(known, cur, done, base, top);
  }

  /** The overflow address lies outside the part of the subnet above the addresses in use. */
  lemma OverflowIsOutside(net: Net, known: Registry)
    ensures !(Top(net, known) < Overflow(net) <= net.Broadcast())
    ensures Top(net, known) == net.Broadcast() ==> Plus(Top(net, known), 1) == Overflow(net)
  {
    LocalIsInside(net);
  }

  /** The overflow address does not move the top. */
  lemma TopStays(net: Net, known: Registry, id: PeerId, p: KnownPeer)
    requires id in known && known[id].ip == NoIP
    requires Top(net, known) == net.Broadcast() && p.ip == IPv4(Overflow(net))
    ensures Top(net, known[id := p]) == Top(net, known)
  {
    var k, top := known[id := p], Top(net, known);
    LocalIsInside(net);
    forall a | a in InUse(net, k)
      ensures a <= top
    {
      assert a == p.ip.addr || a in InUse(net, known);
    }
    if top != net.local {
      var q :| q in known && UsesInside(net, known[q]) && known[q].ip.addr == top;
      assert k[q] == known[q];
    }
    TopIsUnique(net, k, top);
  }

  lemma ProgressStep(known: Registry, cur: Registry, done: set<PeerId>, used: set<string>, trim: string -> string,
                     id: PeerId, p: KnownPeer)
    requires Progress(known, cur, done, used, trim) && id in known && id !in done
    requires Complete(p, trim) && OnlyRepairs(cur[id], p, trim) && p.alias !in used
    ensures Progress(known, cur[id := p], done + {id}, used + {p.alias}, trim)
  {
  }

  lemma UntouchedStep(known: Registry, cur: Registry, done: set<PeerId>, used: set<string>, trim: string -> string,
                      id: PeerId, p: KnownPeer)
    requires Untouched(known, cur, done, used, trim) && id in known && id !in done && id in cur
    requires Complete(cur[id], trim) && cur[id].alias !in used ==> p == cur[id]
    ensures Untouched(known, cur[id := p], done + {id}, used + {p.alias}, trim)
  {
    if Repaired(known, trim) {
      assert known[id].alias !in used;
      assert cur[id := p] == known;
      forall a | a in used + {p.alias}
        ensures exists i :: i in done + {id} && i in known && known[i].alias == a
      {
        if a == p.alias {
          assert known[id].alias == a;
        } else {
          var i :| i in done && i in known && known[i].alias == a;
        }
      }
    }
  }

  lemma HandOutOne(net: Net, known: Registry, cur: Registry, done: set<PeerId>, id: PeerId, p: KnownPeer)
    requires HandedOut(net, known, cur, done) && cur.Keys == known.Keys
    requires id in known && id !in done && cur[id].ip == known[id].ip == NoIP
    requires p.ip == IPv4(Plus(Top(net, cur), 1))
    ensures HandedOut(net, known, cur[id := p], done + {id})
  {
    CountOneMore(known, done, id);
    HandOutOneMore(net, known, cur, done, |Missing(known) * done|, id, p);
  }

  lemma HandOutOneMore(net: Net, known: Registry, cur: Registry, done: set<PeerId>, n: nat, id: PeerId, p: KnownPeer)
    requires HandedOutTo(net, known, cur, done, n) && cur.Keys == known.Keys
    requires id in known && id !in done && cur[id].ip == known[id].ip == NoIP
    requires p.ip == IPv4(Plus(Top(net, cur), 1))
    ensures HandedOutTo(net, known, cur[id := p], done + {id}, n + 1)
  {
    TopAfterOneMore(net, known, n);
    if Top(net, cur) < net.Broadcast() {
      HandOutNext(net, known, cur, done, id, p);
    } else {
      HandOutOverflow(net, known, cur, done, id, p);
    }
  }

  lemma HandOutNext(net: Net, known: Registry, cur: Registry, done: set<PeerId>, id: PeerId, p: KnownPeer)
    requires Given(Top(net, known), Overflow(net), known, cur, done, Top(net, cur)) && cur.Keys == known.Keys
    requires Top(net, known) <= Top(net, cur) < net.Broadcast()
    requires id in known && id !in done && cur[id].ip == known[id].ip == NoIP
    requires p.ip == IPv4(Plus(Top(net, cur), 1))
    ensures Top(net, cur[id := p]) == Top(net, cur) + 1
    ensures Given(Top(net, known), Overflow(net), known, cur[id := p], done + {id}, Top(net, cur) + 1)
  {
    LocalIsInside(net);
    TopAdvances(net, cur, id, p);
    OverflowIsNotNext(net, cur);
    GiveNext(Top(net, known), Overflow(net), known, cur, done, Top(net, cur), id, p);
  }

  lemma HandOutOverflow(net: Net, known: Registry, cur: Registry, done: set<PeerId>, id: PeerId, p: KnownPeer)
    requires Given(Top(net, known), Overflow(net), known, cur, done, Top(net, cur)) && cur.Keys == known.Keys
    requires Top(net, cur) >= net.Broadcast()
    requires id in known && id !in done && cur[id].ip == known[id].ip == NoIP
    requires p.ip == IPv4(Plus(Top(net, cur), 1))
    ensures Top(net, cur[id := p]) == Top(net, cur)
    ensures Given(Top(net, known), Overflow(net), known, cur[id := p], done + {id}, Top(net, cur))
  {
    TopIsInside(net, cur);
    OverflowIsOutside(net, cur);
    OverflowIsOutside(net, known);
    TopStays(net, cur, id, p);
    GiveOverflow(Top(net, known), Overflow(net), known, cur, done, Top(net, cur), id, p);
  }

  lemma OverflowIsNotNext(net: Net, cur: Registry)
    requires Top(net, cur) < net.Broadcast()
    ensures Overflow(net) != Top(net, cur) + 1
  {
    LocalIsInside(net);
  }

  lemma TopAfterOneMore(net: Net, known: Registry, n: nat)
    ensures var top := TopAfter(net, known, n);
            && Top(net, known) <= top <= net.Broadcast()
            && TopAfter(net, known, n + 1) == if top < net.Broadcast() then top + 1 else top
  {
  }

  lemma CountOneMore(known: Registry, done: set<PeerId>, id: PeerId)
    requires Lacks(known, id) && id !in done
    ensures |Missing(known) * (done + {id})| == |Missing(known) * done| + 1
  {
    assert Missing(known) * (done + {id}) == Missing(known) * done + {id};
  }

  lemma HandOutNone(net: Net, known: Registry, cur: Registry, done: set<PeerId>, id: PeerId, p: KnownPeer)
    requires HandedOut(net, known, cur, done) && cur.Keys == known.Keys
    requires id in known && known[id].ip != NoIP && p.ip == cur[id].ip
    ensures HandedOut(net, known, cur[id := p], done + {id})
  {
    CountNoMore(known, done, id);
    GiveNone(Top(net, known), Overflow(net), known, cur, done, Top(net, cur), id, p);
    TopDependsOnAddresses(net, cur, cur[id := p]);
  }

  lemma CountNoMore(known: Registry, done: set<PeerId>, id: PeerId)
    requires !Lacks(known, id)
    ensures |Missing(known) * (done + {id})| == |Missing(known) * done|
  {
    assert Missing(known) * (done + {id}) == Missing(known) * done;
  }

  ghost predicate Invariant(
    net: Net, known: Registry, cur: Registry, done: set<PeerId>, used: set<string>, trim: string -> string)
  {
    && Progress(known, cur, done, used, trim)
    && Untouched(known, cur, done, used, trim)
    && HandedOut(net, known, cur, done)
  }

  lemma InvariantAtStart(net: Net, known: Registry, trim: string -> string)
    ensures Invariant(net, known, known, {}, {}, trim)
  {
    assert Missing(known) * {} == {};
    assert Fitted(known, known, {}, Top(net, known), Top(net, known)) == {};
  }

  lemma InvariantStep(net: Net, known: Registry, cur: Registry, done: set<PeerId>, used: set<string>,
                      trim: string -> string, id: PeerId, p: KnownPeer)
    requires Invariant(net, known, cur, done, used, trim) && id in known && id !in done
    requires Complete(p, trim) && OnlyRepairs(cur[id], p, trim) && p.alias !in used
    requires Complete(cur[id], trim) && cur[id].alias !in used ==> p == cur[id]
    requires cur[id].ip == NoIP ==> p.ip == IPv4(Plus(Top(net, cur), 1))
    ensures Invariant(net, known, cur[id := p], done + {id}, used + {p.alias}, trim)
  {
    ProgressStep(known, cur, done, used, trim, id, p);
    UntouchedStep(known, cur, done, used, trim, id, p);
    if known[id].ip == NoIP {
      HandOutOne(net, known, cur, done, id, p);
    } else {
      HandOutNone(net, known, cur, done, id, p);
    }
  }

  lemma InvariantAtEnd(net: Net, known: Registry, cur: Registry, used: set<string>, trim: string -> string)
    requires Invariant(net, known, cur, known.Keys, used, trim)
    ensures Repaired(cur, trim)
    ensures Repaired(known, trim) ==> cur == known
    ensures cur.Keys == known.Keys && forall id :: id in known ==> OnlyRepairs(known[id], cur[id], trim)
  {
  }

  // ----- Aliases

  /** The alias, or else the name, or else "peer", as it is or with an underscore and a number. */
  ghost predicate MadeFrom(p: KnownPeer, alias: string) {
    var base := if p.alias != "" then p.alias else if p.name != "" then p.name else "peer";
    alias == base || exists k: nat :: alias == base + "_" + Itoa(k)
  }

  /** A peer loses its alias only to another one, which then has it. */
  ghost predicate KeepsAlias(known: Registry, cur: Registry, done: set<PeerId>, id: PeerId)
    requires id in known && id in cur
  {
    known[id].alias != "" && cur[id].alias != known[id].alias ==>
      exists j :: j in done && j != id && j in cur && cur[j].alias == known[id].alias
  }

  ghost predicate AliasesFrom(known: Registry, cur: Registry, done: set<PeerId>, used: set<string>) {
    && cur.Keys == known.Keys && done <= known.Keys
    && (forall a :: a in used ==> exists j :: j in done && j in cur && cur[j].alias == a)
    && (forall id :: id in done ==> MadeFrom(known[id], cur[id].alias) && KeepsAlias(known, cur, done, id))
  }

  lemma GeneratedIsMadeFrom(p: KnownPeer, used: set<string>)
    ensures MadeFrom(p, GenAlias(p.name, p.alias, used))
    ensures p.alias != "" && GenAlias(p.name, p.alias, used) != p.alias ==> p.alias in used
  {
    GenAliasMeans(p.name, p.alias, used);
  }

  lemma AliasesStep(known: Registry, cur: Registry, done: set<PeerId>, used: set<string>, id: PeerId, p: KnownPeer)
    requires AliasesFrom(known, cur, done, used) && id in known && id !in done && cur[id] == known[id]
    requires p.alias == GenAlias(cur[id].name, cur[id].alias, used)
    ensures AliasesFrom(known, cur[id := p], done + {id}, used + {p.alias})
  {
    var next := cur[id := p];
    GeneratedIsMadeFrom(known[id], used);
    forall a | a in used + {p.alias}
      ensures exists j :: j in done + {id} && j in next && next[j].alias == a
    {
      if a in used {
        var j :| j in done && j in cur && cur[j].alias == a;
        assert next[j].alias == a;
      } else {
        assert next[id].alias == a;
      }
    }
    forall i | i in done + {id}
      ensures KeepsAlias(known, next, done + {id}, i)
    {
      KeepsAliasStep(known, cur, done, used, id, p, i);
    }
  }

  lemma KeepsAliasStep(known: Registry, cur: Registry, done: set<PeerId>, used: set<string>, id: PeerId, p: KnownPeer,
                       i: PeerId)
    requires AliasesFrom(known, cur, done, used) && id in known && id !in done && i in done + {id}
    requires known[id].alias != "" && p.alias != known[id].alias ==> known[id].alias in used
    ensures KeepsAlias(known, cur[id := p], done + {id}, i)
  {
    var next := cur[id := p];
    if known[i].alias != "" && next[i].alias != known[i].alias {
      var j :| j in done && j in cur && j != i && cur[j].alias == known[i].alias;
      assert next[j].alias == known[i].alias;
    }
  }

  // ----- When the addresses are all right

  /** Every peer that had no address got one inside the subnet that no other peer has. */
  ghost predicate GivenSound(net: Net, known: Registry, out: Registry)
    requires out.Keys == known.Keys
  {
    && (forall id :: Lacks(known, id) ==> UsesInside(net, out[id]))
    && (forall i, j :: Lacks(known, i) && j in known && i != j ==> out[i].ip != out[j].ip)
  }

  /** The subnet has room for all of them; all of IPv4 has room for one more if nobody has 0. */
  ghost predicate Roomy(net: Net, known: Registry) {
    || |Missing(known)| <= Room(net, known)
    || (|Missing(known)| == Room(net, known) + 1 && net.Broadcast() == TWO32 - 1 && net.Contains(0)
        && forall id :: id in known ==> known[id].ip != IPv4(0))
  }

  /** The peers that got the overflow address. */
  ghost function Overflowing(net: Net, known: Registry, out: Registry): set<PeerId>
    requires out.Keys == known.Keys
  {
    set id | id in known && Lacks(known, id) && out[id].ip == IPv4(Overflow(net))
  }

  /** All that a repair says about addresses. */
  ghost predicate AddressesOf(net: Net, known: Registry, out: Registry) {
    && out.Keys == known.Keys && HandedOut(net, known, out, known.Keys)
    && forall id :: id in known && known[id].ip != NoIP ==> out[id].ip == known[id].ip
  }

  lemma OverflowCount(net: Net, known: Registry, out: Registry)
    requires AddressesOf(net, known, out)
    ensures |Overflowing(net, known, out)| == |Missing(known)| - Min(|Missing(known)|, Room(net, known))
  {
    var all, base, top := Missing(known), Top(net, known), Top(net, out);
    assert all * known.Keys == all;
    var fitted, over := Fitted(known, out, known.Keys, base, top), Overflowing(net, known, out);
    TopIsInside(net, out);
    OverflowIsOutside(net, known);
    forall id | id in all
      ensures id in fitted + over
    {
      assert Got(base, Overflow(net), known, out, top, id);
    }
    SplitCount(all, fitted, over);
  }

  lemma SplitCount<T>(all: set<T>, a: set<T>, b: set<T>)
    requires a !! b && a <= all && b <= all && forall x :: x in all ==> x in a + b
    ensures |all| == |a| + |b|
  {
    assert all == a + b;
  }

  /** A peer that got an address there was room for is inside the subnet ... */
  lemma FittedIsInside(net: Net, known: Registry, out: Registry, i: PeerId)
    requires AddressesOf(net, known, out) && Lacks(known, i) && i !in Overflowing(net, known, out)
    ensures UsesInside(net, out[i]) && out[i].ip.addr > Top(net, known)
    ensures GotBetween(known, out, i, Top(net, known), Top(net, out))
  {
    assert Got(Top(net, known), Overflow(net), known, out, Top(net, out), i);
    TopIsInside(net, known);
    TopIsInside(net, out);
  }

  /** ... and shares its address with nobody. */
  lemma FittedIsOwn(net: Net, known: Registry, out: Registry, i: PeerId, j: PeerId)
    requires AddressesOf(net, known, out) && i != j && j in known
    requires Lacks(known, i) && i !in Overflowing(net, known, out)
    ensures out[i].ip != out[j].ip
  {
    FittedIsInside(net, known, out, i);
    if !Lacks(known, j) && UsesInside(net, known[j]) {
      assert known[j].ip.addr in InUse(net, known);
    }
  }

  /** Two peers with the overflow address share it. */
  lemma OverflowIsLost(net: Net, known: Registry, out: Registry)
    requires AddressesOf(net, known, out) && |Missing(known)| > Room(net, known) && GivenSound(net, known, out)
    ensures Roomy(net, known)
  {
    var over := Overflowing(net, known, out);
    OverflowCount(net, known, out);
    LocalIsInside(net);
    var i :| i in over;
    forall j | j in over
      ensures j == i
    {
      assert out[j].ip == out[i].ip;
    }
    assert over == {i};
    forall id | id in known
      ensures known[id].ip != IPv4(Overflow(net))
    {
      assert id != i ==> out[i].ip != out[id].ip;
    }
  }

  /** A single peer with the overflow address 0 of all of IPv4 is all right. */
  lemma OneOverflowIsOwn(net: Net, known: Registry, out: Registry, i: PeerId)
    requires AddressesOf(net, known, out) && Roomy(net, known) && i in Overflowing(net, known, out)
    ensures UsesInside(net, out[i]) && forall j :: j in known && j != i ==> out[j].ip != out[i].ip
  {
    var over := Overflowing(net, known, out);
    OverflowCount(net, known, out);
    assert |over - {i}| == |over| - 1;
    assert over - {i} == {};
    forall j | j in known && j != i
      ensures out[j].ip != out[i].ip
    {
      assert j !in over - {i};
      assert Lacks(known, j) || out[j].ip == known[j].ip;
    }
  }

  /** The exact condition for the repair to hand out proper addresses, whatever its iteration order. */
  lemma GivenSoundExactlyWhen(net: Net, known: Registry, out: Registry)
    requires AddressesOf(net, known, out)
    ensures GivenSound(net, known, out) <==> Roomy(net, known)
  {
    if GivenSound(net, known, out) && |Missing(known)| > Room(net, known) {
      OverflowIsLost(net, known, out);
    }
    if Roomy(net, known) {
      forall i | Lacks(known, i)
        ensures UsesInside(net, out[i]) && forall j :: j in known && j != i ==> out[j].ip != out[i].ip
      {
        if i in Overflowing(net, known, out) {
          OneOverflowIsOwn(net, known, out, i);
        } else {
          FittedIsInside(net, known, out, i);
          forall j | j in known && j != i
            ensures out[j].ip != out[i].ip
          {
            FittedIsOwn(net, known, out, i, j);
          }
        }
      }
    }
  }

  // ----- The code

  /** The body of the loop for one peer. */
  method RepairPeer(net: Net, cur: Registry, id: PeerId, uniqAliases: set<string>, trim: string -> string)
    returns (peer: KnownPeer, used: set<string>)
    requires id in cur
    ensures OnlyRepairs(cur[id], peer, trim) && Complete(peer, trim)
    ensures peer.alias !in uniqAliases && used == uniqAliases + {peer.alias}
    ensures Complete(cur[id], trim) && cur[id].alias !in uniqAliases ==> peer == cur[id]
    ensures cur[id].ip == NoIP ==> peer.ip == IPv4(Plus(Top(net, cur), 1))
    ensures peer.alias == GenAlias(cur[id].name, cur[id].alias, uniqAliases)
  {
    peer := cur[id];
    var newAlias;
    newAlias, used := GenUniqPeerAlias(peer.name, peer.alias, uniqAliases);
    if newAlias != peer.alias {
      peer := peer.(alias := newAlias);
    }
    if peer.ip == NoIP {
      var next;
      ghost var steps;
      assert IPv4(0) !in [];
      next, steps := GenerateNextIpAddrExcept(net, cur, []);
      peer := peer.(ip := IPv4(next));
    }
    if peer.domainName == "" {
      peer := peer.(domainName := trim(peer.DisplayName()));
    }
  }

  /** The peers outside `rest` have been visited. */
  ghost predicate Visited(
    net: Net, known: Registry, cur: Registry, rest: set<PeerId>, used: set<string>, trim: string -> string)
  {
    rest <= known.Keys && Invariant(net, known, cur, known.Keys - rest, used, trim)
  }

  lemma VisitedStep(net: Net, known: Registry, cur: Registry, rest: set<PeerId>, used: set<string>,
                    trim: string -> string, id: PeerId, p: KnownPeer)
    requires Visited(net, known, cur, rest, used, trim) && id in rest && id in cur
    requires Complete(p, trim) && OnlyRepairs(cur[id], p, trim) && p.alias !in used
    requires Complete(cur[id], trim) && cur[id].alias !in used ==> p == cur[id]
    requires cur[id].ip == NoIP ==> p.ip == IPv4(Plus(Top(net, cur), 1))
    ensures Visited(net, known, cur[id := p], rest - {id}, used + {p.alias}, trim)
  {
    var done := known.Keys - rest;
    InvariantStep(net, known, cur, done, used, trim, id, p);
    OneLess(known.Keys, rest, id);
    VisitedIs(net, known, cur[id := p], rest - {id}, done + {id}, used + {p.alias}, trim);
  }

  lemma OneLess(all: set<PeerId>, rest: set<PeerId>, id: PeerId)
    requires rest <= all && id in rest
    ensures all - rest + {id} == all - (rest - {id})
  {
  }

  lemma VisitedIs(net: Net, known: Registry, cur: Registry, rest: set<PeerId>, done: set<PeerId>, used: set<string>,
                  trim: string -> string)
    requires rest <= known.Keys && done == known.Keys - rest && Invariant(net, known, cur, done, used, trim)
    ensures Visited(net, known, cur, rest, used, trim)
  {
  }

  ghost predicate AliasesVisited(known: Registry, cur: Registry, rest: set<PeerId>, used: set<string>) {
    AliasesFrom(known, cur, known.Keys - rest, used)
  }

  lemma AliasesAtStart(known: Registry)
    ensures AliasesVisited(known, known, known.Keys, {})
  {
    assert known.Keys - known.Keys == {};
  }

  lemma AliasesAtEnd(known: Registry, cur: Registry, used: set<string>)
    requires AliasesVisited(known, cur, {}, used)
    ensures AliasesFrom(known, cur, known.Keys, used)
  {
    assert known.Keys - {} == known.Keys;
  }

  method RepairNext(net: Net, ghost known: Registry, cur: Registry, ghost rest: set<PeerId>, id: PeerId,
                    uniqAliases: set<string>, trim: string -> string)
    returns (next: Registry, used: set<string>)
    requires Visited(net, known, cur, rest, uniqAliases, trim) && id in rest
    requires AliasesVisited(known, cur, rest, uniqAliases)
    ensures Visited(net, known, next, rest - {id}, used, trim)
    ensures AliasesVisited(known, next, rest - {id}, used)
  {
    var peer;
    peer, used := RepairPeer(net, cur, id, uniqAliases, trim);
    VisitedStep(net, known, cur, rest, uniqAliases, trim, id, peer);
    AliasesStep(known, cur, known.Keys - rest, uniqAliases, id, peer);
    OneLess(known.Keys, rest, id);
    next := cur[id := peer];
  }

  lemma VisitedAtStart(net: Net, known: Registry, trim: string -> string)
    ensures Visited(net, known, known, known.Keys, {}, trim)
  {
    InvariantAtStart(net, known, trim);
    assert known.Keys - known.Keys == {};
  }

  lemma VisitedAtEnd(net: Net, known: Registry, cur: Registry, used: set<string>, trim: string -> string)
    requires Visited(net, known, cur, {}, used, trim)
    ensures Invariant(net, known, cur, known.Keys, used, trim)
  {
    assert known.Keys - {} == known.Keys;
  }

  method RepairAll(net: Net, known: Registry, trim: string -> string) returns (out: Registry, uniqAliases: set<string>)
    ensures Invariant(net, known, out, known.Keys, uniqAliases, trim)
    ensures AliasesFrom(known, out, known.Keys, uniqAliases)
  {
    out, uniqAliases := known, {};
    var rest := known.Keys;
    VisitedAtStart(net, known, trim);
    AliasesAtStart(known);
    while rest != {}
      invariant Visited(net, known, out, rest, uniqAliases, trim)
      invariant AliasesVisited(known, out, rest, uniqAliases)
      decreases rest
    {
      var id :| id in rest;
      out, uniqAliases := RepairNext(net, known, out, rest, id, uniqAliases, trim);
      rest := rest - {id};
    }
    VisitedAtEnd(net, known, out, uniqAliases, trim);
    AliasesAtEnd(known, out, uniqAliases);
  }

  /**
   * For every peer map and every iteration order: the pass ends, leaves aliases non-empty and
   * pairwise distinct and no gap behind, changes nothing when run on its own result, and hands
   * the missing peers distinct addresses right above the ones in use, as many as the subnet has
   * room for, and one and the same address to all the others.
   */
  method SetDefaults(net: Net, known: Registry, trim: string -> string) returns (out: Registry)
    ensures Repaired(out, trim)
    ensures Repaired(known, trim) ==> out == known
    ensures out.Keys == known.Keys && forall id :: id in known ==> OnlyRepairs(known[id], out[id], trim)
    ensures AddressesOf(net, known, out) && (GivenSound(net, known, out) <==> Roomy(net, known))
    ensures forall id :: id in known ==> MadeFrom(known[id], out[id].alias)
    ensures forall id :: id in known && known[id].alias != "" && out[id].alias != known[id].alias ==>
              exists j :: j in known && j != id && out[j].alias == known[id].alias
  {
    var uniqAliases;
    out, uniqAliases := RepairAll(net, known, trim);
    InvariantAtEnd(net, known, out, uniqAliases, trim);
    GivenSoundExactlyWhen(net, known, out);
    assert forall id :: id in known ==> KeepsAlias(known, out, known.Keys, id);
  }
}
