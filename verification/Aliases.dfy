/** Unique display names: `genUniqPeerAlias` and `IsUniqPeerAlias` of config/config.go. */
module Aliases {
  import opened Counting
  import opened Peers

  const DEFAULT_PEER_ALIAS := "peer"

  // ----- Decimal numerals

  function Digit(d: nat): char
    requires d < 10
  {
    "0123456789"[d]
  }

  function DigitValue(c: char): int {
    c as int - '0' as int
  }

  function Itoa(n: nat): string {
    if n < 10 then [Digit(n)] else Itoa(n / 10) + [Digit(n % 10)]
  }

  function Atoi(s: string): int {
    if s == "" then 0 else Atoi(s[..|s| - 1]) * 10 + DigitValue(s[|s| - 1])
  }

  lemma {:induction false} AtoiItoa(n: nat)
    ensures Atoi(Itoa(n)) == n
  {
    if n < 10 {
      assert Itoa(n)[..0] == "";
    } else {
      AtoiItoa(n / 10);
      assert Itoa(n)[..|Itoa(n)| - 1] == Itoa(n / 10);
    }
  }

  // ----- Candidates

  function Candidate(base: string, i: nat): string {
    base + "_" + Itoa(i)
  }

  lemma CandidatesDiffer(base: string, i: nat, j: nat)
    requires Candidate(base, i) == Candidate(base, j)
    ensures i == j
  {
    assert Candidate(base, i)[|base| + 1..] == Itoa(i);
    assert Candidate(base, j)[|base| + 1..] == Itoa(j);
    AtoiItoa(i);
    AtoiItoa(j);
  }

  /** No more candidates can be taken than there are names taken. */
  lemma TakenCandidates(base: string, taken: set<string>, i: nat)
    requires forall j :: 0 <= j < i ==> Candidate(base, j) in taken
    ensures i <= |taken|
  {
    var xs := seq(i, j requires 0 <= j < i => Candidate(base, j));
    forall j, k | 0 <= j < k < i
      ensures xs[j] != xs[k]
    {
      if xs[j] == xs[k] {
        CandidatesDiffer(base, j, k);
      }
    }
    Pigeonhole(xs, taken);
  }

  /** The first candidate from `i` on that is not taken. */
  function FirstFree(base: string, taken: set<string>, i: nat): (r: string)
    requires forall j :: 0 <= j < i ==> Candidate(base, j) in taken
    ensures r !in taken && r != ""
    ensures exists k :: k >= i && r == Candidate(base, k) && forall j :: 0 <= j < k ==> Candidate(base, j) in taken
    decreases |taken| - i
  {
    TakenCandidates(base, taken, i);
    if Candidate(base, i) !in taken then Candidate(base, i)
    else
      TakenCandidates(base, taken, i + 1);
      FirstFree(base, taken, i + 1)
  }

  /** The name to start from: the alias, else the peer's own name, else a default. */
  function Base(name: string, alias: string): string {
    if alias != "" then alias else if name != "" then name else DEFAULT_PEER_ALIAS
  }

  /** The generated alias: never empty, never taken, and the base itself whenever that is free. */
  function GenAlias(name: string, alias: string, taken: set<string>): (r: string)
    ensures r !in taken && r != ""
    ensures Base(name, alias) !in taken ==> r == Base(name, alias)
  {
    if Base(name, alias) in taken then FirstFree(Base(name, alias), taken, 0) else Base(name, alias)
  }

  /**
   * In its own terms: the alias, or else the name, or else "peer"; and if that is taken, the same
   * with an underscore and the smallest number that makes it free.
   */
  lemma GenAliasMeans(name: string, alias: string, taken: set<string>)
    ensures var r := GenAlias(name, alias, taken);
            var base := if alias != "" then alias else if name != "" then name else "peer";
            && r !in taken
            && (base !in taken ==> r == base)
            && (base in taken ==>
                  exists k: nat ::
                    r == base + "_" + Itoa(k) && forall j :: 0 <= j < k ==> base + "_" + Itoa(j) in taken)
  {
    var r, base := GenAlias(name, alias, taken), Base(name, alias);
    if base in taken {
      var k :| k >= 0 && r == Candidate(base, k) && forall j :: 0 <= j < k ==> Candidate(base, j) in taken;
      assert r == base + "_" + Itoa(k);
      forall j | 0 <= j < k
        ensures base + "_" + Itoa(j) in taken
      {
        assert Candidate(base, j) in taken;
      }
    }
  }

  /** Ends by the pigeonhole bound, and records the alias it hands out. */
  method GenUniqPeerAlias(name: string, alias: string, uniqAliases: set<string>)
    returns (r: string, used: set<string>)
    ensures r == GenAlias(name, alias, uniqAliases)
    ensures used == uniqAliases + {r} && |used| == |uniqAliases| + 1
  {
    r := alias;
    if r == "" {
      r := if name == "" then DEFAULT_PEER_ALIAS else name;
    }
    if r in uniqAliases {
      var base, i, ok := r, 0, true;
      while ok
        invariant forall j :: 0 <= j < i ==> Candidate(base, j) in uniqAliases
        invariant ok ==> FirstFree(base, uniqAliases, i) == GenAlias(name, alias, uniqAliases)
        invariant !ok ==> r == GenAlias(name, alias, uniqAliases)
        decreases ok, |uniqAliases| - i
      {
        TakenCandidates(base, uniqAliases, i);
        r := Candidate(base, i);
        ok := r in uniqAliases;
        if ok {
          i := i + 1;
          TakenCandidates(base, uniqAliases, i);
        }
      }
    }
    used := uniqAliases + {r};
  }

  // ----- Aliases of a configuration

  function AliasesOf(known: map<PeerId, KnownPeer>): set<string> {
    set id | id in known :: known[id].alias
  }

  /** A loop over the peers in any order; a peer may keep its own alias. */
  method IsUniqPeerAlias(known: map<PeerId, KnownPeer>, exclude: PeerId, alias: string) returns (uniq: bool)
    ensures uniq <==> forall id :: id in known && known[id].peerID != exclude ==> known[id].alias != alias
  {
    var rest := known.Keys;
    while rest != {}
      invariant rest <= known.Keys
      invariant forall id :: id in known && id !in rest && known[id].peerID != exclude ==> known[id].alias != alias
      decreases rest
    {
      var id :| id in rest;
      rest := rest - {id};
      if known[id].peerID == exclude {
        continue;
      }
      if known[id].alias == alias {
        return false;
      }
    }
    return true;
  }
}
