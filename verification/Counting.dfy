/** Counting arguments: lists without repetitions inside finite sets. */
module Counting {

  ghost predicate NoRepeats<T>(s: seq<T>) {
    forall i, j :: 0 <= i < j < |s| ==> s[i] != s[j]
  }

  /** A list without repetitions drawn from a set is no longer than the set. */
  lemma {:induction false} Pigeonhole<T>(xs: seq<T>, s: set<T>)
    requires NoRepeats(xs) && forall i :: 0 <= i < |xs| ==> xs[i] in s
    ensures |xs| <= |s|
  {
    if xs != [] {
      var n := |xs| - 1;
      Pigeonhole(xs[..n], s - {xs[n]});
    }
  }

  lemma {:induction false} MembersBound<T>(s: seq<T>)
    ensures |set x | x in s| <= |s|
  {
    if s != [] {
      var n := |s| - 1;
      MembersBound(s[..n]);
      assert (set x | x in s) == (set x | x in s[..n]) + {s[n]};
    }
  }
}
