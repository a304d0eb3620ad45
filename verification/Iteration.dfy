// Repeating a step that may come to an end, and when it never does: what a search through pages
// and a cursor over an archive have in common, and that of more numbers than places two are equal.
module Iteration {
  import opened Basics

  /** What n steps lead to, if there are so many. */
  function Iterate<T>(way: T -> Option<T>, x: T, n: nat): Option<T>
    decreases n
  {
    if n == 0 then Some(x)
    else if way(x).None? then None
    else Iterate(way, way(x).value, n - 1)
  }

  lemma {:induction false} IterateOnward<T>(way: T -> Option<T>, x: T, m: nat, n: nat)
    ensures Iterate(way, x, m + n)
         == if Iterate(way, x, m).Some? then Iterate(way, Iterate(way, x, m).value, n) else None
    decreases m
  {
    if m > 0 && way(x).Some? {
      IterateOnward(way, way(x).value, m - 1, n);
    }
  }

  lemma {:induction false} LoopsForever<T>(way: T -> Option<T>, x: T, period: nat, n: nat)
    requires period > 0 && Iterate(way, x, period) == Some(x)
    ensures Iterate(way, x, n).Some?
    decreases n
  {
    if n <= period {
      IterateOnward(way, x, n, period - n);
    } else {
      LoopsForever(way, x, period, n - period);
      IterateOnward(way, x, period, n - period);
    }
  }

  lemma {:induction false} PigeonholeIn(s: seq<int>, holes: set<int>) returns (i: nat, j: nat)
    requires |s| > |holes| && forall k | 0 <= k < |s| :: s[k] in holes
    ensures i < j < |s| && s[i] == s[j]
    decreases |s|
  {
    var last := |s| - 1;
    if k: nat :| k < last && s[k] == s[last] {
      i, j := k, last;
    } else {
      assert |holes - {s[last]}| == |holes| - 1;
      i, j := PigeonholeIn(s[..last], holes - {s[last]});
    }
  }

  lemma {:induction false} Range(lo: int, n: nat) returns (numbers: set<int>)
    ensures |numbers| == n && forall k :: k in numbers <==> lo <= k < lo + n
  {
    if n == 0 {
      numbers := {};
    } else {
      var fewer := Range(lo, n - 1);
      numbers := fewer + {lo + n - 1};
    }
  }

  /** More numbers than a range has: two of them are equal. */
  lemma Pigeonhole(s: seq<int>, lo: int, n: nat) returns (i: nat, j: nat)
    requires |s| > n && forall k | 0 <= k < |s| :: lo <= s[k] < lo + n
    ensures i < j < |s| && s[i] == s[j]
  {
    var holes := Range(lo, n);
    i, j := PigeonholeIn(s, holes);
  }
}
