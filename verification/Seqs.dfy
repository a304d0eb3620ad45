// Removing one element from a sequence, the step of every permutation argument, and folds that
// do not depend on the order of a sequence.
module Seqs {
  function Without<T>(s: seq<T>, k: nat): (r: seq<T>)
    requires k < |s|
    ensures |r| == |s| - 1
  {
    s[..k] + s[k + 1..]
  }

  lemma WithoutMultiset<T>(s: seq<T>, k: nat)
    requires k < |s|
    ensures multiset(s) == multiset(Without(s, k)) + multiset{s[k]}
  {
    assert s == s[..k] + [s[k]] + s[k + 1..];
  }

  /** In two shuffles of each other, the head of one can be removed from the other. */
  lemma MatchHead<T>(a: seq<T>, b: seq<T>) returns (k: nat)
    requires multiset(a) == multiset(b) && a != []
    ensures k < |b| && b[k] == a[0] && multiset(a[1..]) == multiset(Without(b, k))
  {
    assert a[0] in multiset(b);
    k :| 0 <= k < |b| && b[k] == a[0];
    WithoutMultiset(b, k);
    assert a == [a[0]] + a[1..];
    assert multiset(a[1..]) == multiset(a) - multiset{a[0]};
    assert multiset(Without(b, k)) == multiset(b) - multiset{b[k]};
  }

  lemma SameElements<T>(a: seq<T>, b: seq<T>)
    requires multiset(a) == multiset(b)
    ensures forall x :: x in a <==> x in b
    ensures |a| == |b|
  {
    assert forall x :: x in a <==> x in multiset(a);
    assert forall x :: x in b <==> x in multiset(b);
    assert |a| == |multiset(a)| == |multiset(b)| == |b|;
  }

  /** `op` applied from the right, ending in `unit`. */
  function Fold<T, R>(op: (T, R) -> R, unit: R, s: seq<T>): R {
    if s == [] then unit else op(s[0], Fold(op, unit, s[1..]))
  }

  ghost predicate LeftCommutes<T(!new), R(!new)>(op: (T, R) -> R) {
    forall a, b, r :: op(a, op(b, r)) == op(b, op(a, r))
  }

  lemma {:induction false} FoldPick<T(!new), R(!new)>(op: (T, R) -> R, unit: R, left: seq<T>, x: T, right: seq<T>)
    requires LeftCommutes(op)
    ensures Fold(op, unit, left + [x] + right) == op(x, Fold(op, unit, left + right))
    decreases |left|
  {
    if left == [] {
      assert left + [x] + right == [x] + right && left + right == right;
      assert ([x] + right)[1..] == right;
    } else {
      FoldPick(op, unit, left[1..], x, right);
      assert (left + [x] + right)[1..] == left[1..] + [x] + right;
      assert (left + right)[1..] == left[1..] + right;
    }
  }

  /** Folding a left-commutative operation forgets the order of the elements. */
  lemma {:induction false} FoldShuffled<T(!new), R(!new)>(op: (T, R) -> R, unit: R, a: seq<T>, b: seq<T>)
    requires LeftCommutes(op) && multiset(a) == multiset(b)
    ensures Fold(op, unit, a) == Fold(op, unit, b)
    decreases |a|
  {
    SameElements(a, b);
    if a == [] {
    } else {
      var k := MatchHead(a, b);
      FoldShuffled(op, unit, a[1..], Without(b, k));
      FoldPick(op, unit, b[..k], b[k], b[k + 1..]);
      assert b == b[..k] + [b[k]] + b[k + 1..];
    }
  }
}
