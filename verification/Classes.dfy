// Listing the classes of a union-find forest as buckets under their least members, as both the
// reconciler and the merge engine do after their unions.
module Classes {
  import opened Links
  import opened UnionFind
  import Order

  function Members(group: seq<nat>): set<nat> {
    set i | i in group
  }

  ghost predicate Numbered(parent: Forest, n: nat) {
    forall i: nat :: i in parent <==> i < n
  }

  ghost predicate InBucket(buckets: map<nat, seq<nat>>, r: nat, i: nat) {
    r in buckets && i in buckets[r]
  }

  ghost predicate Orderly(buckets: map<nat, seq<nat>>) {
    forall r <- buckets :: Order.Ascending(buckets[r]) && buckets[r] != [] && buckets[r][0] == r
  }

  /** Each class of `links` on 0..n is one bucket, listed in order under its least member. */
  ghost predicate IsBucketing(n: nat, links: set<Link>, buckets: map<nat, seq<nat>>) {
    && Orderly(buckets)
    && (forall r: nat, i: nat | r in buckets :: InBucket(buckets, r, i) <==> i < n && Chained(links, r, i))
    && (forall i: nat | i < n :: Placed(buckets, i))
  }

  ghost predicate Placed(buckets: map<nat, seq<nat>>, i: nat) {
    exists r: nat :: InBucket(buckets, r, i)
  }

  /** The first k items have been appended to the bucket of their root. */
  ghost predicate Collected(p: Forest, k: nat, buckets: map<nat, seq<nat>>)
    requires Descending(p)
  {
    && Orderly(buckets)
    && forall r: nat, i: nat {:trigger InBucket(buckets, r, i)} ::
         InBucket(buckets, r, i) <==> i < k && i in p && Root(p, i) == r
  }

  lemma {:induction false} CollectOne(p: Forest, n: nat, k: nat, buckets: map<nat, seq<nat>>, r: nat)
    requires Descending(p) && Numbered(p, n) && k < n && Collected(p, k, buckets) && r == Root(p, k)
    ensures Collected(p, k + 1, buckets[r := (if r in buckets then buckets[r] else []) + [k]])
  {
    var tail := if r in buckets then buckets[r] else [];
    var more := buckets[r := tail + [k]];
    CollectOrderly(p, n, k, buckets, r);
    forall i: nat, s: nat {:trigger InBucket(more, s, i)}
      ensures InBucket(more, s, i) <==> i < k + 1 && i in p && Root(p, i) == s
    {
      assert InBucket(buckets, s, i) <==> i < k && i in p && Root(p, i) == s;
    }
  }

  lemma {:induction false} CollectOrderly(p: Forest, n: nat, k: nat, buckets: map<nat, seq<nat>>, r: nat)
    requires Descending(p) && Numbered(p, n) && k < n && Collected(p, k, buckets) && r == Root(p, k)
    ensures Orderly(buckets[r := (if r in buckets then buckets[r] else []) + [k]])
  {
    if r in buckets {
      var tail := buckets[r];
      forall a | 0 <= a < |tail| ensures tail[a] < k {
        assert InBucket(buckets, r, tail[a]);
      }
      assert Order.Ascending(tail + [k]);
    } else {
      assert p[r] == r && Root(p, r) == r;
      assert !InBucket(buckets, r, r);
      assert r == k;
    }
  }

  lemma BucketsAreClasses(n: nat, p: Forest, q: Forest, links: set<Link>, final: set<Link>,
                          buckets: map<nat, seq<nat>>)
    requires Descending(p) && Partitions(q, links) && SameRoots(p, q) && Numbered(q, n)
    requires Equivalent(links, final) && Collected(p, n, buckets)
    ensures IsBucketing(n, final, buckets)
  {
    forall r: nat, i: nat | r in buckets
      ensures InBucket(buckets, r, i) <==> i < n && Chained(final, r, i)
    {
      assert InBucket(buckets, r, buckets[r][0]);
      assert r < n && Root(p, r) == r;
      if i < n {
        assert Root(p, i) == Root(q, i) && Root(p, r) == Root(q, r);
        assert Agree(q, links, r, i);
        SamePartition(links, final, r, i);
      }
    }
    forall i: nat | i < n ensures Placed(buckets, i) {
      assert i in q && i in p;
      assert InBucket(buckets, Root(p, i), i);
    }
  }
}
