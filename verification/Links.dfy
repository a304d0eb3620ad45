// Chains of links between numbered items, and the partition they generate, which is what the
// union-find passes are proved against.
module Links {
  type Link = (nat, nat)

  /** Two items are adjacent when a link joins them, in either direction. */
  predicate Adjacent(links: set<Link>, x: nat, y: nat) {
    (x, y) in links || (y, x) in links
  }

  /** `path` lists the items met after `x` on a walk that ends in `y`. */
  predicate IsWalk(links: set<Link>, x: nat, path: seq<nat>, y: nat)
    decreases |path|
  {
    if path == [] then x == y
    else Adjacent(links, x, path[0]) && IsWalk(links, path[0], path[1..], y)
  }

  /** Some chain of links, possibly empty, leads from `x` to `y`. */
  ghost predicate Chained(links: set<Link>, x: nat, y: nat) {
    exists path: seq<nat> :: IsWalk(links, x, path, y)
  }

  lemma ChainedSelf(links: set<Link>, x: nat)
    ensures Chained(links, x, x)
  {
    assert IsWalk(links, x, [], x);
  }

  lemma ChainedStep(links: set<Link>, x: nat, y: nat)
    requires Adjacent(links, x, y)
    ensures Chained(links, x, y)
  {
    assert IsWalk(links, y, [], y);
    assert [y][1..] == [];
    assert IsWalk(links, x, [y], y);
  }

  lemma {:induction false} WalkConcat(links: set<Link>, x: nat, p: seq<nat>, y: nat, q: seq<nat>, z: nat)
    requires IsWalk(links, x, p, y) && IsWalk(links, y, q, z)
    ensures IsWalk(links, x, p + q, z)
    decreases |p|
  {
    if p == [] {
      assert p + q == q;
    } else {
      WalkConcat(links, p[0], p[1..], y, q, z);
      assert (p + q)[1..] == p[1..] + q;
    }
  }

  lemma ChainedTrans(links: set<Link>, x: nat, y: nat, z: nat)
    requires Chained(links, x, y) && Chained(links, y, z)
    ensures Chained(links, x, z)
  {
    var p :| IsWalk(links, x, p, y);
    var q :| IsWalk(links, y, q, z);
    WalkConcat(links, x, p, y, q, z);
  }

  lemma {:induction false} WalkBack(links: set<Link>, x: nat, p: seq<nat>, y: nat)
    requires IsWalk(links, x, p, y)
    ensures Chained(links, y, x)
    decreases |p|
  {
    if p == [] {
      ChainedSelf(links, x);
    } else {
      WalkBack(links, p[0], p[1..], y);
      ChainedStep(links, p[0], x);
      ChainedTrans(links, y, p[0], x);
    }
  }

  lemma ChainedSym(links: set<Link>, x: nat, y: nat)
    ensures Chained(links, x, y) <==> Chained(links, y, x)
  {
    if Chained(links, x, y) {
      var p :| IsWalk(links, x, p, y);
      WalkBack(links, x, p, y);
    }
    if Chained(links, y, x) {
      var p :| IsWalk(links, y, p, x);
      WalkBack(links, y, p, x);
    }
  }

  /** Links that `links` already chains together add nothing. */
  ghost predicate Covers(links: set<Link>, more: set<Link>) {
    forall l <- more :: Chained(links, l.0, l.1)
  }

  lemma {:induction false} WalkCovered(links: set<Link>, more: set<Link>, x: nat, p: seq<nat>, y: nat)
    requires Covers(links, more) && IsWalk(more, x, p, y)
    ensures Chained(links, x, y)
    decreases |p|
  {
    if p == [] {
      ChainedSelf(links, x);
    } else {
      WalkCovered(links, more, p[0], p[1..], y);
      if (x, p[0]) in more {
        assert Chained(links, (x, p[0]).0, (x, p[0]).1);
      } else {
        assert Chained(links, (p[0], x).0, (p[0], x).1);
        ChainedSym(links, p[0], x);
      }
      ChainedTrans(links, x, p[0], y);
    }
  }

  lemma ChainedCovered(links: set<Link>, more: set<Link>, x: nat, y: nat)
    requires Covers(links, more) && Chained(more, x, y)
    ensures Chained(links, x, y)
  {
    var p :| IsWalk(more, x, p, y);
    WalkCovered(links, more, x, p, y);
  }

  lemma SubsetCovered(links: set<Link>, more: set<Link>)
    requires more <= links
    ensures Covers(links, more)
  {
    forall l <- more ensures Chained(links, l.0, l.1) {
      assert (l.0, l.1) in links;
      ChainedStep(links, l.0, l.1);
    }
  }

  /** More links never separate what fewer links joined. */
  lemma ChainedMono(links: set<Link>, more: set<Link>, x: nat, y: nat)
    requires links <= more && Chained(links, x, y)
    ensures Chained(more, x, y)
  {
    SubsetCovered(more, links);
    ChainedCovered(more, links, x, y);
  }

  /** Two link sets that cover each other generate the same partition. */
  lemma SamePartition(links: set<Link>, more: set<Link>, x: nat, y: nat)
    requires Covers(links, more) && Covers(more, links)
    ensures Chained(links, x, y) <==> Chained(more, x, y)
  {
    if Chained(links, x, y) {
      ChainedCovered(more, links, x, y);
    }
    if Chained(more, x, y) {
      ChainedCovered(links, more, x, y);
    }
  }

  lemma CoversTrans(a: set<Link>, b: set<Link>, c: set<Link>)
    requires Covers(a, b) && Covers(b, c)
    ensures Covers(a, c)
  {
    forall l <- c ensures Chained(a, l.0, l.1) {
      ChainedCovered(a, b, l.0, l.1);
    }
  }

  /** One more link joins exactly the two classes it touches. */
  lemma {:induction false} WalkWithOneMore(links: set<Link>, a: nat, b: nat, x: nat, p: seq<nat>, y: nat)
    requires IsWalk(links + {(a, b)}, x, p, y)
    ensures || Chained(links, x, y)
            || (Chained(links, x, a) && Chained(links, b, y))
            || (Chained(links, x, b) && Chained(links, a, y))
    decreases |p|
  {
    if p == [] {
      ChainedSelf(links, x);
    } else {
      var z := p[0];
      WalkWithOneMore(links, a, b, z, p[1..], y);
      if Adjacent(links, x, z) {
        ChainedStep(links, x, z);
        if Chained(links, z, y) {
          ChainedTrans(links, x, z, y);
        } else if Chained(links, z, a) && Chained(links, b, y) {
          ChainedTrans(links, x, z, a);
        } else {
          ChainedTrans(links, x, z, b);
        }
      } else {
        ChainedSelf(links, x);
      }
    }
  }

  lemma ChainedOneMore(links: set<Link>, a: nat, b: nat, x: nat, y: nat)
    ensures Chained(links + {(a, b)}, x, y) <==>
            || Chained(links, x, y)
            || (Chained(links, x, a) && Chained(links, b, y))
            || (Chained(links, x, b) && Chained(links, a, y))
  {
    var more := links + {(a, b)};
    if Chained(more, x, y) {
      var p :| IsWalk(more, x, p, y);
      WalkWithOneMore(links, a, b, x, p, y);
    }
    ChainedStep(more, a, b);
    ChainedStep(more, b, a);
    if Chained(links, x, y) {
      ChainedMono(links, more, x, y);
    }
    if Chained(links, x, a) && Chained(links, b, y) {
      ChainedMono(links, more, x, a);
      ChainedMono(links, more, b, y);
      ChainedTrans(more, x, a, b);
      ChainedTrans(more, x, b, y);
    }
    if Chained(links, x, b) && Chained(links, a, y) {
      ChainedMono(links, more, x, b);
      ChainedMono(links, more, a, y);
      ChainedTrans(more, x, b, a);
      ChainedTrans(more, x, a, y);
    }
  }

  ghost predicate Equivalent(a: set<Link>, b: set<Link>) {
    Covers(a, b) && Covers(b, a)
  }

  lemma EquivalentTrans(a: set<Link>, b: set<Link>, c: set<Link>)
    requires Equivalent(a, b) && Equivalent(b, c)
    ensures Equivalent(a, c)
  {
    CoversTrans(a, b, c);
    CoversTrans(c, b, a);
  }

  lemma EquivalentPlus(a: set<Link>, b: set<Link>, more: set<Link>)
    requires Equivalent(a, b)
    ensures Equivalent(a + more, b + more)
  {
    CoversPlus(a, b, more);
    CoversPlus(b, a, more);
  }

  lemma CoversPlus(a: set<Link>, b: set<Link>, more: set<Link>)
    requires Covers(a, b)
    ensures Covers(a + more, b + more)
  {
    SubsetCovered(a + more, a);
    CoversTrans(a + more, a, b);
    SubsetCovered(a + more, more);
  }
}
