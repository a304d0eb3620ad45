// The repository's two union-find forests.
module UnionFind {
  // The class of the reconciler compresses a path in a second pass; the nested functions of the
  // merge engine halve it on the way up. Both always hang the larger root below the smaller one.

  import opened Links

  type Forest = map<nat, nat>

  /** Parents never point upwards, so every walk to the root ends. */
  ghost predicate Descending(p: Forest) {
    forall x {:trigger StepsDown(p, x)} :: StepsDown(p, x)
  }

  ghost predicate StepsDown(p: Forest, x: nat) {
    x in p ==> p[x] in p && p[x] <= x
  }

  ghost function Root(p: Forest, x: nat): (r: nat)
    requires Descending(p) && x in p
    ensures r in p && p[r] == r && r <= x
  {
    assert StepsDown(p, x);
    if p[x] == x then x else Root(p, p[x])
  }

  ghost predicate SameRoots(p: Forest, q: Forest)
    requires Descending(p) && Descending(q)
  {
    && p.Keys == q.Keys
    && forall x {:trigger Root(p, x)} {:trigger Root(q, x)} | x in p :: Root(p, x) == Root(q, x)
  }

  /** The classes of the forest are those generated by `links`. */
  ghost predicate Generates(p: Forest, links: set<Link>)
    requires Descending(p)
  {
    && (forall l <- links :: l.0 in p && l.1 in p)
    && forall x, y {:trigger Agree(p, links, x, y)} :: Agree(p, links, x, y)
  }

  /** Sharing a root is being chained, for one pair. */
  ghost predicate Agree(p: Forest, links: set<Link>, x: nat, y: nat)
    requires Descending(p)
  {
    x in p && y in p ==> (Root(p, x) == Root(p, y) <==> Chained(links, x, y))
  }

  ghost predicate Partitions(p: Forest, links: set<Link>) {
    Descending(p) && Generates(p, links)
  }

  // ---- lemmas -------------------------------------------------------------------------

  /** Setting a parent at or below its node keeps the forest well founded. */
  lemma SetParent(p: Forest, x: nat, a: nat)
    requires Descending(p) && a <= x && (a in p || a == x)
    ensures Descending(p[x := a])
  {
    var q := p[x := a];
    forall y ensures StepsDown(q, y) {
      assert StepsDown(p, y);
    }
  }

  /** Pointing a node at any smaller node of its own tree moves no root. */
  lemma {:induction false} RedirectRoot(p: Forest, x: nat, a: nat, y: nat)
    requires Descending(p) && x in p && a in p && a <= x
    requires Root(p, a) == Root(p, x) && (a == x ==> p[x] == x)
    requires y in p
    ensures Descending(p[x := a]) && Root(p[x := a], y) == Root(p, y)
    decreases y
  {
    var q := p[x := a];
    SetParent(p, x, a);
    assert StepsDown(p, y);
    if y == x {
      if a < x {
        RedirectRoot(p, x, a, a);
      }
    } else if p[y] != y {
      RedirectRoot(p, x, a, p[y]);
    }
  }

  lemma {:induction false} Redirect(p: Forest, x: nat, a: nat)
    requires Descending(p) && x in p && a in p && a <= x
    requires Root(p, a) == Root(p, x) && (a == x ==> p[x] == x)
    ensures Descending(p[x := a]) && SameRoots(p, p[x := a])
  {
    SetParent(p, x, a);
    var q := p[x := a];
    forall y {:trigger Root(p, y)} {:trigger Root(q, y)} | y in p ensures Root(p, y) == Root(q, y) {
      RedirectRoot(p, x, a, y);
    }
  }

  /** Hanging one root below a smaller one moves exactly the first root's class. */
  lemma {:induction false} HangRoot(p: Forest, lo: nat, hi: nat, y: nat)
    requires Descending(p) && lo in p && hi in p && lo < hi
    requires p[lo] == lo && p[hi] == hi && y in p
    ensures Descending(p[hi := lo])
    ensures Root(p[hi := lo], y) == if Root(p, y) == hi then lo else Root(p, y)
    decreases y
  {
    SetParent(p, hi, lo);
    assert StepsDown(p, y);
    if p[y] != y {
      HangRoot(p, lo, hi, p[y]);
    }
  }

  /** An item that no link mentions is chained to itself only. */
  lemma {:induction false} WalkFromUntouched(p: Forest, links: set<Link>, x: nat, path: seq<nat>, y: nat)
    requires forall l <- links :: l.0 in p && l.1 in p
    requires IsWalk(links, x, path, y)
    ensures x == y || (x in p && y in p)
    decreases |path|
  {
    if path == [] {
    } else {
      WalkFromUntouched(p, links, path[0], path[1..], y);
      if (x, path[0]) in links {
        assert (x, path[0]).0 in p && (x, path[0]).1 in p;
      } else {
        assert (path[0], x).0 in p && (path[0], x).1 in p;
      }
    }
  }

  /** Registering a new item leaves every class alone and adds a singleton. */
  lemma AddSingleton(p: Forest, links: set<Link>, n: nat)
    requires Partitions(p, links) && n !in p
    ensures Partitions(p[n := n], links)
    ensures forall x {:trigger Root(p, x)} {:trigger Root(p[n := n], x)} | x in p :: Root(p[n := n], x) == Root(p, x)
  {
    var q := p[n := n];
    SetParent(p, n, n);
    forall x {:trigger Root(p, x)} {:trigger Root(q, x)} | x in p ensures Root(q, x) == Root(p, x) {
      RootUnmoved(p, n, x);
    }
    forall x, y ensures Agree(q, links, x, y) {
      assert Agree(p, links, x, y);
      if x in q && y in q && (x == n || y == n) {
        if x == y {
          ChainedSelf(links, x);
        } else if Chained(links, x, y) {
          var path :| IsWalk(links, x, path, y);
          WalkFromUntouched(p, links, x, path, y);
        }
      }
    }
  }

  lemma {:induction false} RootUnmoved(p: Forest, n: nat, x: nat)
    requires Descending(p) && n !in p && x in p
    ensures Descending(p[n := n]) && Root(p[n := n], x) == Root(p, x)
    decreases x
  {
    SetParent(p, n, n);
    assert StepsDown(p, x);
    if p[x] != x {
      RootUnmoved(p, n, p[x]);
    }
  }

  lemma SameRootsPartition(p: Forest, q: Forest, links: set<Link>)
    requires Partitions(p, links) && Descending(q) && SameRoots(p, q)
    ensures Partitions(q, links)
  {
    forall x, y ensures Agree(q, links, x, y) {
      assert Agree(p, links, x, y);
    }
  }

  /** Linking the classes of `a` and `b` by their roots realises the link (a, b). */
  lemma {:induction false} HangPartition(p: Forest, links: set<Link>, a: nat, b: nat, lo: nat, hi: nat)
    requires Partitions(p, links) && a in p && b in p
    requires {lo, hi} == {Root(p, a), Root(p, b)} && lo < hi
    ensures Partitions(p[hi := lo], links + {(a, b)})
  {
    var q := p[hi := lo];
    var more := links + {(a, b)};
    HangRoot(p, lo, hi, lo);
    forall x, y ensures Agree(q, more, x, y) {
      if x in p && y in p {
        HangRoot(p, lo, hi, x);
        HangRoot(p, lo, hi, y);
        ChainedOneMore(links, a, b, x, y);
        assert Agree(p, links, x, y) && Agree(p, links, x, a) && Agree(p, links, b, y);
        assert Agree(p, links, x, b) && Agree(p, links, a, y);
      }
    }
  }

  lemma {:induction false} KnownLink(p: Forest, links: set<Link>, a: nat, b: nat)
    requires Partitions(p, links) && a in p && b in p && Root(p, a) == Root(p, b)
    ensures Partitions(p, links + {(a, b)})
  {
    var more := links + {(a, b)};
    forall x, y ensures Agree(p, more, x, y) {
      ChainedOneMore(links, a, b, x, y);
      assert Agree(p, links, x, y) && Agree(p, links, x, a) && Agree(p, links, b, y);
      assert Agree(p, links, x, b) && Agree(p, links, a, y);
    }
  }

  /** A root is the least index of its class. */
  lemma {:induction false} RootIsLeast(p: Forest, links: set<Link>, x: nat, y: nat)
    requires Partitions(p, links) && x in p && y in p && Chained(links, x, y)
    ensures Root(p, x) <= y && Chained(links, Root(p, x), x)
  {
    assert Agree(p, links, x, y) && Agree(p, links, Root(p, x), x);
  }

  // ---- the reconciler's forest ----------------------------------------------------------

  class CompressingForest {
    var parent: Forest
    ghost var links: set<Link>  // every pair handed to Union so far

    ghost predicate Valid()
      reads this
    {
      Partitions(parent, links)
    }

    constructor ()
      ensures Valid() && parent == map[] && links == {}
    {
      parent := map[];
      links := {};
    }

    method Find(x: nat) returns (root: nat)
      requires Valid()
      modifies this`parent
      ensures Valid()
      ensures parent.Keys == old(parent.Keys) + {x}
      ensures root == Root(parent, x)
      ensures forall y {:trigger Root(parent, y)} | y in old(parent) :: Root(parent, y) == old(Root(parent, y))
    {
      if x !in parent {
        AddSingleton(parent, links, x);
        parent := parent[x := x];
      }
      ghost var before := parent;
      root := x;
      while parent[root] != root
        invariant root in parent && Root(parent, root) == Root(parent, x)
        decreases root
      {
        assert StepsDown(parent, root);
        root := parent[root];
      }
      var node := x;
      while parent[node] != root
        invariant Descending(parent) && SameRoots(before, parent)
        invariant node in parent && Root(parent, node) == root
        decreases node
      {
        assert StepsDown(parent, node);
        var next := parent[node];
        Redirect(parent, node, root);
        parent, node := parent[node := root], next;
      }
      SameRootsPartition(before, parent, links);
    }

    method Union(a: nat, b: nat)
      requires Valid()
      modifies this
      ensures Valid()
      ensures parent.Keys == old(parent.Keys) + {a, b}
      ensures links == old(links) + {(a, b)}
    {
      var ra := Find(a);
      var rb := Find(b);
      assert Root(parent, a) == ra;
      if ra != rb {
        var lo, hi := if ra < rb then ra else rb, if ra < rb then rb else ra;
        HangPartition(parent, links, a, b, lo, hi);
        parent := parent[hi := lo];
      } else {
        KnownLink(parent, links, a, b);
      }
      links := links + {(a, b)};
    }
  }

  // ---- the merge engine's forest ----------------------------------------------------------

  class HalvingForest {
    var parent: Forest
    ghost var links: set<Link>  // every pair handed to Union so far

    ghost predicate Valid()
      reads this
    {
      Partitions(parent, links)
    }

    constructor ()
      ensures Valid() && parent == map[] && links == {}
    {
      parent := map[];
      links := {};
    }

    method Find(x: nat) returns (root: nat)
      requires Valid()
      modifies this`parent
      ensures Valid()
      ensures parent.Keys == old(parent.Keys) + {x}
      ensures root == Root(parent, x)
      ensures forall y {:trigger Root(parent, y)} | y in old(parent) :: Root(parent, y) == old(Root(parent, y))
    {
      if x !in parent {
        AddSingleton(parent, links, x);
        parent := parent[x := x];
      }
      ghost var before := parent;
      root := x;
      while parent[root] != root
        invariant Descending(parent) && SameRoots(before, parent)
        invariant root in parent && Root(parent, root) == Root(parent, x)
        decreases root
      {
        assert StepsDown(parent, root) && StepsDown(parent, parent[root]);
        Redirect(parent, root, parent[parent[root]]);
        parent := parent[root := parent[parent[root]]];
        root := parent[root];
      }
      SameRootsPartition(before, parent, links);
    }

    method Union(a: nat, b: nat)
      requires Valid()
      modifies this
      ensures Valid()
      ensures parent.Keys == old(parent.Keys) + {a, b}
      ensures links == old(links) + {(a, b)}
    {
      var ra := Find(a);
      var rb := Find(b);
      assert Root(parent, a) == ra;
      if ra != rb {
        var lo, hi := if ra < rb then ra else rb, if ra < rb then rb else ra;
        HangPartition(parent, links, a, b, lo, hi);
        parent := parent[hi := lo];
      } else {
        KnownLink(parent, links, a, b);
      }
      links := links + {(a, b)};
    }
  }
}
