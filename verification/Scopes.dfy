// Dependency edges and scopes.
module Scopes {
  // Merging edge claims, the gated worklist walk, and scope propagation.

  import opened Basics
  import opened Seqs

  datatype Scope = Runtime | Dev | Build | Test | OptionalScope | Provided

  /** What `_EXTRA_MARKER_RE` makes of a non-empty marker. */
  datatype Marker = Environment | Extra

  datatype Attrs = Attrs(scope: Option<Scope>, marker: Option<Marker>)

  /** A dependency claim whose references have been resolved, or not. */
  datatype Claim = Claim(src: Option<nat>, dst: Option<nat>, attrs: Attrs) {
    predicate Usable() {
      src.Some? && dst.Some? && src != dst
    }
  }

  type Pair = (nat, nat)
  type Merged = map<Pair, Attrs>

  predicate ExtrasGated(attrs: Attrs) {
    attrs.marker == Some(Extra)
  }

  // ---- merging claims -------------------------------------------------------------------

  /** The first scope wins, the last marker wins. */
  function Overlay(cur: Attrs, claim: Attrs): Attrs {
    Attrs(if cur.scope.Some? then cur.scope else claim.scope,
          if claim.marker.Some? then claim.marker else cur.marker)
  }

  method MergeClaims(claims: seq<Claim>) returns (merged: Merged, dropped: nat)
    ensures merged == MergedEdges(claims)
    ensures dropped + |Used(claims)| == |claims|
  {
    merged, dropped := map[], 0;
    for k := 0 to |claims|
      invariant merged == MergedEdges(claims[..k])
      invariant dropped + |Used(claims[..k])| == k
    {
      var c := claims[k];
      assert claims[..k + 1][..k] == claims[..k];
      if !c.Usable() {
        dropped := dropped + 1;
      } else {
        var pair := (c.src.value, c.dst.value);
        var cur := if pair in merged then merged[pair] else Attrs(None, None);
        merged := merged[pair := Overlay(cur, c.attrs)];
      }
    }
    assert claims[..|claims|] == claims;
  }

  function Used(claims: seq<Claim>): seq<Claim> {
    if claims == [] then []
    else
      var last := claims[|claims| - 1];
      Used(claims[..|claims| - 1]) + if last.Usable() then [last] else []
  }

  function MergedEdges(claims: seq<Claim>): Merged {
    if claims == [] then map[]
    else
      var before, c := MergedEdges(claims[..|claims| - 1]), claims[|claims| - 1];
      if !c.Usable() then before
      else
        var pair := (c.src.value, c.dst.value);
        var cur := if pair in before then before[pair] else Attrs(None, None);
        before[pair := Overlay(cur, c.attrs)]
  }

  /** The claims that speak about one pair, in order. */
  function About(claims: seq<Claim>, pair: Pair): seq<Attrs> {
    if claims == [] then []
    else
      var c := claims[|claims| - 1];
      About(claims[..|claims| - 1], pair)
      + if c.Usable() && (c.src.value, c.dst.value) == pair then [c.attrs] else []
  }

  function LastMarker(attrs: seq<Attrs>): Option<Marker> {
    if attrs == [] then None
    else if attrs[|attrs| - 1].marker.Some? then attrs[|attrs| - 1].marker
    else LastMarker(attrs[..|attrs| - 1])
  }

  function FirstScope(attrs: seq<Attrs>): Option<Scope> {
    if attrs == [] then None
    else if attrs[0].scope.Some? then attrs[0].scope
    else FirstScope(attrs[1..])
  }

  lemma {:induction false} FirstScopeSnoc(attrs: seq<Attrs>, last: Attrs)
    ensures FirstScope(attrs + [last]) == if FirstScope(attrs).Some? then FirstScope(attrs) else last.scope
  {
    if attrs == [] {
    } else {
      FirstScopeSnoc(attrs[1..], last);
      assert (attrs + [last])[1..] == attrs[1..] + [last];
    }
  }

  lemma {:induction false} LastMarkerSnoc(attrs: seq<Attrs>, last: Attrs)
    ensures LastMarker(attrs + [last]) == if last.marker.Some? then last.marker else LastMarker(attrs)
  {
    assert (attrs + [last])[..|attrs|] == attrs;
  }

  /** A pair is merged exactly when some claim names it; its scope is the first claimed, its
      marker the last claimed. */
  lemma {:induction false} MergedMeans(claims: seq<Claim>, pair: Pair)
    ensures pair in MergedEdges(claims) <==> About(claims, pair) != []
    ensures pair in MergedEdges(claims) ==>
              MergedEdges(claims)[pair] == Attrs(FirstScope(About(claims, pair)), LastMarker(About(claims, pair)))
  {
    if claims == [] {
    } else {
      var rest, c := claims[..|claims| - 1], claims[|claims| - 1];
      MergedMeans(rest, pair);
      var before := About(rest, pair);
      if c.Usable() && (c.src.value, c.dst.value) == pair {
        FirstScopeSnoc(before, c.attrs);
        LastMarkerSnoc(before, c.attrs);
      } else {
        assert About(claims, pair) == before;
      }
    }
  }

  /** The edge that claims make between a pair is gated behind an extra. */
  predicate EdgeGated(claims: seq<Claim>, pair: Pair) {
    pair in MergedEdges(claims) && ExtrasGated(MergedEdges(claims)[pair])
  }

  predicate Marks(c: Claim, pair: Pair, marker: Marker) {
    c.Usable() && (c.src.value, c.dst.value) == pair && c.attrs.marker == Some(marker)
  }

  predicate Marked(claims: seq<Claim>, pair: Pair, marker: Marker) {
    exists c :: c in claims && Marks(c, pair, marker)
  }

  lemma MarkedSnoc(claims: seq<Claim>, c: Claim, pair: Pair, marker: Marker)
    ensures Marked(claims + [c], pair, marker) <==> Marked(claims, pair, marker) || Marks(c, pair, marker)
  {
    if Marks(c, pair, marker) {
      assert c in claims + [c];
    }
    if d :| d in claims && Marks(d, pair, marker) {
      assert d in claims + [c];
    }
  }

  lemma {:induction false} GatedMeans(claims: seq<Claim>, pair: Pair)
    requires !(Marked(claims, pair, Extra) && Marked(claims, pair, Environment))
    ensures EdgeGated(claims, pair) <==> Marked(claims, pair, Extra)
  {
    if claims == [] {
    } else {
      var rest, c := claims[..|claims| - 1], claims[|claims| - 1];
      assert claims == rest + [c];
      MarkedSnoc(rest, c, pair, Extra);
      MarkedSnoc(rest, c, pair, Environment);
      GatedMeans(rest, pair);
      if c.Usable() && (c.src.value, c.dst.value) == pair {
        var cur := if pair in MergedEdges(rest) then MergedEdges(rest)[pair] else Attrs(None, None);
        assert MergedEdges(claims)[pair] == Overlay(cur, c.attrs);
        assert c.attrs.marker.None? || c.attrs.marker.value.Extra? || c.attrs.marker.value.Environment?;
      }
    }
  }

  /** The gating of an edge is the same for every order of the claims exactly when the markers
      claimed for its pair are not of both kinds. */
  lemma OrderMattersIffMixed(claims: seq<Claim>, pair: Pair)
    ensures (forall shuffled: seq<Claim> | multiset(shuffled) == multiset(claims) ::
               EdgeGated(shuffled, pair) == EdgeGated(claims, pair))
       <==> !(Marked(claims, pair, Extra) && Marked(claims, pair, Environment))
  {
    if Marked(claims, pair, Extra) && Marked(claims, pair, Environment) {
      var other := if EdgeGated(claims, pair) then Environment else Extra;
      var c :| c in claims && Marks(c, pair, other);
      var k: nat :| k < |claims| && claims[k] == c;
      var shuffled := Without(claims, k) + [c];
      WithoutMultiset(claims, k);
      assert shuffled[..|shuffled| - 1] == Without(claims, k);
      assert multiset(shuffled) == multiset(claims) && EdgeGated(shuffled, pair) != EdgeGated(claims, pair);
    } else {
      forall shuffled: seq<Claim> | multiset(shuffled) == multiset(claims)
        ensures EdgeGated(shuffled, pair) == EdgeGated(claims, pair)
      {
        SameElements(shuffled, claims);
        GatedMeans(claims, pair);
        GatedMeans(shuffled, pair);
      }
    }
  }

  // ---- the walk -------------------------------------------------------------------------

  datatype Arc = Arc(dst: nat, attrs: Attrs)
  type Graph = map<nat, seq<Arc>>

  function Arcs(g: Graph, n: nat): seq<Arc> {
    if n in g then g[n] else []
  }

  predicate Open(arc: Arc, followExtras: bool) {
    followExtras || !ExtrasGated(arc.attrs)
  }

  ghost predicate Steps(g: Graph, followExtras: bool, m: nat, n: nat) {
    exists arc :: arc in Arcs(g, m) && arc.dst == n && Open(arc, followExtras)
  }

  ghost predicate GatedStep(g: Graph, followExtras: bool, m: nat, n: nat) {
    exists arc :: arc in Arcs(g, m) && arc.dst == n && !Open(arc, followExtras)
  }

  /** `path` is a walk from a root to the node before n, and n follows it. */
  ghost predicate ReachedBy(g: Graph, followExtras: bool, roots: set<nat>, path: seq<nat>, n: nat)
    decreases |path|
  {
    if path == [] then n in roots
    else
      var m := path[|path| - 1];
      Steps(g, followExtras, m, n) && ReachedBy(g, followExtras, roots, path[..|path| - 1], m)
  }

  ghost predicate Reachable(g: Graph, followExtras: bool, roots: set<nat>, n: nat) {
    exists path :: ReachedBy(g, followExtras, roots, path, n)
  }

  lemma ReachableRoot(g: Graph, followExtras: bool, roots: set<nat>, n: nat)
    requires n in roots
    ensures Reachable(g, followExtras, roots, n)
  {
    assert ReachedBy(g, followExtras, roots, [], n);
  }

  lemma ReachableStep(g: Graph, followExtras: bool, roots: set<nat>, m: nat, n: nat)
    requires Reachable(g, followExtras, roots, m) && Steps(g, followExtras, m, n)
    ensures Reachable(g, followExtras, roots, n)
  {
    var path :| ReachedBy(g, followExtras, roots, path, m);
    assert (path + [m])[..|path|] == path;
    assert ReachedBy(g, followExtras, roots, path + [m], n);
  }

  /** Any set that holds the roots and is closed under open arcs holds all that is reachable. */
  lemma {:induction false} ClosedHolds(g: Graph, followExtras: bool, roots: set<nat>, s: set<nat>, path: seq<nat>,
                                       n: nat)
    requires roots <= s && forall m, k | m in s && Steps(g, followExtras, m, k) :: k in s
    requires ReachedBy(g, followExtras, roots, path, n)
    ensures n in s
    decreases |path|
  {
    if path == [] {
    } else {
      ClosedHolds(g, followExtras, roots, s, path[..|path| - 1], path[|path| - 1]);
    }
  }

  function Nodes(g: Graph): set<nat> {
    set n, a | n in g && a in g[n] :: a.dst
  }

  /** Node m has been expanded: its open targets are reached, its gated ones recorded. */
  ghost predicate Expanded(g: Graph, followExtras: bool, reached: set<nat>, gated: set<nat>, m: nat) {
    forall a <- Arcs(g, m) :: if Open(a, followExtras) then a.dst in reached else a.dst in gated
  }

  ghost predicate Recorded(g: Graph, followExtras: bool, reached: set<nat>, n: nat) {
    exists m: nat :: m in reached && GatedStep(g, followExtras, m, n)
  }

  ghost predicate Sound(g: Graph, followExtras: bool, roots: set<nat>, reached: set<nat>, gated: set<nat>) {
    && roots <= reached <= roots + Nodes(g)
    && (forall n {:trigger Reachable(g, followExtras, roots, n)} | n in reached :: Reachable(g, followExtras, roots, n))
    && (forall n {:trigger Recorded(g, followExtras, reached, n)} | n in gated :: Recorded(g, followExtras, reached, n))
  }

  method Reach(g: Graph, roots: set<nat>, followExtras: bool) returns (reached: set<nat>, gated: set<nat>)
    ensures forall n: nat :: n in reached <==> Reachable(g, followExtras, roots, n)
    ensures forall n: nat :: n in gated <==> Recorded(g, followExtras, reached, n)
  {
    reached, gated := roots, {};
    var frontier := Listed(roots);
    forall n | n in roots ensures Reachable(g, followExtras, roots, n) {
      ReachableRoot(g, followExtras, roots, n);
    }
    while frontier != []
      invariant Sound(g, followExtras, roots, reached, gated)
      invariant forall n <- frontier :: n in reached
      invariant forall m <- reached :: m in frontier || Expanded(g, followExtras, reached, gated, m)
      decreases roots + Nodes(g) - reached, |frontier|
    {
      var node := frontier[|frontier| - 1];
      assert node in frontier;
      ghost var last := frontier;
      frontier := frontier[..|frontier| - 1];
      assert last == frontier + [node];
      reached, gated, frontier := Expand(g, roots, followExtras, node, reached, gated, frontier);
    }
    WalkDone(g, followExtras, roots, reached, gated);
  }

  lemma WalkDone(g: Graph, followExtras: bool, roots: set<nat>, reached: set<nat>, gated: set<nat>)
    requires Sound(g, followExtras, roots, reached, gated)
    requires forall m <- reached :: Expanded(g, followExtras, reached, gated, m)
    ensures forall n: nat :: n in reached <==> Reachable(g, followExtras, roots, n)
    ensures forall n: nat :: n in gated <==> Recorded(g, followExtras, reached, n)
  {
    forall n: nat ensures n in reached <==> Reachable(g, followExtras, roots, n) {
      if Reachable(g, followExtras, roots, n) {
        var path :| ReachedBy(g, followExtras, roots, path, n);
        ClosedHolds(g, followExtras, roots, reached, path, n);
      }
    }
    forall n: nat ensures n in gated <==> Recorded(g, followExtras, reached, n) {
      if Recorded(g, followExtras, reached, n) {
        var m: nat :| m in reached && GatedStep(g, followExtras, m, n);
        assert Expanded(g, followExtras, reached, gated, m);
      }
    }
  }

  method Listed(s: set<nat>) returns (r: seq<nat>)
    ensures forall n :: n in r <==> n in s
  {
    r := [];
    var todo := s;
    while todo != {}
      invariant todo <= s && forall n :: n in r <==> n in s && n !in todo
      decreases |todo|
    {
      var n :| n in todo;
      r := r + [n];
      todo := todo - {n};
    }
  }

  lemma SoundMore(g: Graph, followExtras: bool, roots: set<nat>, reached: set<nat>, gated: set<nat>, n: nat)
    requires Sound(g, followExtras, roots, reached, gated)
    requires n in Nodes(g) && Reachable(g, followExtras, roots, n)
    ensures Sound(g, followExtras, roots, reached + {n}, gated)
  {
    var more := reached + {n};
    forall k | k in gated ensures Recorded(g, followExtras, more, k) {
      assert Recorded(g, followExtras, reached, k);
      var m: nat :| m in reached && GatedStep(g, followExtras, m, k);
      assert m in more;
    }
  }

  /** The inner loop: one node's arcs. */
  method Expand(g: Graph, roots: set<nat>, followExtras: bool, node: nat,
                reached: set<nat>, gated: set<nat>, frontier: seq<nat>)
    returns (reached': set<nat>, gated': set<nat>, frontier': seq<nat>)
    requires Sound(g, followExtras, roots, reached, gated) && node in reached
    requires forall n <- frontier :: n in reached
    requires forall m <- reached :: m == node || m in frontier || Expanded(g, followExtras, reached, gated, m)
    ensures Sound(g, followExtras, roots, reached', gated') && reached <= reached'
    ensures forall n <- frontier' :: n in reached'
    ensures forall m <- reached' :: m in frontier' || Expanded(g, followExtras, reached', gated', m)
    ensures reached' == reached ==> frontier' == frontier
  {
    reached', gated', frontier' := reached, gated, frontier;
    var arcs := Arcs(g, node);
    for k := 0 to |arcs|
      invariant Sound(g, followExtras, roots, reached', gated') && reached <= reached' && gated <= gated'
      invariant forall n <- frontier' :: n in reached'
      invariant forall a <- arcs[..k] :: if Open(a, followExtras) then a.dst in reached' else a.dst in gated'
      invariant forall n <- frontier :: n in frontier'
      invariant forall n <- reached' :: n in reached || n in frontier'
      invariant reached' == reached ==> frontier' == frontier
    {
      var a := arcs[k];
      assert a in arcs && arcs[..k + 1] == arcs[..k] + [a];
      if !Open(a, followExtras) {
        assert GatedStep(g, followExtras, node, a.dst);
        assert Recorded(g, followExtras, reached', a.dst);
        gated' := gated' + {a.dst};
      } else if a.dst !in reached' {
        assert Steps(g, followExtras, node, a.dst);
        ReachableStep(g, followExtras, roots, node, a.dst);
        SoundMore(g, followExtras, roots, reached', gated', a.dst);
        reached' := reached' + {a.dst};
        frontier' := frontier' + [a.dst];
      }
    }
    assert arcs[..|arcs|] == arcs;
    forall m | m in reached' ensures m in frontier' || Expanded(g, followExtras, reached', gated', m) {
      if m in reached && m != node && m !in frontier {
        assert Expanded(g, followExtras, reached, gated, m);
      }
    }
  }

  // ---- what an extras-gated claim can change ----------------------------------------------

  /** `g` is the adjacency built from the merged edges. */
  ghost predicate IsAdjacency(merged: Merged, g: Graph) {
    forall m: nat, arc {:trigger arc in Arcs(g, m)} ::
      arc in Arcs(g, m) <==> (m, arc.dst) in merged && merged[(m, arc.dst)] == arc.attrs
  }

  lemma StepsOfMerged(merged: Merged, g: Graph, followExtras: bool, m: nat, n: nat)
    requires IsAdjacency(merged, g)
    ensures Steps(g, followExtras, m, n) <==> (m, n) in merged && (followExtras || !ExtrasGated(merged[(m, n)]))
  {
    if (m, n) in merged {
      assert Arc(n, merged[(m, n)]) in Arcs(g, m);
    }
  }

  lemma {:induction false} FewerSteps(g: Graph, h: Graph, followExtras: bool, roots: set<nat>, path: seq<nat>, n: nat)
    requires forall m: nat, k: nat | Steps(g, followExtras, m, k) :: Steps(h, followExtras, m, k)
    requires ReachedBy(g, followExtras, roots, path, n)
    ensures Reachable(h, followExtras, roots, n)
    decreases |path|
  {
    if path == [] {
      ReachableRoot(h, followExtras, roots, n);
    } else {
      var m := path[|path| - 1];
      FewerSteps(g, h, followExtras, roots, path[..|path| - 1], m);
      ReachableStep(h, followExtras, roots, m, n);
    }
  }

  function Dropping(arcs: seq<Arc>, b: nat): (r: seq<Arc>)
    ensures forall a :: a in r <==> a in arcs && a.dst != b
  {
    if arcs == [] then []
    else (if arcs[0].dst == b then [] else [arcs[0]]) + Dropping(arcs[1..], b)
  }

  /** The graph without its arcs from a to b. */
  function Cut(g: Graph, a: nat, b: nat): Graph {
    g[a := Dropping(Arcs(g, a), b)]
  }

  /** Every ungated walk of `g` survives in `h` when the one lost arc has a detour there. */
  lemma {:induction false} DetourWalk(g: Graph, h: Graph, a: nat, b: nat, roots: set<nat>, path: seq<nat>, n: nat)
    requires forall m: nat, k: nat | Steps(g, false, m, k) && (m, k) != (a, b) :: Steps(h, false, m, k)
    requires Reachable(h, false, {a}, b) && ReachedBy(g, false, roots, path, n)
    ensures Reachable(h, false, roots, n)
    decreases |path|
  {
    if path == [] {
      ReachableRoot(h, false, roots, n);
    } else {
      var m := path[|path| - 1];
      DetourWalk(g, h, a, b, roots, path[..|path| - 1], m);
      if (m, n) == (a, b) {
        var detour :| ReachedBy(h, false, {a}, detour, b);
        Spliced(h, roots, a, detour, b);
      } else {
        ReachableStep(h, false, roots, m, n);
      }
    }
  }

  lemma {:induction false} Spliced(g: Graph, roots: set<nat>, a: nat, path: seq<nat>, n: nat)
    requires Reachable(g, false, roots, a) && ReachedBy(g, false, {a}, path, n)
    ensures Reachable(g, false, roots, n)
    decreases |path|
  {
    if path == [] {
    } else {
      Spliced(g, roots, a, path[..|path| - 1], path[|path| - 1]);
      ReachableStep(g, false, roots, path[|path| - 1], n);
    }
  }

  ghost predicate SameReach(g: Graph, h: Graph) {
    forall roots: set<nat>, n: nat :: Reachable(g, false, roots, n) <==> Reachable(h, false, roots, n)
  }

  lemma {:induction false} AppendedSteps(claims: seq<Claim>, c: Claim, g: Graph, h: Graph, m: nat, n: nat)
    requires c.Usable() && c.attrs.marker == Some(Extra)
    requires IsAdjacency(MergedEdges(claims), g) && IsAdjacency(MergedEdges(claims + [c]), h)
    ensures Steps(h, false, m, n) <==> Steps(g, false, m, n) && (m, n) != (c.src.value, c.dst.value)
    ensures Steps(Cut(g, c.src.value, c.dst.value), false, m, n) <==> Steps(h, false, m, n)
  {
    assert (claims + [c])[..|claims|] == claims;
    StepsOfMerged(MergedEdges(claims), g, false, m, n);
    StepsOfMerged(MergedEdges(claims + [c]), h, false, m, n);
    var cut := Cut(g, c.src.value, c.dst.value);
    forall arc ensures arc in Arcs(cut, m) <==> arc in Arcs(g, m) && (m, arc.dst) != (c.src.value, c.dst.value) {}
  }

  /** Appending an extras-gated claim leaves every ungated walk's outcome alone exactly when
      its pair had no open edge yet, or still has another open way round. */
  lemma {:induction false} GatedClaimHarmlessIff(claims: seq<Claim>, c: Claim, g: Graph, h: Graph)
    requires c.Usable() && c.attrs.marker == Some(Extra)
    requires IsAdjacency(MergedEdges(claims), g) && IsAdjacency(MergedEdges(claims + [c]), h)
    ensures SameReach(g, h) <==>
            || !Steps(g, false, c.src.value, c.dst.value)
            || Reachable(Cut(g, c.src.value, c.dst.value), false, {c.src.value}, c.dst.value)
  {
    var a, b := c.src.value, c.dst.value;
    var cut := Cut(g, a, b);
    forall m: nat, n: nat
      ensures Steps(h, false, m, n) <==> Steps(g, false, m, n) && (m, n) != (a, b)
      ensures Steps(cut, false, m, n) <==> Steps(h, false, m, n)
    {
      AppendedSteps(claims, c, g, h, m, n);
    }
    CutReach(cut, h, {a}, b);
    if !Steps(g, false, a, b) || Reachable(h, false, {a}, b) {
      forall roots: set<nat>, n: nat ensures Reachable(g, false, roots, n) <==> Reachable(h, false, roots, n) {
        if Reachable(h, false, roots, n) {
          var path :| ReachedBy(h, false, roots, path, n);
          FewerSteps(h, g, false, roots, path, n);
        }
        if Reachable(g, false, roots, n) {
          var path :| ReachedBy(g, false, roots, path, n);
          if Steps(g, false, a, b) {
            DetourWalk(g, h, a, b, roots, path, n);
          } else {
            FewerSteps(g, h, false, roots, path, n);
          }
        }
      }
    } else {
      ReachableRoot(g, false, {a}, a);
      ReachableStep(g, false, {a}, a, b);
    }
  }

  lemma CutReach(cut: Graph, h: Graph, roots: set<nat>, n: nat)
    requires forall m: nat, k: nat :: Steps(cut, false, m, k) <==> Steps(h, false, m, k)
    ensures Reachable(cut, false, roots, n) <==> Reachable(h, false, roots, n)
  {
    if Reachable(cut, false, roots, n) {
      var path :| ReachedBy(cut, false, roots, path, n);
      FewerSteps(cut, h, false, roots, path, n);
    }
    if Reachable(h, false, roots, n) {
      var path :| ReachedBy(h, false, roots, path, n);
      FewerSteps(h, cut, false, roots, path, n);
    }
  }

  /** Every ungated walk of `g` survives in `h` when the head of the one lost arc is still
      reached, or its tail never was. */
  lemma {:induction false} DetouredWalk(g: Graph, h: Graph, a: nat, b: nat, roots: set<nat>, path: seq<nat>, n: nat)
    requires forall m: nat, k: nat | Steps(g, false, m, k) && (m, k) != (a, b) :: Steps(h, false, m, k)
    requires Reachable(h, false, roots, b) || !Reachable(g, false, roots, a)
    requires ReachedBy(g, false, roots, path, n)
    ensures Reachable(h, false, roots, n)
    decreases |path|
  {
    if path == [] {
      ReachableRoot(h, false, roots, n);
    } else {
      var m := path[|path| - 1];
      DetouredWalk(g, h, a, b, roots, path[..|path| - 1], m);
      assert Reachable(g, false, roots, m);
      if (m, n) != (a, b) {
        ReachableStep(h, false, roots, m, n);
      }
    }
  }

  /** For one set of roots: the claim leaves alone what they reach exactly when its edge was not
      open, its source is not reached, or its target is still reached without the edge. */
  lemma {:induction false} HarmlessFromIff(claims: seq<Claim>, c: Claim, g: Graph, h: Graph, roots: set<nat>)
    requires c.Usable() && c.attrs.marker == Some(Extra)
    requires IsAdjacency(MergedEdges(claims), g) && IsAdjacency(MergedEdges(claims + [c]), h)
    ensures (forall n: nat :: Reachable(g, false, roots, n) <==> Reachable(h, false, roots, n))
       <==> || !Steps(g, false, c.src.value, c.dst.value)
            || !Reachable(g, false, roots, c.src.value)
            || Reachable(Cut(g, c.src.value, c.dst.value), false, roots, c.dst.value)
  {
    var a, b := c.src.value, c.dst.value;
    forall m: nat, n: nat
      ensures Steps(h, false, m, n) <==> Steps(g, false, m, n) && (m, n) != (a, b)
      ensures Steps(Cut(g, a, b), false, m, n) <==> Steps(h, false, m, n)
    {
      AppendedSteps(claims, c, g, h, m, n);
    }
    CutReach(Cut(g, a, b), h, roots, b);
    if !Steps(g, false, a, b) || !Reachable(g, false, roots, a) || Reachable(h, false, roots, b) {
      forall n: nat ensures Reachable(g, false, roots, n) <==> Reachable(h, false, roots, n) {
        if Reachable(h, false, roots, n) {
          var path :| ReachedBy(h, false, roots, path, n);
          FewerSteps(h, g, false, roots, path, n);
        }
        if Reachable(g, false, roots, n) {
          var path :| ReachedBy(g, false, roots, path, n);
          if !Steps(g, false, a, b) {
            FewerSteps(g, h, false, roots, path, n);
          } else {
            DetouredWalk(g, h, a, b, roots, path, n);
          }
        }
      }
    } else {
      ReachableStep(g, false, roots, a, b);
    }
  }

  /** The failing input: an unconditional dependency 1 -> 2 that is claimed a second time
      behind an extra is no longer walked. */
  lemma GatedClaimCanHide()
    ensures var plain := Claim(Some(1), Some(2), Attrs(None, None));
            var extra := Claim(Some(1), Some(2), Attrs(None, Some(Extra)));
            && !ExtrasGated(MergedEdges([plain])[(1, 2)])
            && ExtrasGated(MergedEdges([plain, extra])[(1, 2)])
  {
    var plain := Claim(Some(1), Some(2), Attrs(None, None));
    var extra := Claim(Some(1), Some(2), Attrs(None, Some(Extra)));
    assert [plain, extra][..1] == [plain] && [plain][..0] == [];
    assert MergedEdges([plain])[(1, 2)] == Attrs(None, None);
  }

  // ---- scope propagation ------------------------------------------------------------------

  method BuildAdjacency(merged: Merged) returns (g: Graph)
    ensures IsAdjacency(merged, g)
  {
    g := map[];
    var todo := merged.Keys;
    while todo != {}
      invariant todo <= merged.Keys
      invariant forall m: nat, arc {:trigger arc in Arcs(g, m)} :: arc in Arcs(g, m) <==>
                  (m, arc.dst) in merged && (m, arc.dst) !in todo && merged[(m, arc.dst)] == arc.attrs
      decreases |todo|
    {
      var pair :| pair in todo;
      ghost var before := g;
      g := g[pair.0 := Arcs(g, pair.0) + [Arc(pair.1, merged[pair])]];
      forall m: nat, arc ensures arc in Arcs(g, m) <==>
          arc in Arcs(before, m) || (m == pair.0 && arc == Arc(pair.1, merged[pair])) {}
      todo := todo - {pair};
    }
  }

  datatype RootKind = RuntimeRoot | DevRoot | BuildRoot | OptionalRoot

  /** Which walk a direct project dependency starts, by its declared scope. */
  function KindOf(attrs: Attrs): RootKind {
    match attrs.scope
    case Some(Build) => BuildRoot
    case Some(OptionalScope) => OptionalRoot
    case Some(Dev) => DevRoot
    case Some(Test) => DevRoot
    case _ => RuntimeRoot
  }

  ghost predicate DirectArc(g: Graph, projects: seq<nat>, arc: Arc) {
    exists p :: p in projects && arc in Arcs(g, p)
  }

  ghost predicate IsRoot(g: Graph, projects: seq<nat>, kind: RootKind, n: nat) {
    exists arc :: DirectArc(g, projects, arc) && arc.dst == n && KindOf(arc.attrs) == kind
  }

  /** Every direct claim on n carries a marker. */
  ghost predicate OnlyConditional(g: Graph, projects: seq<nat>, n: nat) {
    && (exists arc :: DirectArc(g, projects, arc) && arc.dst == n)
    && forall arc | DirectArc(g, projects, arc) && arc.dst == n :: arc.attrs.marker.Some?
  }

  datatype Roots = Roots(runtime: set<nat>, dev: set<nat>, build: set<nat>, optional: set<nat>,
                         conditional: map<nat, bool>)

  function Note(r: Roots, arc: Arc): Roots {
    var n := arc.dst;
    var conditional := r.conditional[n := arc.attrs.marker.Some? && (n in r.conditional ==> r.conditional[n])];
    match KindOf(arc.attrs)
    case BuildRoot => r.(build := r.build + {n}, conditional := conditional)
    case OptionalRoot => r.(optional := r.optional + {n}, conditional := conditional)
    case DevRoot => r.(dev := r.dev + {n}, conditional := conditional)
    case RuntimeRoot => r.(runtime := r.runtime + {n}, conditional := conditional)
  }

  function RootSet(r: Roots, kind: RootKind): set<nat> {
    match kind
    case RuntimeRoot => r.runtime
    case DevRoot => r.dev
    case BuildRoot => r.build
    case OptionalRoot => r.optional
  }

  /** `r` collects exactly the arcs in `seen`. */
  ghost predicate Collects(r: Roots, seen: set<Arc>) {
    && (forall kind, n: nat ::
          n in RootSet(r, kind) <==> exists a :: a in seen && a.dst == n && KindOf(a.attrs) == kind)
    && (forall n: nat :: n in r.conditional <==> exists a :: a in seen && a.dst == n)
    && (forall n: nat | n in r.conditional ::
          r.conditional[n] <==> forall a | a in seen && a.dst == n :: a.attrs.marker.Some?)
  }

  lemma NoteCollects(r: Roots, seen: set<Arc>, arc: Arc)
    requires Collects(r, seen)
    ensures Collects(Note(r, arc), seen + {arc})
  {
    var s := Note(r, arc);
    forall kind, n: nat
      ensures n in RootSet(s, kind) <==> exists a :: a in seen + {arc} && a.dst == n && KindOf(a.attrs) == kind
    {
      assert n in RootSet(s, kind) <==> n in RootSet(r, kind) || (n == arc.dst && kind == KindOf(arc.attrs));
      assert arc in seen + {arc};
    }
    forall n: nat ensures n in s.conditional <==> exists a :: a in seen + {arc} && a.dst == n {
      assert arc in seen + {arc};
    }
  }

  method ProjectRoots(g: Graph, projects: seq<nat>) returns (r: Roots)
    ensures forall kind, n: nat :: n in RootSet(r, kind) <==> IsRoot(g, projects, kind, n)
    ensures forall n: nat :: n in r.conditional && r.conditional[n] <==> OnlyConditional(g, projects, n)
  {
    r := Roots({}, {}, {}, {}, map[]);
    ghost var seen: set<Arc> := {};
    for k := 0 to |projects|
      invariant Collects(r, seen)
      invariant forall arc :: arc in seen <==> DirectArc(g, projects[..k], arc)
    {
      var arcs := Arcs(g, projects[k]);
      for j := 0 to |arcs|
        invariant Collects(r, seen)
        invariant forall arc :: arc in seen <==> DirectArc(g, projects[..k], arc) || arc in arcs[..j]
      {
        NoteCollects(r, seen, arcs[j]);
        r, seen := Note(r, arcs[j]), seen + {arcs[j]};
        assert arcs[..j + 1] == arcs[..j] + [arcs[j]];
      }
      assert arcs[..|arcs|] == arcs;
      assert projects[..k + 1] == projects[..k] + [projects[k]];
    }
    assert projects[..|projects|] == projects;
  }

  datatype Spread = Spread(runtime: set<nat>, dev: set<nat>, build: set<nat>, optional: set<nat>, extrasGated: set<nat>,
                           conditional: map<nat, bool>)

  ghost predicate InReach(g: Graph, projects: seq<nat>, kind: RootKind, n: nat) {
    exists roots: set<nat> :: IsRootSet(g, projects, kind, roots) && Reachable(g, false, roots, n)
  }

  ghost predicate IsRootSet(g: Graph, projects: seq<nat>, kind: RootKind, roots: set<nat>) {
    forall n: nat :: n in roots <==> IsRoot(g, projects, kind, n)
  }

  /** A target some runtime- or dev-reached node only offers behind an extra. */
  ghost predicate Offered(g: Graph, projects: seq<nat>, n: nat) {
    exists m: nat :: (InReach(g, projects, RuntimeRoot, m) || InReach(g, projects, DevRoot, m))
                     && GatedStep(g, false, m, n)
  }

  ghost predicate IsOptionalRootSet(g: Graph, projects: seq<nat>, roots: set<nat>) {
    forall n: nat :: n in roots <==> IsRoot(g, projects, OptionalRoot, n) || Offered(g, projects, n)
  }

  /** Opting into an extra pulls in its whole subtree, so this walk follows every arc. */
  ghost predicate InOptionalReach(g: Graph, projects: seq<nat>, n: nat) {
    exists roots: set<nat> :: IsOptionalRootSet(g, projects, roots) && Reachable(g, true, roots, n)
  }

  method Propagate(g: Graph, projects: seq<nat>) returns (s: Spread)
    ensures forall n: nat :: n in s.runtime <==> InReach(g, projects, RuntimeRoot, n)
    ensures forall n: nat :: n in s.dev <==> InReach(g, projects, DevRoot, n)
    ensures forall n: nat :: n in s.build <==> IsRoot(g, projects, BuildRoot, n)
    ensures forall n: nat :: n in s.optional <==> InOptionalReach(g, projects, n)
    ensures forall n: nat :: n in s.extrasGated <==> Offered(g, projects, n) && n !in s.runtime && n !in s.dev
    ensures forall n: nat :: n in s.conditional && s.conditional[n] <==> OnlyConditional(g, projects, n)
  {
    var r := ProjectRoots(g, projects);
    RootSetsAre(g, projects, r);
    var runtime, runtimeGated := Reach(g, r.runtime, false);
    var dev, devGated := Reach(g, r.dev, false);
    ReachIs(g, projects, RuntimeRoot, r.runtime);
    ReachIs(g, projects, DevRoot, r.dev);
    OfferedIs(g, projects, runtime, dev, runtimeGated, devGated);
    var optional := OptionalWalk(g, projects, r.optional, runtimeGated + devGated);
    s := Spread(runtime, dev, r.build, optional, runtimeGated + devGated - runtime - dev, r.conditional);
  }

  lemma RootSetsAre(g: Graph, projects: seq<nat>, r: Roots)
    requires forall kind, n: nat :: n in RootSet(r, kind) <==> IsRoot(g, projects, kind, n)
    ensures forall n: nat :: n in r.runtime <==> IsRoot(g, projects, RuntimeRoot, n)
    ensures forall n: nat :: n in r.dev <==> IsRoot(g, projects, DevRoot, n)
    ensures forall n: nat :: n in r.build <==> IsRoot(g, projects, BuildRoot, n)
    ensures forall n: nat :: n in r.optional <==> IsRoot(g, projects, OptionalRoot, n)
  {
    assert r.runtime == RootSet(r, RuntimeRoot) && r.dev == RootSet(r, DevRoot);
    assert r.build == RootSet(r, BuildRoot) && r.optional == RootSet(r, OptionalRoot);
  }

  method OptionalWalk(g: Graph, projects: seq<nat>, declared: set<nat>, gated: set<nat>) returns (optional: set<nat>)
    requires forall n: nat :: n in declared <==> IsRoot(g, projects, OptionalRoot, n)
    requires forall n: nat :: n in gated <==> Offered(g, projects, n)
    ensures forall n: nat :: n in optional <==> InOptionalReach(g, projects, n)
  {
    var roots := declared + gated;
    var beyond;
    optional, beyond := Reach(g, roots, true);
    assert IsOptionalRootSet(g, projects, roots);
    forall n: nat ensures InOptionalReach(g, projects, n) <==> Reachable(g, true, roots, n) {
      if InOptionalReach(g, projects, n) {
        var other: set<nat> :| IsOptionalRootSet(g, projects, other) && Reachable(g, true, other, n);
        OptionalRootsUnique(g, projects, roots, other);
      }
    }
  }

  lemma OptionalRootsUnique(g: Graph, projects: seq<nat>, a: set<nat>, b: set<nat>)
    requires IsOptionalRootSet(g, projects, a) && IsOptionalRootSet(g, projects, b)
    ensures a == b
  {
    forall k: nat ensures k in a <==> k in b {
      assert k in a <==> IsRoot(g, projects, OptionalRoot, k) || Offered(g, projects, k);
    }
  }

  lemma ReachIs(g: Graph, projects: seq<nat>, kind: RootKind, roots: set<nat>)
    requires forall n: nat :: n in roots <==> IsRoot(g, projects, kind, n)
    ensures forall n: nat :: InReach(g, projects, kind, n) <==> Reachable(g, false, roots, n)
  {
    assert IsRootSet(g, projects, kind, roots);
    forall n: nat ensures InReach(g, projects, kind, n) <==> Reachable(g, false, roots, n) {
      if InReach(g, projects, kind, n) {
        var other: set<nat> :| IsRootSet(g, projects, kind, other) && Reachable(g, false, other, n);
        forall k: nat ensures k in other <==> k in roots {
          assert k in other <==> IsRoot(g, projects, kind, k);
        }
        assert other == roots;
      }
    }
  }

  lemma OfferedIs(g: Graph, projects: seq<nat>, runtime: set<nat>, dev: set<nat>, a: set<nat>, b: set<nat>)
    requires forall n: nat :: n in runtime <==> InReach(g, projects, RuntimeRoot, n)
    requires forall n: nat :: n in dev <==> InReach(g, projects, DevRoot, n)
    requires forall n: nat :: n in a <==> Recorded(g, false, runtime, n)
    requires forall n: nat :: n in b <==> Recorded(g, false, dev, n)
    ensures forall n: nat :: n in a + b <==> Offered(g, projects, n)
  {
    forall n: nat ensures n in a + b <==> Offered(g, projects, n) {
      if n in a {
        var m: nat :| m in runtime && GatedStep(g, false, m, n);
      } else if n in b {
        var m: nat :| m in dev && GatedStep(g, false, m, n);
      }
      if Offered(g, projects, n) {
        var m: nat :| (InReach(g, projects, RuntimeRoot, m) || InReach(g, projects, DevRoot, m))
                      && GatedStep(g, false, m, n);
        assert m in runtime || m in dev;
      }
    }
  }

  // ---- what an extras-gated claim can change for a project ---------------------------------------

  lemma RootSetExists(g: Graph, projects: seq<nat>, kind: RootKind) returns (roots: set<nat>)
    ensures IsRootSet(g, projects, kind, roots)
  {
    roots := set p, arc | p in projects && arc in Arcs(g, p) && KindOf(arc.attrs) == kind :: arc.dst;
    forall n: nat ensures n in roots <==> IsRoot(g, projects, kind, n) {
      if n in roots {
        var p, arc :| p in projects && arc in Arcs(g, p) && KindOf(arc.attrs) == kind && arc.dst == n;
        assert DirectArc(g, projects, arc);
      }
    }
  }

  /** The two graphs give the project nodes the same arcs. */
  ghost predicate SameDirect(g: Graph, h: Graph, projects: seq<nat>) {
    forall p, arc | p in projects :: arc in Arcs(g, p) <==> arc in Arcs(h, p)
  }

  lemma SameRoots(g: Graph, h: Graph, projects: seq<nat>, kind: RootKind, roots: set<nat>)
    requires SameDirect(g, h, projects) && IsRootSet(g, projects, kind, roots)
    ensures IsRootSet(h, projects, kind, roots)
  {
    forall n: nat ensures IsRoot(g, projects, kind, n) <==> IsRoot(h, projects, kind, n) {
      if arc :| DirectArc(g, projects, arc) && arc.dst == n && KindOf(arc.attrs) == kind {
        assert DirectArc(h, projects, arc);
      }
      if arc :| DirectArc(h, projects, arc) && arc.dst == n && KindOf(arc.attrs) == kind {
        assert DirectArc(g, projects, arc);
      }
    }
  }

  lemma {:induction false} AppendedDirect(claims: seq<Claim>, c: Claim, g: Graph, h: Graph, projects: seq<nat>)
    requires c.Usable() && c.src.value !in projects
    requires IsAdjacency(MergedEdges(claims), g) && IsAdjacency(MergedEdges(claims + [c]), h)
    ensures SameDirect(g, h, projects) && SameDirect(g, Cut(g, c.src.value, c.dst.value), projects)
  {
    assert (claims + [c])[..|claims|] == claims;
    forall p, arc | p in projects ensures arc in Arcs(g, p) <==> arc in Arcs(h, p) {
    }
  }

  /** A claim behind an extra between components leaves a project's runtime or dev reach alone
      exactly when its edge was not open, its source is out of that reach, or its target stays in
      it without the edge. */
  lemma {:induction false} HarmlessForProjectIff(claims: seq<Claim>, c: Claim, g: Graph, h: Graph, projects: seq<nat>,
                                                 kind: RootKind)
    requires c.Usable() && c.attrs.marker == Some(Extra) && c.src.value !in projects
    requires IsAdjacency(MergedEdges(claims), g) && IsAdjacency(MergedEdges(claims + [c]), h)
    ensures (forall n: nat :: InReach(g, projects, kind, n) <==> InReach(h, projects, kind, n))
       <==> || !Steps(g, false, c.src.value, c.dst.value)
            || !InReach(g, projects, kind, c.src.value)
            || InReach(Cut(g, c.src.value, c.dst.value), projects, kind, c.dst.value)
  {
    var cut := Cut(g, c.src.value, c.dst.value);
    var roots := RootSetExists(g, projects, kind);
    AppendedDirect(claims, c, g, h, projects);
    SameRoots(g, h, projects, kind, roots);
    SameRoots(g, cut, projects, kind, roots);
    ReachIs(g, projects, kind, roots);
    ReachIs(h, projects, kind, roots);
    ReachIs(cut, projects, kind, roots);
    HarmlessFromIff(claims, c, g, h, roots);
  }

  // ---- the scope of a component -------------------------------------------------------------

  datatype Info = Info(ctype: string, devAttr: bool)

  function ScopeOf(n: nat, info: Info, s: Spread): Option<Scope> {
    if n in s.runtime then Some(Runtime)
    else if n in s.dev || info.devAttr then Some(Dev)
    else if n in s.build || info.ctype == "build-tool" then Some(Build)
    else if n in s.optional then Some(OptionalScope)
    else if info.ctype in {"os-package", "application"} then Some(Runtime)
    else None
  }

  predicate IsConditional(n: nat, s: Spread) {
    (n in s.conditional && s.conditional[n]) || n in s.extrasGated
  }

  /** What the propagation promises about a spread, as `Propagate` returns it. */
  ghost predicate Faithful(g: Graph, projects: seq<nat>, s: Spread) {
    && (forall n: nat :: n in s.runtime <==> InReach(g, projects, RuntimeRoot, n))
    && (forall n: nat :: n in s.dev <==> InReach(g, projects, DevRoot, n))
    && (forall n: nat :: n in s.build <==> IsRoot(g, projects, BuildRoot, n))
    && (forall n: nat :: n in s.optional <==> InOptionalReach(g, projects, n))
    && (forall n: nat :: n in s.extrasGated <==> Offered(g, projects, n) && n !in s.runtime && n !in s.dev)
  }

  /** What a project depends on directly is reached by the walk its declared scope starts. */
  lemma DirectIsReached(g: Graph, projects: seq<nat>, arc: Arc)
    requires DirectArc(g, projects, arc)
    ensures InReach(g, projects, KindOf(arc.attrs), arc.dst)
  {
    var roots := RootSetExists(g, projects, KindOf(arc.attrs));
    assert IsRoot(g, projects, KindOf(arc.attrs), arc.dst);
    ReachableRoot(g, false, roots, arc.dst);
  }

  /** A direct dependency on n is declared with one of these scopes. */
  ghost predicate Declared(g: Graph, projects: seq<nat>, n: nat, scopes: set<Option<Scope>>) {
    exists arc :: DirectArc(g, projects, arc) && arc.dst == n && arc.attrs.scope in scopes
  }

  /** The walks start at what is declared for run time, or with no scope; at what is declared for
      development or tests; for building; and as optional. */
  lemma RootIff(g: Graph, projects: seq<nat>, n: nat)
    ensures IsRoot(g, projects, RuntimeRoot, n) <==> Declared(g, projects, n, {None, Some(Runtime), Some(Provided)})
    ensures IsRoot(g, projects, DevRoot, n) <==> Declared(g, projects, n, {Some(Dev), Some(Test)})
    ensures IsRoot(g, projects, BuildRoot, n) <==> Declared(g, projects, n, {Some(Build)})
    ensures IsRoot(g, projects, OptionalRoot, n) <==> Declared(g, projects, n, {Some(OptionalScope)})
  {
    forall arc: Arc ensures KindOf(arc.attrs) == RuntimeRoot
        <==> arc.attrs.scope in {None, Some(Runtime), Some(Provided)}
      ensures KindOf(arc.attrs) == DevRoot <==> arc.attrs.scope in {Some(Dev), Some(Test)}
      ensures KindOf(arc.attrs) == BuildRoot <==> arc.attrs.scope in {Some(Build)}
      ensures KindOf(arc.attrs) == OptionalRoot <==> arc.attrs.scope in {Some(OptionalScope)}
    {
    }
  }

  /** No project declares anything for run time. */
  ghost predicate NothingRuns(g: Graph, projects: seq<nat>) {
    forall n: nat :: !Declared(g, projects, n, {None, Some(Runtime), Some(Provided)})
  }

  lemma NothingIsReached(g: Graph, projects: seq<nat>, n: nat)
    requires NothingRuns(g, projects)
    ensures !InReach(g, projects, RuntimeRoot, n)
  {
    forall m: nat ensures !IsRoot(g, projects, RuntimeRoot, m) {
      RootIff(g, projects, m);
    }
    if roots: set<nat> :| IsRootSet(g, projects, RuntimeRoot, roots) && Reachable(g, false, roots, n) {
      assert roots == {};
      var path :| ReachedBy(g, false, roots, path, n);
      NoWalk(g, path, n);
    }
  }

  lemma {:induction false} NoWalk(g: Graph, path: seq<nat>, n: nat)
    ensures !ReachedBy(g, false, {}, path, n)
    decreases |path|
  {
    if path == [] {
    } else {
      NoWalk(g, path[..|path| - 1], path[|path| - 1]);
    }
  }

  lemma OptionalIsReached(g: Graph, projects: seq<nat>, s: Spread, arc: Arc)
    requires Faithful(g, projects, s) && DirectArc(g, projects, arc) && KindOf(arc.attrs) == OptionalRoot
    ensures InOptionalReach(g, projects, arc.dst)
  {
    var roots := OptionalRootsExist(g, projects, s);
    assert IsRoot(g, projects, OptionalRoot, arc.dst);
    ReachableRoot(g, true, roots, arc.dst);
  }

  /** The scope a direct dependency ends with, by the scope it was declared with: its own, unless
      a runtime walk, or for weaker scopes a dev walk, comes to it as well. */
  lemma DirectScope(g: Graph, projects: seq<nat>, s: Spread, arc: Arc, info: Info)
    requires Faithful(g, projects, s) && DirectArc(g, projects, arc)
    ensures var n, scope := arc.dst, ScopeOf(arc.dst, info, s);
            var runs := InReach(g, projects, RuntimeRoot, n);
            var isDev := InReach(g, projects, DevRoot, n) || info.devAttr;
            var builds := IsRoot(g, projects, BuildRoot, n) || info.ctype == "build-tool";
            match arc.attrs.scope
            case Some(Dev) => scope == Some(if runs then Runtime else Dev)
            case Some(Test) => scope == Some(if runs then Runtime else Dev)
            case Some(Build) => scope == Some(if runs then Runtime else if isDev then Dev else Build)
            case Some(OptionalScope) =>
              scope == Some(if runs then Runtime else if isDev then Dev else if builds then Build else OptionalScope)
            case _ => scope == Some(Runtime)
  {
    DirectIsReached(g, projects, arc);
    if KindOf(arc.attrs) == OptionalRoot {
      OptionalIsReached(g, projects, s, arc);
    }
    assert IsRoot(g, projects, KindOf(arc.attrs), arc.dst);
  }

  /** Where nothing is declared for run time, what is declared for development or tests ends as a
      development dependency. */
  lemma DevStaysDev(g: Graph, projects: seq<nat>, s: Spread, arc: Arc, info: Info)
    requires Faithful(g, projects, s) && DirectArc(g, projects, arc) && NothingRuns(g, projects)
    requires arc.attrs.scope == Some(Dev) || arc.attrs.scope == Some(Test)
    ensures ScopeOf(arc.dst, info, s) == Some(Dev)
  {
    NothingIsReached(g, projects, arc.dst);
    DirectScope(g, projects, s, arc, info);
  }

  /** A library offered only behind an extra is never scoped runtime: it is optional and
      conditional, unless something else makes it a dev or build dependency. */
  lemma OfferedIsOptional(g: Graph, projects: seq<nat>, s: Spread, n: nat, info: Info)
    requires Faithful(g, projects, s) && Offered(g, projects, n)
    requires !InReach(g, projects, RuntimeRoot, n) && !InReach(g, projects, DevRoot, n)
    ensures IsConditional(n, s) && ScopeOf(n, info, s) != Some(Runtime)
    ensures ScopeOf(n, info, s) == Some(OptionalScope) <==>
            !info.devAttr && !IsRoot(g, projects, BuildRoot, n) && info.ctype != "build-tool"
    ensures InOptionalReach(g, projects, n)
  {
    var roots := OptionalRootsExist(g, projects, s);
    ReachableRoot(g, true, roots, n);
    assert InOptionalReach(g, projects, n);
  }

  lemma OptionalRootsExist(g: Graph, projects: seq<nat>, s: Spread) returns (roots: set<nat>)
    requires Faithful(g, projects, s)
    ensures IsOptionalRootSet(g, projects, roots)
  {
    roots := set n: nat | n in Nodes(g) && (IsRoot(g, projects, OptionalRoot, n) || Offered(g, projects, n)) :: n;
    forall n: nat | IsRoot(g, projects, OptionalRoot, n) || Offered(g, projects, n) ensures n in Nodes(g) {
      if IsRoot(g, projects, OptionalRoot, n) {
        var arc :| DirectArc(g, projects, arc) && arc.dst == n;
      } else {
        var m: nat :| GatedStep(g, false, m, n);
      }
    }
  }
}
