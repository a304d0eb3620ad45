// From findings to buckets.
module Buckets {
  // Union-find over identity keys, one version per family and variant in single-version
  // ecosystems, then attaching the claims that name no version.

  import opened Links
  import opened UnionFind
  import opened Classes
  import KeyIndex
  import Order

  const SINGLE_VERSION_ECOS: set<string> :=
    {"pypi", "deb", "apk", "alpm", "conda", "composer", "pub", "conan", "vcpkg"}

  /** A finding as bucketing sees it. An absent version is the empty string, as both read
      as false; `eco`, `family` and `variant` are what `_eco_of`, `family_key` and
      `_variant_of` answer for the claim. */
  datatype Finding = Finding(keys: seq<string>, version: string, eco: string, family: string, variant: string) {
    predicate Versioned() {
      version != ""
    }

    function Fam(): string {
      eco + "::" + family
    }
  }

  type Findings = seq<Finding>

  /** `fam.split("::", 1)[0]`. */
  function EcoOf(fam: string): string {
    if |fam| < 2 then fam
    else if fam[..2] == "::" then ""
    else [fam[0]] + EcoOf(fam[1..])
  }

  function KeysOf(fs: Findings): KeyIndex.KeyTable {
    seq(|fs|, i requires 0 <= i < |fs| => fs[i].keys)
  }

  // ---- what the partition is meant to be ------------------------------------------------

  /** One environment holds one version of a family per variant. */
  predicate SameSlot(f: Finding, g: Finding) {
    && f.Versioned() && g.Versioned()
    && f.Fam() == g.Fam() && f.variant == g.variant
    && EcoOf(f.Fam()) in SINGLE_VERSION_ECOS
  }

  ghost function SlotLinks(fs: Findings): set<Link> {
    set i: nat, j: nat | i < |fs| && j < |fs| && SameSlot(fs[i], fs[j]) :: (i, j)
  }

  /** The links of step 1: shared identity keys and shared slots. */
  ghost function FirmLinks(fs: Findings): set<Link> {
    KeyIndex.KeyLinks(KeysOf(fs)) + SlotLinks(fs)
  }

  ghost function Concrete(fs: Findings, fam: string): set<nat> {
    set i: nat | i < |fs| && fs[i].Versioned() && fs[i].Fam() == fam
  }

  ghost function Unresolved(fs: Findings, fam: string): set<nat> {
    set i: nat | i < |fs| && !fs[i].Versioned() && fs[i].Fam() == fam
  }

  ghost function Pairs(a: set<nat>, b: set<nat>): set<Link> {
    set i: nat, j: nat | i in a && j in b :: (i, j)
  }

  ghost predicate AllChained(links: set<Link>, items: set<nat>) {
    forall i, j | i in items && j in items :: Chained(links, i, j)
  }

  /** Step 2 for one family: its versionless claims join each other, and join its versioned
      claims when those already form a single class. */
  ghost function AttachOne(fs: Findings, fam: string, links: set<Link>): set<Link> {
    var joined := links + Pairs(Unresolved(fs, fam), Unresolved(fs, fam));
    if Concrete(fs, fam) != {} && AllChained(joined, Concrete(fs, fam))
    then joined + Pairs(Unresolved(fs, fam), Concrete(fs, fam))
    else joined
  }

  ghost predicate IsAmbiguous(fs: Findings, fam: string, links: set<Link>) {
    var joined := links + Pairs(Unresolved(fs, fam), Unresolved(fs, fam));
    Concrete(fs, fam) != {} && !AllChained(joined, Concrete(fs, fam))
  }

  ghost function Attach(fs: Findings, fams: seq<string>, links: set<Link>): set<Link>
    decreases |fams|
  {
    if fams == [] then links
    else AttachOne(fs, fams[|fams| - 1], Attach(fs, fams[..|fams| - 1], links))
  }

  ghost function Ambiguous(fs: Findings, fams: seq<string>, links: set<Link>): set<nat>
    decreases |fams|
  {
    if fams == [] then {}
    else
      var rest, fam := fams[..|fams| - 1], fams[|fams| - 1];
      Ambiguous(fs, rest, links) +
      if IsAmbiguous(fs, fam, Attach(fs, rest, links)) then Unresolved(fs, fam) else {}
  }

  function OpenFamilies(fs: Findings): set<string> {
    set i: nat | i < |fs| && !fs[i].Versioned() :: fs[i].Fam()
  }

  /** All links of steps 1 and 2; the buckets are the classes they generate. */
  ghost function FinalLinks(fs: Findings): set<Link> {
    Attach(fs, Order.SortedNames(OpenFamilies(fs)), FirmLinks(fs))
  }

  ghost function AmbiguousClaims(fs: Findings): set<nat> {
    Ambiguous(fs, Order.SortedNames(OpenFamilies(fs)), FirmLinks(fs))
  }

  // ---- grouping -----------------------------------------------------------------------

  /** The dictionary of lists that collects `items` under their labels. */
  ghost predicate IsGrouping(items: seq<nat>, tag: seq<string>, groups: map<string, seq<nat>>) {
    && (forall i <- items :: i < |tag|)
    && (forall g <- groups :: groups[g] != [])
    && (forall g, i | g in groups && i in groups[g] :: i in items && i < |tag| && tag[i] == g)
    && (forall i | i in items && i < |tag| :: tag[i] in groups && i in groups[tag[i]])
  }

  method GroupBy(items: seq<nat>, tag: seq<string>) returns (groups: map<string, seq<nat>>)
    requires forall i <- items :: i < |tag|
    ensures IsGrouping(items, tag, groups)
  {
    groups := map[];
    for k := 0 to |items|
      invariant IsGrouping(items[..k], tag, groups)
    {
      var i := items[k];
      assert i in items;
      assert items[..k + 1] == items[..k] + [i];
      var old' := if tag[i] in groups then groups[tag[i]] else [];
      groups := groups[tag[i] := old' + [i]];
    }
    assert items[..|items|] == items;
  }

  // ---- step 1 -------------------------------------------------------------------------

  method ReadKeys(fs: Findings, i: nat, uf: CompressingForest, first: map<string, nat>)
    returns (byKey: map<string, nat>)
    requires i < |fs| && uf.Valid() && Numbered(uf.parent, i + 1)
    requires KeyIndex.Indexed(KeysOf(fs), i, 0, first, uf.links)
    modifies uf
    ensures uf.Valid() && Numbered(uf.parent, i + 1)
    ensures KeyIndex.Indexed(KeysOf(fs), i + 1, 0, byKey, uf.links)
  {
    ghost var table := KeysOf(fs);
    byKey := first;
    for t := 0 to |fs[i].keys|
      invariant uf.Valid() && Numbered(uf.parent, i + 1)
      invariant KeyIndex.Indexed(table, i, t, byKey, uf.links)
    {
      var key := fs[i].keys[t];
      if key in byKey {
        KeyIndex.KnownKey(table, i, t, byKey, uf.links);
        assert KeyIndex.Read(table, i, t, byKey[key], key);
        uf.Union(i, byKey[key]);
      } else {
        KeyIndex.NewKey(table, i, t, byKey, uf.links);
        byKey := byKey[key := i];
      }
    }
    KeyIndex.NextItem(table, i, byKey, uf.links);
  }

  method KeyPass(fs: Findings) returns (uf: CompressingForest)
    ensures fresh(uf) && uf.Valid() && Numbered(uf.parent, |fs|)
    ensures Equivalent(uf.links, KeyIndex.KeyLinks(KeysOf(fs)))
  {
    uf := new CompressingForest();
    var byKey: map<string, nat> := map[];
    for i := 0 to |fs|
      invariant fresh(uf) && uf.Valid() && Numbered(uf.parent, i)
      invariant KeyIndex.Indexed(KeysOf(fs), i, 0, byKey, uf.links)
    {
      var _ := uf.Find(i);
      byKey := ReadKeys(fs, i, uf, byKey);
    }
    KeyIndex.IndexComplete(KeysOf(fs), byKey, uf.links);
  }

  /** The links of `for other in group[1:]: union(group[0], other)`. */
  ghost function StarLinks(group: seq<nat>): set<Link>
    requires group != []
  {
    set j: nat | j in group[1..] :: (group[0], j)
  }

  method Star(uf: CompressingForest, group: seq<nat>)
    requires uf.Valid() && group != [] && forall i <- group :: i in uf.parent
    modifies uf
    ensures uf.Valid() && uf.parent.Keys == old(uf.parent.Keys)
    ensures uf.links == old(uf.links) + StarLinks(group)
  {
    assert group[1..1] == [];
    for k := 1 to |group|
      invariant uf.Valid() && uf.parent.Keys == old(uf.parent.Keys)
      invariant uf.links == old(uf.links) + set j: nat | j in group[1..k] :: (group[0], j)
    {
      uf.Union(group[0], group[k]);
      assert group[1..k + 1] == group[1..k] + [group[k]];
    }
    assert group[1..|group|] == group[1..];
  }

  /** A star chains any two of its members. */
  lemma StarChains(links: set<Link>, group: seq<nat>, i: nat, j: nat)
    requires group != [] && StarLinks(group) <= links && i in group && j in group
    ensures Chained(links, i, j)
  {
    SpokeChained(links, group, i);
    SpokeChained(links, group, j);
    ChainedSym(links, i, group[0]);
    ChainedTrans(links, i, group[0], j);
  }

  lemma SpokeChained(links: set<Link>, group: seq<nat>, i: nat)
    requires group != [] && StarLinks(group) <= links && i in group
    ensures Chained(links, group[0], i)
  {
    var k :| 0 <= k < |group| && group[k] == i;
    if k == 0 {
      ChainedSelf(links, i);
    } else {
      assert i == group[1..][k - 1];
      assert (group[0], i) in StarLinks(group);
      ChainedStep(links, group[0], i);
    }
  }

  lemma {:induction false} StarInSlots(fs: Findings, fam: string, variants: seq<string>, members: seq<nat>,
                    byVariant: map<string, seq<nat>>, v: string)
    requires |variants| == |fs| && forall i: nat | i < |fs| :: variants[i] == fs[i].variant
    requires EcoOf(fam) in SINGLE_VERSION_ECOS && forall i <- members :: i in Concrete(fs, fam)
    requires IsGrouping(members, variants, byVariant) && v in byVariant
    ensures forall i <- byVariant[v] :: i < |fs|
    ensures byVariant[v] != [] && StarLinks(byVariant[v]) <= SlotLinks(fs)
  {
    var group := byVariant[v];
    forall i <- group ensures i < |fs| {
      assert i in members;
      assert i in Concrete(fs, fam);
    }
    assert group[0] in group;
    forall j | j in group[1..] ensures (group[0], j) in SlotLinks(fs) {
      assert j in group && j in members && group[0] in members;
      assert variants[j] == variants[group[0]];
    }
  }

  /** One family: a star per variant. */
  method SlotFamily(fs: Findings, uf: CompressingForest, fam: string, members: seq<nat>)
    requires uf.Valid() && Numbered(uf.parent, |fs|) && EcoOf(fam) in SINGLE_VERSION_ECOS
    requires forall i <- members :: i in Concrete(fs, fam)
    modifies uf
    ensures uf.Valid() && Numbered(uf.parent, |fs|)
    ensures old(uf.links) <= uf.links <= old(uf.links) + SlotLinks(fs)
    ensures forall i: nat, j: nat | i in members && j in members && i < |fs| && j < |fs| && SameSlot(fs[i], fs[j]) ::
              Chained(uf.links, i, j)
  {
    var variants := seq(|fs|, i requires 0 <= i < |fs| => fs[i].variant);
    var byVariant := GroupBy(members, variants);
    var todo := byVariant.Keys;
    while todo != {}
      invariant uf.Valid() && Numbered(uf.parent, |fs|) && todo <= byVariant.Keys
      invariant old(uf.links) <= uf.links <= old(uf.links) + SlotLinks(fs)
      invariant forall v <- byVariant.Keys - todo :: StarLinks(byVariant[v]) <= uf.links
      decreases |todo|
    {
      var v :| v in todo;
      var group := byVariant[v];
      StarInSlots(fs, fam, variants, members, byVariant, v);
      Star(uf, group);
      todo := todo - {v};
    }
    forall i: nat, j: nat | i in members && j in members && i < |fs| && j < |fs| && SameSlot(fs[i], fs[j])
      ensures Chained(uf.links, i, j)
    {
      assert variants[i] == fs[i].variant == variants[j];
      StarChains(uf.links, byVariant[variants[i]], i, j);
    }
  }

  method SlotPass(fs: Findings, uf: CompressingForest, famMembers: map<string, seq<nat>>, ghost base: set<Link>)
    requires uf.Valid() && Numbered(uf.parent, |fs|) && Equivalent(uf.links, base)
    requires FamilyTable(fs, famMembers)
    modifies uf
    ensures uf.Valid() && Numbered(uf.parent, |fs|)
    ensures Equivalent(uf.links, base + SlotLinks(fs))
  {
    var todo := famMembers.Keys;
    while todo != {}
      invariant uf.Valid() && Numbered(uf.parent, |fs|) && todo <= famMembers.Keys
      invariant old(uf.links) <= uf.links <= old(uf.links) + SlotLinks(fs)
      invariant SlotsChained(fs, famMembers.Keys - todo, uf.links)
      decreases |todo|
    {
      var fam :| fam in todo;
      ghost var before := uf.links;
      if EcoOf(fam) in SINGLE_VERSION_ECOS {
        SlotFamily(fs, uf, fam, famMembers[fam]);
      }
      forall i: nat, j: nat | i < |fs| && j < |fs| && SameSlot(fs[i], fs[j])
          && fs[i].Fam() in famMembers.Keys - (todo - {fam})
        ensures Chained(uf.links, i, j)
      {
        if fs[i].Fam() == fam {
          assert i in Concrete(fs, fam) && j in Concrete(fs, fam);
        } else {
          ChainedMono(before, uf.links, i, j);
        }
      }
      todo := todo - {fam};
    }
    SlotsCover(fs, old(uf.links), base, uf.links, famMembers);
  }

  ghost predicate FamilyTable(fs: Findings, famMembers: map<string, seq<nat>>) {
    && (forall fam <- famMembers :: famMembers[fam] != [] && Members(famMembers[fam]) == Concrete(fs, fam))
    && (forall i: nat | i < |fs| && fs[i].Versioned() :: fs[i].Fam() in famMembers)
  }

  ghost predicate SlotsChained(fs: Findings, fams: set<string>, links: set<Link>) {
    forall i: nat, j: nat | i < |fs| && j < |fs| && SameSlot(fs[i], fs[j]) && fs[i].Fam() in fams ::
      Chained(links, i, j)
  }

  lemma SlotsCover(fs: Findings, start: set<Link>, base: set<Link>, links: set<Link>, famMembers: map<string, seq<nat>>)
    requires Equivalent(start, base) && start <= links <= start + SlotLinks(fs)
    requires FamilyTable(fs, famMembers) && SlotsChained(fs, famMembers.Keys, links)
    ensures Equivalent(links, base + SlotLinks(fs))
  {
    var goal := base + SlotLinks(fs);
    SubsetCovered(goal, base);
    CoversTrans(goal, base, start);
    SubsetCovered(goal, SlotLinks(fs));
    SubsetCovered(links, start);
    CoversTrans(links, start, base);
  }


  // ---- step 2 -------------------------------------------------------------------------

  /** The classes met by `items`: the set comprehension over `find`. */
  ghost function RootsOf(parent: Forest, items: set<nat>): set<nat>
    requires Descending(parent) && forall i <- items :: i in parent
  {
    set i | i in items :: Root(parent, i)
  }

  method ClassesOf(uf: CompressingForest, items: seq<nat>) returns (roots: set<nat>)
    requires uf.Valid() && forall i <- items :: i in uf.parent
    modifies uf`parent
    ensures uf.Valid() && SameRoots(old(uf.parent), uf.parent)
    ensures roots == RootsOf(uf.parent, Members(items))
  {
    roots := {};
    ghost var p := uf.parent;
    for k := 0 to |items|
      invariant uf.Valid() && SameRoots(p, uf.parent)
      invariant roots == RootsOf(p, Members(items[..k]))
    {
      var r := uf.Find(items[k]);
      assert items[..k + 1] == items[..k] + [items[k]];
      assert Members(items[..k + 1]) == Members(items[..k]) + {items[k]};
      roots := roots + {r};
    }
    assert items[..|items|] == items;
    assert forall i <- Members(items) :: Root(p, i) == Root(uf.parent, i);
  }

  lemma OneClass(parent: Forest, links: set<Link>, items: set<nat>)
    requires Partitions(parent, links) && forall i <- items :: i in parent
    ensures |RootsOf(parent, items)| == 0 <==> items == {}
    ensures |RootsOf(parent, items)| <= 1 <==> AllChained(links, items)
  {
    var roots := RootsOf(parent, items);
    forall i <- items ensures Root(parent, i) in roots {}
    if |roots| <= 1 {
      forall i, j | i in items && j in items ensures Chained(links, i, j) {
        assert Agree(parent, links, i, j);
        if Root(parent, i) != Root(parent, j) {
          TwoMembers(roots, Root(parent, i), Root(parent, j));
        }
      }
    } else {
      var i :| i in items;
      var r := Root(parent, i);
      assert |roots - {r}| == |roots| - 1;
      var s :| s in roots - {r};
      var j :| j in items && Root(parent, j) == s;
      assert Agree(parent, links, i, j);
    }
  }

  lemma TwoMembers(s: set<nat>, a: nat, b: nat)
    requires a in s && b in s && a != b
    ensures |s| >= 2
  {
    assert {a, b} <= s;
    assert |s| == |s - {a}| + 1;
    assert b in s - {a};
  }

  /** Closing step of one family: the star over its unresolved claims, then at most one
      more link, realise `AttachOne` up to equivalence. */
  lemma AttachedByOneLink(joined: set<Link>, u: set<nat>, c: set<nat>, u0: nat, r: nat)
    requires Covers(joined, Pairs(u, u)) && AllChained(joined, c)
    requires u0 in u && c != {} && forall i <- c :: Chained(joined, r, i)
    ensures Equivalent(joined + {(u0, r)}, joined + Pairs(u, c))
  {
    var one, all := joined + {(u0, r)}, joined + Pairs(u, c);
    SubsetCovered(one, joined);
    SubsetCovered(all, joined);
    ChainedStep(one, u0, r);
    forall l <- Pairs(u, c) ensures Chained(one, l.0, l.1) {
      assert (l.0, u0) in Pairs(u, u);
      assert Chained(joined, (l.0, u0).0, (l.0, u0).1);
      ChainedMono(joined, one, l.0, u0);
      ChainedTrans(one, l.0, u0, r);
      ChainedMono(joined, one, r, l.1);
      ChainedTrans(one, l.0, r, l.1);
    }
    var i :| i in c;
    assert (u0, i) in all;
    ChainedStep(all, u0, i);
    ChainedMono(joined, all, r, i);
    ChainedSym(all, r, i);
    ChainedTrans(all, u0, i, r);
  }

  /** One family of step 2. `Find` and `Union` are called as the source calls them. */
  method AttachFamily(fs: Findings, uf: CompressingForest, fam: string, unresolved: seq<nat>, concrete: seq<nat>,
                      ghost base: set<Link>)
    returns (ambiguous: bool)
    requires uf.Valid() && Numbered(uf.parent, |fs|) && Equivalent(uf.links, base)
    requires unresolved != [] && Members(unresolved) == Unresolved(fs, fam)
    requires Members(concrete) == Concrete(fs, fam)
    modifies uf
    ensures uf.Valid() && Numbered(uf.parent, |fs|)
    ensures Equivalent(uf.links, AttachOne(fs, fam, base))
    ensures ambiguous <==> IsAmbiguous(fs, fam, base)
  {
    ghost var u, c := Unresolved(fs, fam), Concrete(fs, fam);
    assert forall i <- unresolved :: i in Members(unresolved);
    assert forall i <- concrete :: i in Members(concrete);
    Star(uf, unresolved);
    JoinedByStar(base, old(uf.links), unresolved);
    ambiguous := JoinConcrete(uf, unresolved[0], concrete, u, c, base + Pairs(u, u));
  }

  /** Links `u0` to the concrete claims when these form a single class. */
  method JoinConcrete(uf: CompressingForest, u0: nat, concrete: seq<nat>,
                      ghost u: set<nat>, ghost c: set<nat>, ghost joined: set<Link>)
    returns (ambiguous: bool)
    requires uf.Valid() && u0 in uf.parent && Members(concrete) == c && forall i <- concrete :: i in uf.parent
    requires Equivalent(uf.links, joined) && Covers(uf.links, Pairs(u, u)) && u0 in u
    modifies uf
    ensures uf.Valid() && uf.parent.Keys == old(uf.parent.Keys)
    ensures Equivalent(uf.links, if c != {} && AllChained(joined, c) then joined + Pairs(u, c) else joined)
    ensures ambiguous <==> c != {} && !AllChained(joined, c)
  {
    ghost var star := uf.links;
    var concreteRoots := ClassesOf(uf, concrete);
    OneClass(uf.parent, star, c);
    SameChains(star, joined, c);
    ambiguous := |concreteRoots| > 1;
    if |concreteRoots| == 1 {
      var r :| r in concreteRoots;
      JoinTheOneClass(uf.parent, star, joined, u, c, u0, r);
      uf.Union(u0, r);
    }
  }

  lemma JoinTheOneClass(parent: Forest, star: set<Link>, joined: set<Link>, u: set<nat>, c: set<nat>, u0: nat, r: nat)
    requires Partitions(parent, star) && (forall i <- c :: i in parent) && r in RootsOf(parent, c)
    requires Equivalent(star, joined) && Covers(star, Pairs(u, u)) && u0 in u && AllChained(star, c)
    ensures r in parent
    ensures Equivalent(star + {(u0, r)}, joined + Pairs(u, c))
  {
    var i :| i in c && Root(parent, i) == r;
    assert parent[r] == r && Root(parent, r) == r;
    forall j <- c ensures Chained(star, r, j) {
      assert Agree(parent, star, r, i);
      ChainedTrans(star, r, i, j);
    }
    AttachedByOneLink(star, u, c, u0, r);
    EquivalentPlus(star, joined, Pairs(u, c));
    EquivalentTrans(star + {(u0, r)}, star + Pairs(u, c), joined + Pairs(u, c));
  }

  lemma SameChains(a: set<Link>, b: set<Link>, items: set<nat>)
    requires Equivalent(a, b)
    ensures AllChained(a, items) <==> AllChained(b, items)
  {
    forall i, j | i in items && j in items ensures Chained(a, i, j) <==> Chained(b, i, j) {
      SamePartition(a, b, i, j);
    }
  }

  lemma JoinedByStar(base: set<Link>, links: set<Link>, group: seq<nat>)
    requires group != [] && Equivalent(links, base)
    ensures Equivalent(links + StarLinks(group), base + Pairs(Members(group), Members(group)))
    ensures Covers(links + StarLinks(group), Pairs(Members(group), Members(group)))
  {
    var star, clique := StarLinks(group), Pairs(Members(group), Members(group));
    assert star <= clique;
    forall l <- clique ensures Chained(links + star, l.0, l.1) {
      StarChains(links + star, group, l.0, l.1);
    }
    SubsetCovered(links + star, links);
    CoversTrans(links + star, links, base);
    SubsetCovered(base + clique, base);
    CoversTrans(base + clique, base, links);
    SubsetCovered(base + clique, star);
  }

  ghost predicate OpenTable(fs: Findings, openByFam: map<string, seq<nat>>) {
    && openByFam.Keys == OpenFamilies(fs)
    && forall fam <- openByFam :: openByFam[fam] != [] && Members(openByFam[fam]) == Unresolved(fs, fam)
  }

  /** `fam_members.get(fam, [])`. */
  function ConcreteList(fs: Findings, famMembers: map<string, seq<nat>>, fam: string): (r: seq<nat>)
    requires FamilyTable(fs, famMembers)
    ensures Members(r) == Concrete(fs, fam)
  {
    if fam in famMembers then famMembers[fam] else []
  }

  method AttachNext(fs: Findings, uf: CompressingForest, famMembers: map<string, seq<nat>>,
                    openByFam: map<string, seq<nat>>, fams: seq<string>, k: nat, before: set<nat>)
    returns (ambiguous: set<nat>)
    requires uf.Valid() && Numbered(uf.parent, |fs|) && k < |fams| && fams[k] in openByFam
    requires FamilyTable(fs, famMembers) && OpenTable(fs, openByFam)
    requires Equivalent(uf.links, Attach(fs, fams[..k], FirmLinks(fs)))
    requires before == Ambiguous(fs, fams[..k], FirmLinks(fs))
    modifies uf
    ensures uf.Valid() && Numbered(uf.parent, |fs|)
    ensures Equivalent(uf.links, Attach(fs, fams[..k + 1], FirmLinks(fs)))
    ensures ambiguous == Ambiguous(fs, fams[..k + 1], FirmLinks(fs))
  {
    var fam := fams[k];
    assert fams[..k + 1][..k] == fams[..k];
    var concrete := ConcreteList(fs, famMembers, fam);
    var clash := AttachFamily(fs, uf, fam, openByFam[fam], concrete, Attach(fs, fams[..k], FirmLinks(fs)));
    ambiguous := if clash then before + Members(openByFam[fam]) else before;
  }

  method AttachPass(fs: Findings, uf: CompressingForest, famMembers: map<string, seq<nat>>,
                    openByFam: map<string, seq<nat>>)
    returns (ambiguous: set<nat>)
    requires uf.Valid() && Numbered(uf.parent, |fs|) && Equivalent(uf.links, FirmLinks(fs))
    requires FamilyTable(fs, famMembers) && OpenTable(fs, openByFam)
    modifies uf
    ensures uf.Valid() && Numbered(uf.parent, |fs|)
    ensures Equivalent(uf.links, FinalLinks(fs))
    ensures ambiguous == AmbiguousClaims(fs)
  {
    ambiguous := {};
    var fams := Order.SortedNames(openByFam.Keys);
    for k := 0 to |fams|
      invariant uf.Valid() && Numbered(uf.parent, |fs|)
      invariant Equivalent(uf.links, Attach(fs, fams[..k], FirmLinks(fs)))
      invariant ambiguous == Ambiguous(fs, fams[..k], FirmLinks(fs))
    {
      assert fams[k] in fams;
      ambiguous := AttachNext(fs, uf, famMembers, openByFam, fams, k, ambiguous);
    }
    assert fams[..|fams|] == fams;
  }

  // ---- the buckets --------------------------------------------------------------------

  method Bucket(fs: Findings) returns (buckets: map<nat, seq<nat>>, ambiguous: set<nat>)
    ensures IsBucketing(|fs|, FinalLinks(fs), buckets)
    ensures ambiguous == AmbiguousClaims(fs)
  {
    var uf := KeyPass(fs);
    var versioned: seq<nat>, versionless: seq<nat> := [], [];
    for i := 0 to |fs|
      invariant forall j: nat :: j in versioned <==> j < i && fs[j].Versioned()
      invariant forall j: nat :: j in versionless <==> j < i && !fs[j].Versioned()
    {
      if fs[i].Versioned() {
        versioned := versioned + [i];
      } else {
        versionless := versionless + [i];
      }
    }
    var fams := seq(|fs|, i requires 0 <= i < |fs| => fs[i].Fam());
    var famMembers := GroupBy(versioned, fams);
    var openByFam := GroupBy(versionless, fams);
    Tables(fs, fams, versioned, versionless, famMembers, openByFam);
    SlotPass(fs, uf, famMembers, KeyIndex.KeyLinks(KeysOf(fs)));
    ambiguous := AttachPass(fs, uf, famMembers, openByFam);
    buckets := Collect(|fs|, uf, FinalLinks(fs));
  }

  lemma Tables(fs: Findings, fams: seq<string>, versioned: seq<nat>, versionless: seq<nat>,
               famMembers: map<string, seq<nat>>, openByFam: map<string, seq<nat>>)
    requires |fams| == |fs| && forall i: nat | i < |fs| :: fams[i] == fs[i].Fam()
    requires forall j: nat :: j in versioned <==> j < |fs| && fs[j].Versioned()
    requires forall j: nat :: j in versionless <==> j < |fs| && !fs[j].Versioned()
    requires IsGrouping(versioned, fams, famMembers) && IsGrouping(versionless, fams, openByFam)
    ensures FamilyTable(fs, famMembers) && OpenTable(fs, openByFam)
  {
    forall fam | fam in famMembers ensures Members(famMembers[fam]) == Concrete(fs, fam) {
      forall i | i in famMembers[fam] ensures i in Concrete(fs, fam) {
        assert i in versioned && fams[i] == fam;
      }
      forall i | i in Concrete(fs, fam) ensures i in famMembers[fam] {
        assert i in versioned && fams[i] == fam;
      }
    }
    forall fam | fam in openByFam
      ensures Members(openByFam[fam]) == Unresolved(fs, fam) && fam in OpenFamilies(fs)
    {
      forall i | i in openByFam[fam] ensures i in Unresolved(fs, fam) {
        assert i in versionless && fams[i] == fam;
      }
      forall i | i in Unresolved(fs, fam) ensures i in openByFam[fam] {
        assert i in versionless && fams[i] == fam;
      }
      assert openByFam[fam][0] in openByFam[fam];
      assert openByFam[fam][0] in versionless && fams[openByFam[fam][0]] == fam;
    }
    forall fam | fam in OpenFamilies(fs) ensures fam in openByFam {
      var i: nat :| i < |fs| && !fs[i].Versioned() && fs[i].Fam() == fam;
      assert i in versionless && fams[i] == fam;
    }
  }

  method Collect(n: nat, uf: CompressingForest, ghost final: set<Link>) returns (buckets: map<nat, seq<nat>>)
    requires uf.Valid() && Numbered(uf.parent, n) && Equivalent(uf.links, final)
    modifies uf`parent
    ensures IsBucketing(n, final, buckets)
  {
    buckets := map[];
    ghost var p := uf.parent;
    for k := 0 to n
      invariant uf.Valid() && SameRoots(p, uf.parent)
      invariant Collected(p, k, buckets)
    {
      var r := uf.Find(k);
      CollectOne(p, n, k, buckets, r);
      buckets := buckets[r := (if r in buckets then buckets[r] else []) + [k]];
    }
    BucketsAreClasses(n, p, uf.parent, uf.links, final, buckets);
  }

  // ---- order independence ---------------------------------------------------------------

  /** `from` undoes `to`: together they are a permutation of 0..n. */
  ghost predicate Permutation(n: nat, to: seq<nat>, from: seq<nat>) {
    && |to| == |from| == n
    && (forall i: nat | i < n :: to[i] < n && from[to[i]] == i)
    && (forall i: nat | i < n :: from[i] < n && to[from[i]] == i)
  }

  /** The links between the positions whose images `links` links. */
  ghost function Pulled(n: nat, to: seq<nat>, links: set<Link>): set<Link>
    requires |to| == n
  {
    set i: nat, j: nat | i < n && j < n && (to[i], to[j]) in links :: (i, j)
  }

  ghost predicate Within(n: nat, links: set<Link>) {
    forall l <- links :: l.0 < n && l.1 < n
  }

  lemma {:induction false} WalkForward(n: nat, to: seq<nat>, from: seq<nat>, links: set<Link>, i: nat, path: seq<nat>,
                                       j: nat)
    requires Permutation(n, to, from) && i < n && IsWalk(Pulled(n, to, links), i, path, j)
    ensures j < n && Chained(links, to[i], to[j])
    decreases |path|
  {
    if path == [] {
      ChainedSelf(links, to[i]);
    } else {
      WalkForward(n, to, from, links, path[0], path[1..], j);
      ChainedStep(links, to[i], to[path[0]]);
      ChainedTrans(links, to[i], to[path[0]], to[j]);
    }
  }

  lemma PulledTwice(n: nat, to: seq<nat>, from: seq<nat>, links: set<Link>)
    requires Permutation(n, to, from) && Within(n, links)
    ensures Pulled(n, from, Pulled(n, to, links)) == links
  {
    forall l <- links ensures l in Pulled(n, from, Pulled(n, to, links)) {
      assert (to[from[l.0]], to[from[l.1]]) == l;
      assert (from[l.0], from[l.1]) in Pulled(n, to, links);
    }
  }

  lemma PulledChains(n: nat, to: seq<nat>, from: seq<nat>, links: set<Link>, i: nat, j: nat)
    requires Permutation(n, to, from) && Within(n, links) && i < n && j < n
    ensures Chained(Pulled(n, to, links), i, j) <==> Chained(links, to[i], to[j])
  {
    var pulled := Pulled(n, to, links);
    if Chained(pulled, i, j) {
      var path :| IsWalk(pulled, i, path, j);
      WalkForward(n, to, from, links, i, path, j);
    }
    if Chained(links, to[i], to[j]) {
      PulledTwice(n, to, from, links);
      var path :| IsWalk(links, to[i], path, to[j]);
      WalkForward(n, from, to, pulled, to[i], path, to[j]);
    }
  }

  ghost predicate Shuffled(fs: Findings, gs: Findings, to: seq<nat>, from: seq<nat>) {
    && |fs| == |gs| && Permutation(|fs|, to, from)
    && forall i: nat | i < |fs| :: gs[i] == fs[to[i]]
  }

  lemma FirmWithin(fs: Findings)
    ensures Within(|fs|, FirmLinks(fs))
  {
  }

  lemma ShuffledPair(fs: Findings, gs: Findings, to: seq<nat>, from: seq<nat>, i: nat, j: nat)
    requires Shuffled(fs, gs, to, from) && i < |fs| && j < |fs|
    ensures (i, j) in FirmLinks(gs) <==> (to[i], to[j]) in FirmLinks(fs)
  {
    assert KeysOf(gs)[i] == KeysOf(fs)[to[i]] && KeysOf(gs)[j] == KeysOf(fs)[to[j]];
    assert KeyIndex.SharesKey(KeysOf(gs), i, j) <==> KeyIndex.SharesKey(KeysOf(fs), to[i], to[j]);
  }

  lemma ShuffledFirm(fs: Findings, gs: Findings, to: seq<nat>, from: seq<nat>)
    requires Shuffled(fs, gs, to, from)
    ensures FirmLinks(gs) == Pulled(|fs|, to, FirmLinks(fs))
  {
    FirmWithin(gs);
    var pulled := Pulled(|fs|, to, FirmLinks(fs));
    forall l ensures l in FirmLinks(gs) <==> l in pulled {
      if l.0 < |fs| && l.1 < |fs| {
        ShuffledPair(fs, gs, to, from, l.0, l.1);
      }
    }
  }

  lemma ShuffledOpen(fs: Findings, gs: Findings, to: seq<nat>, from: seq<nat>)
    requires Shuffled(fs, gs, to, from)
    ensures OpenFamilies(gs) == OpenFamilies(fs)
  {
    forall fam | fam in OpenFamilies(fs) ensures fam in OpenFamilies(gs) {
      var i: nat :| i < |fs| && !fs[i].Versioned() && fs[i].Fam() == fam;
      assert gs[from[i]] == fs[i];
    }
  }

  lemma ShuffledAttachOne(fs: Findings, gs: Findings, to: seq<nat>, from: seq<nat>, fam: string, links: set<Link>)
    requires Shuffled(fs, gs, to, from) && Within(|fs|, links)
    ensures Within(|fs|, AttachOne(fs, fam, links))
    ensures AttachOne(gs, fam, Pulled(|fs|, to, links)) == Pulled(|fs|, to, AttachOne(fs, fam, links))
    ensures IsAmbiguous(gs, fam, Pulled(|fs|, to, links)) <==> IsAmbiguous(fs, fam, links)
  {
    var u, v := Unresolved(fs, fam), Unresolved(gs, fam);
    PulledPairs(|fs|, to, from, links, u, u, v, v);
    PulledClique(|fs|, to, from, links + Pairs(u, u), Concrete(fs, fam), Concrete(gs, fam));
    PulledPairs(|fs|, to, from, links + Pairs(u, u), u, Concrete(fs, fam), v, Concrete(gs, fam));
  }

  /** Adding all pairs between two sets commutes with relabelling. */
  lemma PulledPairs(n: nat, to: seq<nat>, from: seq<nat>, links: set<Link>, a: set<nat>, b: set<nat>, c: set<nat>,
                    d: set<nat>)
    requires Permutation(n, to, from) && Within(n, links)
    requires Relabelled(n, to, a, c) && Relabelled(n, to, b, d)
    ensures Within(n, links + Pairs(a, b))
    ensures Pulled(n, to, links + Pairs(a, b)) == Pulled(n, to, links) + Pairs(c, d)
  {
  }

  ghost predicate Relabelled(n: nat, to: seq<nat>, a: set<nat>, c: set<nat>)
    requires |to| == n
  {
    && (forall i | i in a :: i < n) && (forall i | i in c :: i < n)
    && forall i: nat | i < n :: i in c <==> to[i] in a
  }

  lemma PulledClique(n: nat, to: seq<nat>, from: seq<nat>, links: set<Link>, c: set<nat>, d: set<nat>)
    requires Permutation(n, to, from) && Within(n, links)
    requires Relabelled(n, to, c, d)
    ensures AllChained(Pulled(n, to, links), d) <==> AllChained(links, c)
    ensures d == {} <==> c == {}
  {
    if c != {} {
      var i :| i in c;
      assert from[i] in d;
    }
    if AllChained(links, c) {
      forall i, j | i in d && j in d ensures Chained(Pulled(n, to, links), i, j) {
        PulledChains(n, to, from, links, i, j);
      }
    }
    if AllChained(Pulled(n, to, links), d) {
      forall i, j | i in c && j in c ensures Chained(links, i, j) {
        PulledChains(n, to, from, links, from[i], from[j]);
      }
    }
  }

  lemma {:induction false} ShuffledAttach(fs: Findings, gs: Findings, to: seq<nat>, from: seq<nat>, fams: seq<string>,
                                          links: set<Link>)
    requires Shuffled(fs, gs, to, from) && Within(|fs|, links)
    ensures Within(|fs|, Attach(fs, fams, links))
    ensures Attach(gs, fams, Pulled(|fs|, to, links)) == Pulled(|fs|, to, Attach(fs, fams, links))
    ensures forall i: nat | i < |fs| ::
              i in Ambiguous(gs, fams, Pulled(|fs|, to, links)) <==> to[i] in Ambiguous(fs, fams, links)
    decreases |fams|
  {
    if fams == [] {
    } else {
      var rest, fam := fams[..|fams| - 1], fams[|fams| - 1];
      ShuffledAttach(fs, gs, to, from, rest, links);
      ShuffledAttachOne(fs, gs, to, from, fam, Attach(fs, rest, links));
    }
  }

  /** Shuffling the findings only relabels the partition and the ambiguous claims. */
  lemma ShuffledPartition(fs: Findings, gs: Findings, to: seq<nat>, from: seq<nat>, i: nat, j: nat)
    requires Shuffled(fs, gs, to, from) && i < |fs| && j < |fs|
    ensures Chained(FinalLinks(gs), i, j) <==> Chained(FinalLinks(fs), to[i], to[j])
    ensures i in AmbiguousClaims(gs) <==> to[i] in AmbiguousClaims(fs)
  {
    FirmWithin(fs);
    ShuffledFirm(fs, gs, to, from);
    ShuffledOpen(fs, gs, to, from);
    var fams := Order.SortedNames(OpenFamilies(fs));
    ShuffledAttach(fs, gs, to, from, fams, FirmLinks(fs));
    PulledChains(|fs|, to, from, FinalLinks(fs), i, j);
  }
}
