// What bucketing promises, over the fields of the findings.
module Environments {
  // An environment holds one version of a package per variant, and the ecosystem is read back
  // from the family label the reconciler files a finding under.

  import opened Links
  import opened Buckets
  import opened Classes
  import FamilyAttach
  import KeyIndex
  import UnionFind

  // ---- reading the ecosystem back -----------------------------------------------------------

  predicate ColonsAt(s: string, i: nat) {
    i + 1 < |s| && s[i] == s[i + 1] == ':'
  }

  ghost predicate HasDoubleColon(s: string) {
    exists i: nat :: ColonsAt(s, i)
  }

  lemma DoubleColonTail(s: string)
    requires s != "" && !ColonsAt(s, 0)
    ensures HasDoubleColon(s) <==> HasDoubleColon(s[1..])
  {
    if i: nat :| ColonsAt(s, i) {
      assert ColonsAt(s[1..], i - 1);
    }
    if i: nat :| ColonsAt(s[1..], i) {
      assert ColonsAt(s, i + 1);
    }
  }

  /** The ecosystem of a label is the finding's own exactly when it neither holds a double colon
      nor ends with a colon. */
  lemma {:induction false} EcoReadBackIff(eco: string, family: string)
    ensures EcoOf(eco + "::" + family) == eco <==> !HasDoubleColon(eco + ":")
  {
    var s := eco + "::" + family;
    if eco == "" {
      assert s[..2] == "::";
    } else {
      assert s[0] == eco[0] && s[1] == (eco + ":")[1];
      assert ColonsAt(eco + ":", 0) <==> s[..2] == "::";
      if s[..2] != "::" {
        var rest := eco[1..];
        assert s[1..] == rest + "::" + family && (eco + ":")[1..] == rest + ":";
        EcoReadBackIff(rest, family);
        DoubleColonTail(eco + ":");
        assert eco == [s[0]] + rest;
      }
    }
  }

  /** The failing input: two versions of a package whose ecosystem is called `pypi::x` are taken for
      versions that exclude each other, which only `pypi` would make them. */
  lemma ColonsMislead()
    ensures "pypi::x" !in SINGLE_VERSION_ECOS
    ensures SameSlot(Finding([], "1", "pypi::x", "y", ""), Finding([], "2", "pypi::x", "y", ""))
  {
    var rest := "x::y";
    EcoReadBackIff("pypi", rest);
    NoColonPair("pypi");
    assert "pypi::x" + "::" + "y" == "pypi" + "::" + rest;
  }

  lemma NoColonPair(eco: string)
    requires ':' !in eco
    ensures !HasDoubleColon(eco + ":")
  {
    forall i: nat ensures !ColonsAt(eco + ":", i) {
      if i < |eco| {
        assert (eco + ":")[i] == eco[i];
      }
    }
  }

  /** An ecosystem its label gives back. */
  ghost predicate IsEco(eco: string) {
    !HasDoubleColon(eco + ":")
  }

  lemma SingleVersionIsEco(eco: string)
    requires eco in SINGLE_VERSION_ECOS
    ensures IsEco(eco)
  {
    NoColonPair(eco);
  }

  /** Labels tell packages apart. */
  lemma FamTellsApart(f: Finding, g: Finding)
    requires IsEco(f.eco) && IsEco(g.eco)
    ensures f.Fam() == g.Fam() <==> f.eco == g.eco && f.family == g.family
  {
    EcoReadBackIff(f.eco, f.family);
    EcoReadBackIff(g.eco, g.family);
    if f.Fam() == g.Fam() {
      var n := |f.eco| + 2;
      assert f.Fam()[n..] == f.family && g.Fam()[n..] == g.family;
    }
  }

  // ---- who shares a slot -----------------------------------------------------------------------

  predicate SamePackage(f: Finding, g: Finding) {
    f.eco == g.eco && f.family == g.family
  }

  /** Two versions of one package that no single environment holds side by side. */
  predicate Exclusive(f: Finding, g: Finding) {
    && f.version != "" && g.version != ""
    && SamePackage(f, g) && f.variant == g.variant
    && f.eco in SINGLE_VERSION_ECOS
  }

  lemma SlotIff(f: Finding, g: Finding)
    requires IsEco(f.eco) && IsEco(g.eco)
    ensures SameSlot(f, g) <==> Exclusive(f, g)
  {
    FamTellsApart(f, g);
    EcoReadBackIff(f.eco, f.family);
  }

  lemma ExclusiveIsSlot(f: Finding, g: Finding)
    requires Exclusive(f, g)
    ensures SameSlot(f, g)
  {
    SingleVersionIsEco(f.eco);
    SlotIff(f, g);
  }

  /** A key of the one is a key of the other, or the two exclude each other. */
  ghost predicate Related(f: Finding, g: Finding) {
    (exists key <- f.keys :: key in g.keys) || Exclusive(f, g)
  }

  ghost function RelatedLinks(fs: Findings): set<Link> {
    set i: nat, j: nat | i < |fs| && j < |fs| && Related(fs[i], fs[j]) :: (i, j)
  }

  ghost predicate Plain(fs: Findings) {
    forall f <- fs :: IsEco(f.eco)
  }

  lemma FirmLinkIff(fs: Findings, i: nat, j: nat)
    requires i < |fs| && j < |fs| && IsEco(fs[i].eco) && IsEco(fs[j].eco)
    ensures (i, j) in FirmLinks(fs) <==> Related(fs[i], fs[j])
  {
    SlotIff(fs[i], fs[j]);
    KeyLinkIff(fs, i, j);
  }

  lemma KeyLinkIff(fs: Findings, i: nat, j: nat)
    requires i < |fs| && j < |fs|
    ensures (i, j) in KeyIndex.KeyLinks(KeysOf(fs)) <==> exists key <- fs[i].keys :: key in fs[j].keys
  {
    assert KeysOf(fs)[i] == fs[i].keys && KeysOf(fs)[j] == fs[j].keys;
    if key :| key in fs[i].keys && key in fs[j].keys {
      assert KeyIndex.SharesKey(KeysOf(fs), i, j);
    }
  }

  lemma FirmIsRelated(fs: Findings)
    requires Plain(fs)
    ensures FirmLinks(fs) == RelatedLinks(fs)
  {
    forall i: nat, j: nat | i < |fs| && j < |fs|
      ensures (i, j) in FirmLinks(fs) <==> (i, j) in RelatedLinks(fs)
    {
      FirmLinkIff(fs, i, j);
    }
  }

  // ---- who ends in one bucket ------------------------------------------------------------------

  ghost predicate Together(buckets: map<nat, seq<nat>>, i: nat, j: nat) {
    exists r: nat :: InBucket(buckets, r, i) && InBucket(buckets, r, j)
  }

  lemma TogetherIff(n: nat, links: set<Link>, buckets: map<nat, seq<nat>>, i: nat, j: nat)
    requires IsBucketing(n, links, buckets) && i < n && j < n
    ensures Together(buckets, i, j) <==> Chained(links, i, j)
  {
    assert Placed(buckets, i);
    var r: nat :| InBucket(buckets, r, i);
    if Chained(links, i, j) {
      ChainedTrans(links, r, i, j);
      assert InBucket(buckets, r, j);
    }
    if q: nat :| InBucket(buckets, q, i) && InBucket(buckets, q, j) {
      ChainedSym(links, q, i);
      ChainedTrans(links, i, q, j);
    }
  }

  /** One bucket per environment: two versions of a package that exclude each other are one
      component. */
  lemma ExclusiveTogether(fs: Findings, buckets: map<nat, seq<nat>>, i: nat, j: nat)
    requires IsBucketing(|fs|, FinalLinks(fs), buckets)
    requires i < |fs| && j < |fs| && Exclusive(fs[i], fs[j])
    ensures Together(buckets, i, j)
  {
    ExclusiveIsSlot(fs[i], fs[j]);
    assert (i, j) in FirmLinks(fs);
    FamilyAttach.FinalHoldsSettled(fs);
    ChainedStep(FinalLinks(fs), i, j);
    TogetherIff(|fs|, FinalLinks(fs), buckets, i, j);
  }

  /** Without declared claims the buckets are the chains of related findings and nothing else. */
  lemma ResolvedTogetherIff(fs: Findings, buckets: map<nat, seq<nat>>, i: nat, j: nat)
    requires Plain(fs) && (forall f <- fs :: f.version != "") && IsBucketing(|fs|, FinalLinks(fs), buckets)
    requires i < |fs| && j < |fs|
    ensures Together(buckets, i, j) <==> Chained(RelatedLinks(fs), i, j)
  {
    assert OpenFamilies(fs) == {};
    assert FinalLinks(fs) == FirmLinks(fs);
    FirmIsRelated(fs);
    TogetherIff(|fs|, FinalLinks(fs), buckets, i, j);
  }

  /** Claims that name a package and no version of it are one component. */
  lemma DeclaredTogether(fs: Findings, buckets: map<nat, seq<nat>>, i: nat, j: nat)
    requires IsBucketing(|fs|, FinalLinks(fs), buckets)
    requires i < |fs| && j < |fs| && SamePackage(fs[i], fs[j]) && fs[i].version == "" == fs[j].version
    ensures Together(buckets, i, j)
  {
    assert FamilyAttach.Alike(fs, i, j);
    assert (i, j) in FamilyAttach.DraftLinks(fs);
    FamilyAttach.FinalHoldsSettled(fs);
    ChainedStep(FinalLinks(fs), i, j);
    TogetherIff(|fs|, FinalLinks(fs), buckets, i, j);
  }

  /** All versions found of the package exclude each other. */
  ghost predicate OneRelease(fs: Findings, f: Finding) {
    forall g <- fs, h <- fs :: g.version != "" && h.version != "" && SamePackage(f, g) && SamePackage(f, h)
                               ==> Exclusive(g, h)
  }

  /** Such a package's declared claims are the component of its resolved ones. */
  lemma DeclaredJoinsResolved(fs: Findings, buckets: map<nat, seq<nat>>, i: nat, c: nat)
    requires IsBucketing(|fs|, FinalLinks(fs), buckets) && Plain(fs)
    requires i < |fs| && c < |fs| && SamePackage(fs[i], fs[c]) && fs[i].version == "" && fs[c].version != ""
    requires OneRelease(fs, fs[i])
    ensures Together(buckets, i, c)
  {
    var fam := fs[i].Fam();
    forall a, b | a in Concrete(fs, fam) && b in Concrete(fs, fam) ensures Chained(FirmLinks(fs), a, b) {
      FamTellsApart(fs[i], fs[a]);
      FamTellsApart(fs[i], fs[b]);
      ExclusiveIsSlot(fs[a], fs[b]);
      assert (a, b) in FirmLinks(fs);
      ChainedStep(FirmLinks(fs), a, b);
    }
    assert c in Concrete(fs, fam);
    assert FamilyAttach.Attaches(fs, i, c);
    assert (i, c) in FamilyAttach.SettledLinks(fs);
    FamilyAttach.FinalHoldsSettled(fs);
    ChainedStep(FinalLinks(fs), i, c);
    TogetherIff(|fs|, FinalLinks(fs), buckets, i, c);
  }

  /** Some two versions found of the finding's package are not joined by related findings. */
  ghost predicate SeveralReleases(fs: Findings, f: Finding) {
    exists a: nat, b: nat {:trigger Chained(RelatedLinks(fs), a, b)} ::
      && a < |fs| && b < |fs| && fs[a].version != "" && fs[b].version != ""
      && SamePackage(f, fs[a]) && SamePackage(f, fs[b]) && !Chained(RelatedLinks(fs), a, b)
  }

  lemma UndecidedIff(fs: Findings, i: nat)
    requires Plain(fs) && i < |fs|
    ensures FamilyAttach.IsUndecided(fs, i) <==> fs[i].version == "" && SeveralReleases(fs, fs[i])
  {
    var fam := fs[i].Fam();
    FirmIsRelated(fs);
    forall a: nat | a < |fs| ensures a in Concrete(fs, fam) <==> fs[a].version != "" && SamePackage(fs[i], fs[a]) {
      FamTellsApart(fs[i], fs[a]);
    }
    if FamilyAttach.IsUndecided(fs, i) {
      var a: nat, b: nat :| a in Concrete(fs, fam) && b in Concrete(fs, fam) && !Chained(FirmLinks(fs), a, b);
      assert !Chained(RelatedLinks(fs), a, b);
    }
    if fs[i].version == "" && SeveralReleases(fs, fs[i]) {
      var a: nat, b: nat :| && a < |fs| && b < |fs| && fs[a].version != "" && fs[b].version != ""
                            && SamePackage(fs[i], fs[a]) && SamePackage(fs[i], fs[b])
                            && !Chained(RelatedLinks(fs), a, b);
      assert a in Concrete(fs, fam) && b in Concrete(fs, fam);
    }
  }

  /** Where nothing is fused, the claims reported as ambiguous are those that name no version of a
      package of which several unrelated ones were found. */
  lemma AmbiguousMeans(fs: Findings, i: nat)
    requires Plain(fs) && FamilyAttach.Untangled(fs)
    ensures i in AmbiguousClaims(fs) <==> i < |fs| && fs[i].version == "" && SeveralReleases(fs, fs[i])
  {
    FamilyAttach.AmbiguousIff(fs, i);
    if i < |fs| {
      UndecidedIff(fs, i);
    }
  }
}
