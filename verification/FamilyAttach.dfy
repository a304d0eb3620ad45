// What attaching declared claims means.
module FamilyAttach {
  import opened Links
  import opened Buckets
  import KeyIndex
  import Order

  /** The family has resolved claims and they are one component already. */
  ghost predicate Settled(fs: Findings, fam: string) {
    Concrete(fs, fam) != {} && AllChained(FirmLinks(fs), Concrete(fs, fam))
  }

  /** Step 1 and the joining of each family's declared claims, before anything is attached. */
  ghost function DraftLinks(fs: Findings): set<Link> {
    FirmLinks(fs) + set i: nat, j: nat | i < |fs| && j < |fs| && Alike(fs, i, j) :: (i, j)
  }

  predicate Alike(fs: Findings, i: nat, j: nat)
    requires i < |fs| && j < |fs|
  {
    !fs[i].Versioned() && !fs[j].Versioned() && fs[i].Fam() == fs[j].Fam()
  }

  /** The attachments of settled families. */
  ghost function Attachments(fs: Findings): set<Link> {
    set i: nat, c: nat | i < |fs| && c < |fs| && Attaches(fs, i, c) :: (i, c)
  }

  ghost predicate Attaches(fs: Findings, i: nat, c: nat)
    requires i < |fs| && c < |fs|
  {
    !fs[i].Versioned() && fs[c].Versioned() && fs[i].Fam() == fs[c].Fam() && Settled(fs, fs[i].Fam())
  }

  ghost function SettledLinks(fs: Findings): set<Link> {
    DraftLinks(fs) + Attachments(fs)
  }

  /** The resolved claim c is in y's draft component, or of a settled family declared there. */
  ghost predicate Draws(fs: Findings, y: nat, c: nat) {
    && c < |fs| && fs[c].Versioned()
    && (Chained(DraftLinks(fs), y, c) || exists i: nat {:trigger Offers(fs, y, i, c)} :: Offers(fs, y, i, c))
  }

  ghost predicate Offers(fs: Findings, y: nat, i: nat, c: nat) {
    i < |fs| && c < |fs| && Attaches(fs, i, c) && Chained(DraftLinks(fs), y, i)
  }

  /** No draft component draws resolved claims that step 1 keeps apart. */
  ghost predicate Untangled(fs: Findings) {
    forall y: nat, a: nat, b: nat {:trigger Draws(fs, y, a), Draws(fs, y, b)} ::
      Draws(fs, y, a) && Draws(fs, y, b) ==> Chained(FirmLinks(fs), a, b)
  }

  ghost predicate FusesNothing(fs: Findings, links: set<Link>) {
    forall a: nat, b: nat {:trigger Chained(links, a, b)} ::
      a < |fs| && b < |fs| && fs[a].Versioned() && fs[b].Versioned() && Chained(links, a, b)
      ==> Chained(FirmLinks(fs), a, b)
  }

  // ---- what a walk over settled links can reach ---------------------------------------------

  /** y draws a claim of a's component. */
  ghost predicate Reaches(fs: Findings, a: nat, y: nat) {
    exists c: nat {:trigger Draws(fs, y, c)} :: Draws(fs, y, c) && Chained(FirmLinks(fs), a, c)
  }

  lemma DrawsItself(fs: Findings, a: nat)
    requires a < |fs| && fs[a].Versioned()
    ensures Draws(fs, a, a)
  {
    ChainedSelf(DraftLinks(fs), a);
  }

  lemma DrawsAttached(fs: Findings, i: nat, c: nat)
    requires (i, c) in Attachments(fs)
    ensures Draws(fs, i, c) && Draws(fs, c, c)
  {
    ChainedSelf(DraftLinks(fs), i);
    assert Offers(fs, i, i, c);
    DrawsItself(fs, c);
  }

  lemma DraftStep(fs: Findings, y: nat, z: nat, c: nat)
    requires Adjacent(DraftLinks(fs), y, z) && Draws(fs, y, c)
    ensures Draws(fs, z, c)
  {
    ChainedStep(DraftLinks(fs), z, y);
    if Chained(DraftLinks(fs), y, c) {
      ChainedTrans(DraftLinks(fs), z, y, c);
    } else {
      var i: nat :| Offers(fs, y, i, c);
      ChainedTrans(DraftLinks(fs), z, y, i);
      assert Offers(fs, z, i, c);
    }
  }

  lemma SettledStep(fs: Findings, a: nat, y: nat, z: nat)
    requires Untangled(fs) && Reaches(fs, a, y) && Adjacent(SettledLinks(fs), y, z)
    ensures Reaches(fs, a, z)
  {
    var c: nat :| Draws(fs, y, c) && Chained(FirmLinks(fs), a, c);
    if Adjacent(DraftLinks(fs), y, z) {
      DraftStep(fs, y, z, c);
    } else {
      var hub := if (y, z) in Attachments(fs) then z else y;
      DrawsAttached(fs, if hub == z then y else z, hub);
      ChainedTrans(FirmLinks(fs), a, c, hub);
    }
  }

  lemma {:induction false} WalkReaches(fs: Findings, a: nat, y: nat, path: seq<nat>, z: nat)
    requires Untangled(fs) && Reaches(fs, a, y) && IsWalk(SettledLinks(fs), y, path, z)
    ensures Reaches(fs, a, z)
    decreases |path|
  {
    if path == [] {
    } else {
      SettledStep(fs, a, y, path[0]);
      WalkReaches(fs, a, path[0], path[1..], z);
    }
  }

  lemma ChainReaches(fs: Findings, a: nat, z: nat)
    requires Untangled(fs) && a < |fs| && fs[a].Versioned() && Chained(SettledLinks(fs), a, z)
    ensures Reaches(fs, a, z)
  {
    DrawsItself(fs, a);
    ChainedSelf(FirmLinks(fs), a);
    var path :| IsWalk(SettledLinks(fs), a, path, z);
    WalkReaches(fs, a, a, path, z);
  }

  /** What a claim draws, settled links chain it to. */
  lemma DrawnIsChained(fs: Findings, y: nat, c: nat)
    requires Draws(fs, y, c)
    ensures Chained(SettledLinks(fs), y, c)
  {
    var links := SettledLinks(fs);
    if Chained(DraftLinks(fs), y, c) {
      ChainedMono(DraftLinks(fs), links, y, c);
    } else {
      var i: nat :| Offers(fs, y, i, c);
      ChainedMono(DraftLinks(fs), links, y, i);
      assert (i, c) in Attachments(fs);
      ChainedStep(links, i, c);
      ChainedTrans(links, y, i, c);
    }
  }

  lemma SettledFusesIff(fs: Findings)
    ensures Untangled(fs) <==> FusesNothing(fs, SettledLinks(fs))
  {
    var links := SettledLinks(fs);
    if Untangled(fs) {
      forall a: nat, b: nat | a < |fs| && b < |fs| && fs[a].Versioned() && fs[b].Versioned() && Chained(links, a, b)
        ensures Chained(FirmLinks(fs), a, b)
      {
        ChainReaches(fs, a, b);
        var c: nat :| Draws(fs, b, c) && Chained(FirmLinks(fs), a, c);
        DrawsItself(fs, b);
        ChainedTrans(FirmLinks(fs), a, c, b);
      }
    }
    if FusesNothing(fs, links) {
      forall y: nat, a: nat, b: nat | Draws(fs, y, a) && Draws(fs, y, b) ensures Chained(FirmLinks(fs), a, b) {
        DrawnIsChained(fs, y, a);
        DrawnIsChained(fs, y, b);
        ChainedSym(links, y, a);
        ChainedTrans(links, a, y, b);
      }
    }
  }

  // ---- the families attached in turn ----------------------------------------------------------

  lemma ChainedAsBefore(fs: Findings, links: set<Link>, fam: string)
    requires FirmLinks(fs) <= links && FusesNothing(fs, links)
    ensures AllChained(links, Concrete(fs, fam)) <==> AllChained(FirmLinks(fs), Concrete(fs, fam))
  {
    forall i, j | i in Concrete(fs, fam) && j in Concrete(fs, fam)
      ensures Chained(links, i, j) <==> Chained(FirmLinks(fs), i, j)
    {
      if Chained(FirmLinks(fs), i, j) {
        ChainedMono(FirmLinks(fs), links, i, j);
      }
    }
  }

  lemma FusesLess(fs: Findings, links: set<Link>, more: set<Link>)
    requires links <= more && FusesNothing(fs, more)
    ensures FusesNothing(fs, links)
  {
    forall a: nat, b: nat | a < |fs| && b < |fs| && fs[a].Versioned() && fs[b].Versioned() && Chained(links, a, b)
      ensures Chained(FirmLinks(fs), a, b)
    {
      ChainedMono(links, more, a, b);
    }
  }

  /** One family's turn adds no more than its settled links. */
  lemma AttachOneWithin(fs: Findings, fam: string, links: set<Link>)
    requires FusesNothing(fs, SettledLinks(fs)) && FirmLinks(fs) <= links <= SettledLinks(fs)
    ensures links <= AttachOne(fs, fam, links) <= SettledLinks(fs)
    ensures IsAmbiguous(fs, fam, links) <==> Concrete(fs, fam) != {} && !Settled(fs, fam)
  {
    var joined := links + Pairs(Unresolved(fs, fam), Unresolved(fs, fam));
    forall l | l in joined ensures l in SettledLinks(fs) {
      if l !in links {
        assert Alike(fs, l.0, l.1);
      }
    }
    FusesLess(fs, joined, SettledLinks(fs));
    ChainedAsBefore(fs, joined, fam);
    forall l | l in AttachOne(fs, fam, links) ensures l in SettledLinks(fs) {
      if l !in joined {
        assert Attaches(fs, l.0, l.1);
      }
    }
  }

  lemma {:induction false} AttachWithin(fs: Findings, fams: seq<string>)
    requires FusesNothing(fs, SettledLinks(fs))
    ensures FirmLinks(fs) <= Attach(fs, fams, FirmLinks(fs)) <= SettledLinks(fs)
    decreases |fams|
  {
    if fams == [] {
    } else {
      AttachWithin(fs, fams[..|fams| - 1]);
      AttachOneWithin(fs, fams[|fams| - 1], Attach(fs, fams[..|fams| - 1], FirmLinks(fs)));
    }
  }

  /** A family's turn adds its settled links, whatever came before. */
  lemma AttachOneHolds(fs: Findings, fam: string, links: set<Link>)
    requires FirmLinks(fs) <= links
    ensures Pairs(Unresolved(fs, fam), Unresolved(fs, fam)) <= AttachOne(fs, fam, links)
    ensures Settled(fs, fam) ==> Pairs(Unresolved(fs, fam), Concrete(fs, fam)) <= AttachOne(fs, fam, links)
  {
    var joined := links + Pairs(Unresolved(fs, fam), Unresolved(fs, fam));
    if Settled(fs, fam) {
      forall i, j | i in Concrete(fs, fam) && j in Concrete(fs, fam) ensures Chained(joined, i, j) {
        ChainedMono(FirmLinks(fs), joined, i, j);
      }
    }
  }

  lemma {:induction false} AttachHolds(fs: Findings, fams: seq<string>, fam: string)
    ensures FirmLinks(fs) <= Attach(fs, fams, FirmLinks(fs))
    ensures fam in fams ==> Pairs(Unresolved(fs, fam), Unresolved(fs, fam)) <= Attach(fs, fams, FirmLinks(fs))
    ensures fam in fams && Settled(fs, fam)
        ==> Pairs(Unresolved(fs, fam), Concrete(fs, fam)) <= Attach(fs, fams, FirmLinks(fs))
    decreases |fams|
  {
    if fams == [] {
    } else {
      var rest, last := fams[..|fams| - 1], fams[|fams| - 1];
      AttachHolds(fs, rest, fam);
      AttachOneHolds(fs, last, Attach(fs, rest, FirmLinks(fs)));
      assert fams == rest + [last];
    }
  }

  lemma OpenFamily(fs: Findings, i: nat)
    requires i < |fs| && !fs[i].Versioned()
    ensures fs[i].Fam() in Order.SortedNames(OpenFamilies(fs))
  {
    assert fs[i].Fam() in OpenFamilies(fs);
  }

  /** Settled links are always among the final ones. */
  lemma FinalHoldsSettled(fs: Findings)
    ensures SettledLinks(fs) <= FinalLinks(fs)
  {
    var fams := Order.SortedNames(OpenFamilies(fs));
    AttachHolds(fs, fams, "");
    forall l | l in SettledLinks(fs) && l !in FirmLinks(fs) ensures l in FinalLinks(fs) {
      var fam := fs[l.0].Fam();
      OpenFamily(fs, l.0);
      AttachHolds(fs, fams, fam);
      var others := if fs[l.1].Versioned() then Concrete(fs, fam) else Unresolved(fs, fam);
      assert (l.0, l.1) in Pairs(Unresolved(fs, fam), others);
    }
  }

  /** Where claims are untangled they are all of them. */
  lemma FinalIsSettled(fs: Findings)
    requires Untangled(fs)
    ensures FinalLinks(fs) == SettledLinks(fs)
  {
    SettledFusesIff(fs);
    AttachWithin(fs, Order.SortedNames(OpenFamilies(fs)));
    FinalHoldsSettled(fs);
  }

  lemma {:induction false} AmbiguousMeans(fs: Findings, fams: seq<string>, i: nat)
    requires Untangled(fs)
    ensures i in Ambiguous(fs, fams, FirmLinks(fs)) <==> i < |fs| && fs[i].Fam() in fams && IsUndecided(fs, i)
    decreases |fams|
  {
    if fams == [] {
    } else {
      var rest, last := fams[..|fams| - 1], fams[|fams| - 1];
      AmbiguousMeans(fs, rest, i);
      SettledFusesIff(fs);
      AttachWithin(fs, rest);
      AttachOneWithin(fs, last, Attach(fs, rest, FirmLinks(fs)));
      assert fams == rest + [last];
    }
  }

  /** A declared claim whose family resolves to more than one component. */
  ghost predicate IsUndecided(fs: Findings, i: nat)
    requires i < |fs|
  {
    !fs[i].Versioned() && Concrete(fs, fs[i].Fam()) != {} && !Settled(fs, fs[i].Fam())
  }

  // ---- the finished components ----------------------------------------------------------------

  /** Attaching declared claims keeps resolved ones as step 1 left them exactly when every draft
      component draws resolved claims of one component only. */
  lemma ResolvedStayApartIff(fs: Findings)
    ensures FusesNothing(fs, FinalLinks(fs)) <==> Untangled(fs)
  {
    SettledFusesIff(fs);
    FinalHoldsSettled(fs);
    if FusesNothing(fs, FinalLinks(fs)) {
      FusesLess(fs, SettledLinks(fs), FinalLinks(fs));
    }
    if Untangled(fs) {
      FinalIsSettled(fs);
    }
  }

  /** A declared claim ends with a resolved one exactly when it draws a claim of its component. */
  lemma DeclaredJoinsIff(fs: Findings, i: nat, b: nat)
    requires Untangled(fs) && i < |fs| && b < |fs| && !fs[i].Versioned() && fs[b].Versioned()
    ensures Chained(FinalLinks(fs), i, b)
       <==> exists c: nat {:trigger Draws(fs, i, c)} :: Draws(fs, i, c) && Chained(FirmLinks(fs), b, c)
  {
    var links := FinalLinks(fs);
    FinalIsSettled(fs);
    ChainedSym(links, i, b);
    if Chained(links, i, b) {
      ChainReaches(fs, b, i);
    }
    if c: nat :| Draws(fs, i, c) && Chained(FirmLinks(fs), b, c) {
      DrawnIsChained(fs, i, c);
      ChainedMono(FirmLinks(fs), links, b, c);
      ChainedSym(links, b, c);
      ChainedTrans(links, i, c, b);
    }
  }

  /** The claims reported as ambiguous are the declared ones whose family resolves to more than
      one component, whatever the order in which families are attached. */
  lemma AmbiguousIff(fs: Findings, i: nat)
    requires Untangled(fs)
    ensures i in AmbiguousClaims(fs) <==> i < |fs| && IsUndecided(fs, i)
  {
    AmbiguousMeans(fs, Order.SortedNames(OpenFamilies(fs)), i);
    if i < |fs| && !fs[i].Versioned() {
      OpenFamily(fs, i);
    }
  }

  /** No identity key leads out of the family's declared claims. */
  ghost predicate KeysStayIn(fs: Findings, fam: string) {
    forall l {:trigger l in FirmLinks(fs)} | l in FirmLinks(fs) ::
      l.0 in Unresolved(fs, fam) <==> l.1 in Unresolved(fs, fam)
  }

  /** An ambiguous claim's component is the declared claims of its family and nothing else
      exactly when none of them shares a key with anything else. */
  lemma AmbiguousStandApartIff(fs: Findings, i: nat)
    requires Untangled(fs) && i in AmbiguousClaims(fs)
    ensures i < |fs|
    ensures (forall j: nat :: Chained(FinalLinks(fs), i, j) <==> j in Unresolved(fs, fs[i].Fam()))
       <==> KeysStayIn(fs, fs[i].Fam())
  {
    AmbiguousIff(fs, i);
    FinalIsSettled(fs);
    var links, family := FinalLinks(fs), Unresolved(fs, fs[i].Fam());
    forall j: nat | j in family ensures Chained(links, i, j) {
      assert Alike(fs, i, j);
      ChainedStep(links, i, j);
    }
    if KeysStayIn(fs, fs[i].Fam()) {
      forall j: nat | Chained(links, i, j) ensures j in family {
        var path :| IsWalk(links, i, path, j);
        WalkUndecided(fs, fs[i].Fam(), i, path, j);
      }
    }
    if forall j: nat :: Chained(links, i, j) <==> j in family {
      forall l | l in FirmLinks(fs) ensures l.0 in family <==> l.1 in family {
        KeyLeadsOn(links, i, l);
      }
    }
  }

  lemma KeyLeadsOn(links: set<Link>, i: nat, l: Link)
    requires l in links
    ensures Chained(links, i, l.0) <==> Chained(links, i, l.1)
  {
    assert (l.0, l.1) in links;
    ChainedStep(links, l.0, l.1);
    ChainedStep(links, l.1, l.0);
    if Chained(links, i, l.0) {
      ChainedTrans(links, i, l.0, l.1);
    }
    if Chained(links, i, l.1) {
      ChainedTrans(links, i, l.1, l.0);
    }
  }

  lemma {:induction false} WalkUndecided(fs: Findings, fam: string, y: nat, path: seq<nat>, z: nat)
    requires KeysStayIn(fs, fam) && !Settled(fs, fam) && IsWalk(SettledLinks(fs), y, path, z)
    requires y in Unresolved(fs, fam)
    ensures z in Unresolved(fs, fam)
    decreases |path|
  {
    if path == [] {
    } else {
      var l := if (y, path[0]) in SettledLinks(fs) then (y, path[0]) else (path[0], y);
      assert l in FirmLinks(fs) ==> (l.0 in Unresolved(fs, fam) <==> l.1 in Unresolved(fs, fam));
      WalkUndecided(fs, fam, path[0], path[1..], z);
    }
  }

  // ---- a plain case -----------------------------------------------------------------------------

  /** Claims without a version share identity keys, if with anyone, with claims of their own
      family that have none either. */
  ghost predicate Separate(fs: Findings) {
    forall l {:trigger l in FirmLinks(fs)} | l in FirmLinks(fs) :: SeparateLink(fs, l)
  }

  predicate SeparateLink(fs: Findings, l: Link) {
    l.0 < |fs| && l.1 < |fs| && (Alike(fs, l.0, l.1) || (fs[l.0].Versioned() && fs[l.1].Versioned()))
  }

  lemma {:induction false} SeparateWalk(fs: Findings, y: nat, path: seq<nat>, z: nat)
    requires Separate(fs) && y < |fs| && IsWalk(DraftLinks(fs), y, path, z)
    ensures z < |fs| && if fs[y].Versioned() then fs[z].Versioned() && Chained(FirmLinks(fs), y, z) else Alike(fs, y, z)
    decreases |path|
  {
    if path == [] {
      ChainedSelf(FirmLinks(fs), y);
    } else {
      var l := if (y, path[0]) in DraftLinks(fs) then (y, path[0]) else (path[0], y);
      assert l in FirmLinks(fs) ==> SeparateLink(fs, l);
      SeparateWalk(fs, path[0], path[1..], z);
      if fs[y].Versioned() {
        ChainedStep(FirmLinks(fs), y, path[0]);
        ChainedTrans(FirmLinks(fs), y, path[0], z);
      }
    }
  }

  /** A separate declared claim draws its family's resolved claims, once they are settled. */
  lemma SeparateDraws(fs: Findings, y: nat, c: nat)
    requires Separate(fs) && y < |fs|
    ensures fs[y].Versioned() && Draws(fs, y, c) ==> Chained(FirmLinks(fs), y, c)
    ensures !fs[y].Versioned() ==> (Draws(fs, y, c) <==> c in Concrete(fs, fs[y].Fam()) && Settled(fs, fs[y].Fam()))
  {
    if !fs[y].Versioned() && c in Concrete(fs, fs[y].Fam()) && Settled(fs, fs[y].Fam()) {
      assert (y, c) in Attachments(fs);
      DrawsAttached(fs, y, c);
    }
    if Draws(fs, y, c) {
      if Chained(DraftLinks(fs), y, c) {
        SeparateChain(fs, y, c);
      } else {
        var i: nat :| Offers(fs, y, i, c);
        SeparateChain(fs, y, i);
      }
    }
  }

  lemma SeparateChain(fs: Findings, y: nat, z: nat)
    requires Separate(fs) && y < |fs| && Chained(DraftLinks(fs), y, z)
    ensures z < |fs| && if fs[y].Versioned() then fs[z].Versioned() && Chained(FirmLinks(fs), y, z) else Alike(fs, y, z)
  {
    var path :| IsWalk(DraftLinks(fs), y, path, z);
    SeparateWalk(fs, y, path, z);
  }

  /** So separate claims are untangled. */
  lemma SeparateIsUntangled(fs: Findings)
    requires Separate(fs)
    ensures Untangled(fs)
  {
    forall y: nat, a: nat, b: nat | Draws(fs, y, a) && Draws(fs, y, b) ensures Chained(FirmLinks(fs), a, b) {
      if y < |fs| {
        SeparateDraws(fs, y, a);
        SeparateDraws(fs, y, b);
        ChainedSym(FirmLinks(fs), y, a);
        if fs[y].Versioned() {
          ChainedTrans(FirmLinks(fs), a, y, b);
        }
      } else {
        Outside(fs, y);
      }
    }
  }

  lemma Outside(fs: Findings, y: nat)
    requires y >= |fs|
    ensures forall c: nat :: !Draws(fs, y, c)
  {
    FirmWithin(fs);
    forall z: nat | Chained(DraftLinks(fs), y, z) ensures z == y {
      var path :| IsWalk(DraftLinks(fs), y, path, z);
    }
  }

  // ---- where claims are tangled -----------------------------------------------------------------

  /** Two resolved claims of one family, each sharing a key with a declared one. */
  const ENTANGLED: Findings := [
    Finding(["a"], "1", "npm", "x", "p"), Finding(["b"], "2", "npm", "x", "q"),
    Finding(["a"], "", "npm", "x", "p"), Finding(["b"], "", "npm", "x", "q")]

  lemma EntangledLinks(l: Link)
    requires l in FirmLinks(ENTANGLED)
    ensures l.0 < 4 && l.1 < 4 && (l.0 in {0, 2} <==> l.1 in {0, 2})
  {
  }

  lemma {:induction false} EntangledWalk(y: nat, path: seq<nat>, z: nat)
    requires IsWalk(FirmLinks(ENTANGLED), y, path, z) && y in {0, 2}
    ensures z in {0, 2}
    decreases |path|
  {
    if path == [] {
    } else {
      EntangledLinks(if (y, path[0]) in FirmLinks(ENTANGLED) then (y, path[0]) else (path[0], y));
      EntangledWalk(path[0], path[1..], z);
    }
  }

  lemma EntangledKeys()
    ensures (0, 2) in FirmLinks(ENTANGLED) && (1, 3) in FirmLinks(ENTANGLED)
  {
    var keys := KeysOf(ENTANGLED);
    assert "a" in keys[0] && "a" in keys[2] && "b" in keys[1] && "b" in keys[3];
    assert KeyIndex.SharesKey(keys, 0, 2) && KeyIndex.SharesKey(keys, 1, 3);
  }

  lemma ThreeSteps(links: set<Link>, a: nat, b: nat, c: nat, d: nat)
    requires (a, b) in links && (b, c) in links && (d, c) in links
    ensures Chained(links, a, d)
  {
    ChainedStep(links, a, b);
    ChainedStep(links, b, c);
    ChainedStep(links, c, d);
    ChainedTrans(links, a, b, c);
    ChainedTrans(links, a, c, d);
  }

  /** The failing input: joining the declared claims of a family fuses the resolved claims they
      share keys with. */
  lemma EntangledAreFused()
    ensures Chained(FinalLinks(ENTANGLED), 0, 1) && !Chained(FirmLinks(ENTANGLED), 0, 1)
    ensures !Untangled(ENTANGLED)
  {
    EntangledKeys();
    FinalHoldsSettled(ENTANGLED);
    assert Alike(ENTANGLED, 2, 3);
    assert (2, 3) in DraftLinks(ENTANGLED);
    ThreeSteps(FinalLinks(ENTANGLED), 0, 2, 3, 1);
    if Chained(FirmLinks(ENTANGLED), 0, 1) {
      var path :| IsWalk(FirmLinks(ENTANGLED), 0, path, 1);
      EntangledWalk(0, path, 1);
    }
    ResolvedStayApartIff(ENTANGLED);
  }

  /** A declared claim that shares a key with its family's only resolved claim tangles nothing,
      although it is not separate. */
  const TETHERED: Findings := [Finding(["a"], "1", "npm", "x", ""), Finding(["a"], "", "npm", "x", "")]

  lemma TetheredIsUntangled()
    ensures Untangled(TETHERED) && !Separate(TETHERED)
  {
    forall y: nat, a: nat, b: nat | Draws(TETHERED, y, a) && Draws(TETHERED, y, b)
      ensures Chained(FirmLinks(TETHERED), a, b)
    {
      ChainedSelf(FirmLinks(TETHERED), 0);
    }
    var keys := KeysOf(TETHERED);
    assert "a" in keys[0] && "a" in keys[1];
    assert KeyIndex.SharesKey(keys, 0, 1);
    assert (0, 1) in FirmLinks(TETHERED) && !SeparateLink(TETHERED, (0, 1));
  }
}
