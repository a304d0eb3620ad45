// Scoring and version pinning inside one bucket of claims.
module Pinning {
  import opened Basics
  import opened Order
  import opened Seqs

  /** Trust tiers, higher being closer to ground truth. */
  datatype Tier = Inferred | Declared | Locked | Installed | Observed {
    function Rank(): nat {
      match this
      case Inferred => 1
      case Declared => 2
      case Locked => 3
      case Installed => 4
      case Observed => 5
    }

    function Cap(): real {
      match this
      case Inferred => 0.85
      case Declared => 0.90
      case Locked => 0.95
      case Installed => 0.98
      case Observed => 1.00
    }
  }

  datatype Evidence = Evidence(tier: Tier, confidence: real)

  /** A claim of the bucket; absent versions and purls are empty strings. */
  datatype Claim = Claim(version: string, purl: string, name: string, evidence: seq<Evidence>)

  // ---- confidence -------------------------------------------------------------------------

  type Fraction = r: real | 0.0 <= r <= 1.0 witness 0.0

  /** `1.0 - max(0.0, min(1.0, confidence))`. */
  function Doubt(e: Evidence): Fraction {
    if e.confidence < 0.0 then 1.0 else if e.confidence > 1.0 then 0.0 else 1.0 - e.confidence
  }

  /** One more piece of evidence multiplies the remaining doubt by its own. */
  function Discount(e: Evidence, doubt: Fraction): (rest: Fraction)
    ensures rest <= doubt
  {
    Scaled(Doubt(e), doubt);
    Doubt(e) * doubt
  }

  lemma Scaled(a: Fraction, b: Fraction)
    ensures 0.0 <= a * b <= b
  {
    assert (1.0 - a) * b >= 0.0;
  }

  lemma DiscountsCommute()
    ensures LeftCommutes(Discount)
  {
    forall a: Evidence, b: Evidence, r: Fraction ensures Discount(a, Discount(b, r)) == Discount(b, Discount(a, r)) {
      Reordered(Doubt(a), Doubt(b), r);
    }
  }

  lemma Reordered(a: real, b: real, c: real)
    ensures a * (b * c) == b * (a * c)
  {
  }

  /** The product of all doubts. */
  function Product(evidence: seq<Evidence>): Fraction {
    Fold(Discount, 1.0, evidence)
  }

  function Higher(a: Tier, b: Tier): Tier {
    if a.Rank() >= b.Rank() then a else b
  }

  function TopTier(evidence: seq<Evidence>): (t: Tier)
    ensures forall e <- evidence :: e.tier.Rank() <= t.Rank()
    ensures evidence != [] ==> exists e :: e in evidence && e.tier == t
  {
    if evidence == [] then Inferred
    else if |evidence| == 1 then evidence[0].tier
    else Higher(evidence[0].tier, TopTier(evidence[1..]))
  }

  /** Noisy-OR of all evidence, capped by the highest tier present. */
  function Confidence(evidence: seq<Evidence>): real {
    var p := 1.0 - Product(evidence);
    if p < TopTier(evidence).Cap() then p else TopTier(evidence).Cap()
  }

  method Score(evidence: seq<Evidence>) returns (confidence: real)
    ensures confidence == Confidence(evidence)
    ensures 0.0 <= confidence <= TopTier(evidence).Cap()
  {
    var prod: Fraction := 1.0;
    for k := 0 to |evidence|
      invariant prod == Product(evidence[..k])
    {
      ProductSnoc(evidence[..k], evidence[k]);
      assert evidence[..k + 1] == evidence[..k] + [evidence[k]];
      prod := Discount(evidence[k], prod);
    }
    assert evidence[..|evidence|] == evidence;
    var cap := TopTier(evidence).Cap();
    confidence := if 1.0 - prod < cap then 1.0 - prod else cap;
  }

  lemma ProductSnoc(evidence: seq<Evidence>, e: Evidence)
    ensures Product(evidence + [e]) == Discount(e, Product(evidence))
  {
    DiscountsCommute();
    FoldShuffled(Discount, 1.0, evidence + [e], [e] + evidence);
    assert ([e] + evidence)[1..] == evidence;
  }

  /** A piece of evidence multiplies what the others leave open by what it leaves open itself, its
      confidence being read as a probability. */
  lemma ProductHead(e: Evidence, others: seq<Evidence>)
    ensures 0.0 <= e.confidence <= 1.0 ==> Product([e] + others) == (1.0 - e.confidence) * Product(others)
    ensures e.confidence > 1.0 ==> Product([e] + others) == 0.0
    ensures e.confidence < 0.0 ==> Product([e] + others) == Product(others)
  {
    assert ([e] + others)[1..] == others;
  }

  /** Alone it counts for its confidence, up to its tier's cap. */
  lemma ConfidenceOfOne(e: Evidence)
    ensures Confidence([]) == 0.0
    ensures Confidence([e]) == if e.confidence < 0.0 then 0.0
                               else if e.confidence < e.tier.Cap() then e.confidence else e.tier.Cap()
  {
    ProductHead(e, []);
    assert [e] + [] == [e] && Product([]) == 1.0;
  }

  lemma {:induction false} TopTierShuffled(a: seq<Evidence>, b: seq<Evidence>)
    requires multiset(a) == multiset(b)
    ensures TopTier(a) == TopTier(b)
  {
    SameElements(a, b);
    if a != [] {
      RanksDiffer(TopTier(a), TopTier(b));
    }
  }

  /** The order of the evidence does not matter. */
  lemma ConfidenceShuffled(a: seq<Evidence>, b: seq<Evidence>)
    requires multiset(a) == multiset(b)
    ensures Confidence(a) == Confidence(b)
  {
    DiscountsCommute();
    FoldShuffled(Discount, 1.0, a, b);
    TopTierShuffled(a, b);
  }

  /** More evidence, of whatever tier and confidence, never lowers the score. */
  lemma ConfidenceGrows(evidence: seq<Evidence>, e: Evidence)
    ensures Confidence(evidence + [e]) >= Confidence(evidence)
  {
    ProductSnoc(evidence, e);
    TopTierGrows(evidence, e);
    CapsRise(TopTier(evidence), TopTier(evidence + [e]));
  }

  lemma {:induction false} TopTierGrows(evidence: seq<Evidence>, e: Evidence)
    ensures TopTier(evidence).Rank() <= TopTier(evidence + [e]).Rank()
  {
    if evidence != [] {
      var top := TopTier(evidence);
      var f :| f in evidence && f.tier == top;
      assert f in evidence + [e];
    }
  }

  lemma CapsRise(a: Tier, b: Tier)
    ensures a.Rank() <= b.Rank() <==> a.Cap() <= b.Cap()
  {
  }

  // ---- pinning ----------------------------------------------------------------------------

  function ClaimTier(c: Claim): Tier {
    TopTier(c.evidence)
  }

  /** The sort key (tier, version, purl, name), compared in that order. */
  predicate KeyLe(a: Claim, b: Claim) {
    if ClaimTier(a) != ClaimTier(b) then ClaimTier(a).Rank() < ClaimTier(b).Rank()
    else if a.version != b.version then StrLe(a.version, b.version)
    else if a.purl != b.purl then StrLe(a.purl, b.purl)
    else StrLe(a.name, b.name)
  }

  lemma RanksDiffer(a: Tier, b: Tier)
    ensures a.Rank() == b.Rank() ==> a == b
  {
  }

  lemma KeyTotal(a: Claim, b: Claim)
    ensures KeyLe(a, b) || KeyLe(b, a)
  {
    RanksDiffer(ClaimTier(a), ClaimTier(b));
    StrTotal(a.version, b.version);
    StrTotal(a.purl, b.purl);
    StrTotal(a.name, b.name);
  }

  lemma KeyTrans(a: Claim, b: Claim, c: Claim)
    requires KeyLe(a, b) && KeyLe(b, c)
    ensures KeyLe(a, c)
  {
    RanksDiffer(ClaimTier(a), ClaimTier(b));
    RanksDiffer(ClaimTier(b), ClaimTier(c));
    if ClaimTier(a) == ClaimTier(b) == ClaimTier(c) {
      LexicalTrans(a, b, c);
    }
  }

  lemma LexicalTrans(a: Claim, b: Claim, c: Claim)
    requires ClaimTier(a) == ClaimTier(b) == ClaimTier(c) && KeyLe(a, b) && KeyLe(b, c)
    ensures KeyLe(a, c)
  {
    if a.version != b.version && b.version != c.version {
      StrTrans(a.version, b.version, c.version);
      StrTotal(a.version, b.version);
    } else if a.version == b.version == c.version {
      if a.purl != b.purl && b.purl != c.purl {
        StrTrans(a.purl, b.purl, c.purl);
        StrTotal(a.purl, b.purl);
      } else if a.purl == b.purl == c.purl {
        StrTrans(a.name, b.name, c.name);
      }
    }
  }

  predicate NotAbove(d: Claim, c: Claim) {
    || ClaimTier(d).Rank() < ClaimTier(c).Rank()
    || (ClaimTier(d) == ClaimTier(c) && StrLe(d.version, c.version))
  }

  lemma KeyNotAbove(d: Claim, c: Claim)
    requires KeyLe(d, c)
    ensures NotAbove(d, c)
  {
    StrTotal(d.version, d.version);
  }

  /** No claim of `rest` has a greater key than `c`. */
  ghost predicate Tops(c: Claim, rest: seq<Claim>) {
    forall d <- rest :: KeyLe(d, c)
  }

  /** Every claim's key is at least those of all claims after it. */
  ghost predicate Descending(s: seq<Claim>) {
    s == [] || (Tops(s[0], s[1..]) && Descending(s[1..]))
  }

  function Insert(c: Claim, s: seq<Claim>): (r: seq<Claim>)
    ensures multiset(r) == multiset(s) + multiset{c}
  {
    if s == [] || KeyLe(s[0], c) then [c] + s
    else
      assert s == [s[0]] + s[1..];
      [s[0]] + Insert(c, s[1..])
  }

  /** `sorted(members, key=member_key, reverse=True)`. */
  function Sorted(s: seq<Claim>): (r: seq<Claim>)
    ensures multiset(r) == multiset(s)
  {
    if s == [] then []
    else
      assert s == [s[0]] + s[1..];
      Insert(s[0], Sorted(s[1..]))
  }

  lemma {:induction false} InsertDescending(c: Claim, s: seq<Claim>)
    requires Descending(s)
    ensures Descending(Insert(c, s))
  {
    var r := Insert(c, s);
    if s == [] || KeyLe(s[0], c) {
      assert r[1..] == s;
      if s != [] {
        forall d | d in s ensures KeyLe(d, c) {
          if d != s[0] {
            assert d in s[1..];
            KeyTrans(d, s[0], c);
          }
        }
      }
    } else {
      InsertDescending(c, s[1..]);
      assert r[1..] == Insert(c, s[1..]);
      KeyTotal(c, s[0]);
      forall d | d in r[1..] ensures KeyLe(d, s[0]) {
        assert d in multiset(Insert(c, s[1..]));
        assert d == c || d in multiset(s[1..]);
      }
    }
  }

  lemma {:induction false} SortedDescending(s: seq<Claim>)
    ensures Descending(Sorted(s))
  {
    if s == [] {
    } else {
      SortedDescending(s[1..]);
      InsertDescending(s[0], Sorted(s[1..]));
    }
  }

  datatype Pin = Pin(version: Option<string>, tier: Tier, conflicts: set<string>, superseded: seq<(string, Tier)>)

  type Bag = multiset<(string, Tier)>

  /** What one claim adds to the superseded list. */
  function Loss(c: Claim, version: string, tier: Tier): Bag {
    if c.version != "" && c.version != version && ClaimTier(c) != tier then multiset{(c.version, ClaimTier(c))}
    else multiset{}
  }

  function AddLoss(version: string, tier: Tier): (Claim, Bag) -> Bag {
    (c, bag) => bag + Loss(c, version, tier)
  }

  /** The versions that lose to the pin, with the tier that claimed them. */
  function Losers(claims: seq<Claim>, version: string, tier: Tier): Bag {
    Fold(AddLoss(version, tier), multiset{}, claims)
  }

  /** The versions other claims of the pin's own tier name. */
  function Dissent(claims: seq<Claim>, version: string, tier: Tier): set<string> {
    set c <- claims | c.version != "" && c.version != version && ClaimTier(c) == tier :: c.version
  }

  /** What a pin of these claims is: the version of the greatest (tier, version) claim, the
      same-tier dissenters, and the lower-tier ones, each once per claim. */
  ghost predicate IsPin(claims: seq<Claim>, pin: Pin) {
    match pin.version
    case None =>
      pin.conflicts == {} && pin.superseded == [] && forall c <- claims :: c.version == ""
    case Some(v) =>
      && (exists c :: c in claims && v == c.version != "" && ClaimTier(c) == pin.tier)
      && (forall c <- claims | c.version != "" ::
            ClaimTier(c).Rank() < pin.tier.Rank() || (ClaimTier(c) == pin.tier && StrLe(c.version, v)))
      && pin.conflicts == Dissent(claims, v, pin.tier)
      && multiset(pin.superseded) == Losers(claims, v, pin.tier)
      && forall l <- pin.superseded :: l.1.Rank() < pin.tier.Rank()
  }

  method PinVersion(members: seq<Claim>) returns (pin: Pin)
    ensures IsPin(members, pin)
  {
    var claims := Sorted(members);
    SortedDescending(members);
    pin := Pin(None, Inferred, {}, []);
    for k := 0 to |claims|
      invariant Pinned(claims, k, pin)
    {
      var c := claims[k];
      PinStep(claims, k, pin);
      pin := Next(pin, c);
    }
    PinnedAll(claims, pin);
    SamePin(claims, members, pin);
  }

  /** One turn of the pinning loop. */
  function Next(pin: Pin, c: Claim): Pin {
    if c.version == "" then pin
    else if pin.version.None? then pin.(version := Some(c.version), tier := ClaimTier(c))
    else if c.version == pin.version.value then pin
    else if ClaimTier(c) == pin.tier then pin.(conflicts := pin.conflicts + {c.version})
    else pin.(superseded := pin.superseded + [(c.version, ClaimTier(c))])
  }

  /** The first versioned claim among the first k carries this version and tier. */
  ghost predicate FirstVersioned(claims: seq<Claim>, k: nat, version: string, tier: Tier)
    requires k <= |claims|
  {
    exists m :: 0 <= m < k && claims[m].version == version != "" && ClaimTier(claims[m]) == tier
                && forall j | 0 <= j < m :: claims[j].version == ""
  }

  ghost predicate Pinned(claims: seq<Claim>, k: nat, pin: Pin)
    requires k <= |claims|
  {
    if pin.version.None? then
      pin.conflicts == {} && pin.superseded == [] && forall c <- claims[..k] :: c.version == ""
    else
      && FirstVersioned(claims, k, pin.version.value, pin.tier)
      && pin.conflicts == Dissent(claims[..k], pin.version.value, pin.tier)
      && multiset(pin.superseded) == Losers(claims[..k], pin.version.value, pin.tier)
  }

  lemma {:induction false} NoLosers(claims: seq<Claim>, version: string, tier: Tier)
    requires forall c <- claims :: c.version == ""
    ensures Losers(claims, version, tier) == multiset{}
  {
    if claims == [] {
    } else {
      NoLosers(claims[1..], version, tier);
    }
  }

  lemma DissentSnoc(claims: seq<Claim>, c: Claim, version: string, tier: Tier)
    ensures Dissent(claims + [c], version, tier) == Dissent(claims, version, tier)
            + if c.version != "" && c.version != version && ClaimTier(c) == tier then {c.version} else {}
  {
    forall d ensures d in claims + [c] <==> d in claims || d == c {}
  }

  lemma LosersSnoc(claims: seq<Claim>, c: Claim, version: string, tier: Tier)
    ensures Losers(claims + [c], version, tier) == Losers(claims, version, tier) + Loss(c, version, tier)
  {
    LosersShuffled(claims + [c], [c] + claims, version, tier);
    assert ([c] + claims)[1..] == claims;
  }

  lemma LosersShuffled(a: seq<Claim>, b: seq<Claim>, version: string, tier: Tier)
    requires multiset(a) == multiset(b)
    ensures Losers(a, version, tier) == Losers(b, version, tier)
  {
    var op := AddLoss(version, tier);
    forall c, d, bag: Bag ensures op(c, op(d, bag)) == op(d, op(c, bag)) {}
    FoldShuffled(op, multiset{}, a, b);
  }

  lemma StillFirst(claims: seq<Claim>, k: nat, version: string, tier: Tier)
    requires k < |claims| && FirstVersioned(claims, k, version, tier)
    ensures FirstVersioned(claims, k + 1, version, tier)
  {
    var m :| 0 <= m < k && claims[m].version == version != "" && ClaimTier(claims[m]) == tier
             && forall j | 0 <= j < m :: claims[j].version == "";
    assert claims[m].version == version;
  }

  lemma PinMore(claims: seq<Claim>, k: nat, pin: Pin)
    requires k < |claims| && Pinned(claims, k, pin) && pin.version.Some?
    ensures Pinned(claims, k + 1, Next(pin, claims[k]))
  {
    var c, before, v, t := claims[k], claims[..k], pin.version.value, pin.tier;
    assert claims[..k + 1] == before + [c];
    StillFirst(claims, k, v, t);
    LosersSnoc(before, c, v, t);
    DissentSnoc(before, c, v, t);
    var next := Next(pin, c);
    assert multiset(next.superseded) == multiset(pin.superseded) + Loss(c, v, t);
    assert next.conflicts == Dissent(before + [c], v, t);
  }

  lemma PinStep(claims: seq<Claim>, k: nat, pin: Pin)
    requires k < |claims| && Pinned(claims, k, pin)
    ensures Pinned(claims, k + 1, Next(pin, claims[k]))
  {
    if pin.version.Some? {
      PinMore(claims, k, pin);
    } else if claims[k].version != "" {
      FirstPin(claims, k);
    } else {
      assert claims[..k + 1] == claims[..k] + [claims[k]];
    }
  }

  lemma FirstPin(claims: seq<Claim>, k: nat)
    requires k < |claims| && claims[k].version != "" && forall c <- claims[..k] :: c.version == ""
    ensures Pinned(claims, k + 1, Pin(Some(claims[k].version), ClaimTier(claims[k]), {}, []))
  {
    var c, before := claims[k], claims[..k];
    assert claims[..k + 1] == before + [c];
    NoLosers(before, c.version, ClaimTier(c));
    LosersSnoc(before, c, c.version, ClaimTier(c));
    DissentSnoc(before, c, c.version, ClaimTier(c));
    forall j | 0 <= j < k ensures claims[j].version == "" {
      assert claims[j] in before;
    }
  }

  lemma {:induction false} DescendingAt(s: seq<Claim>, m: nat, j: nat)
    requires Descending(s) && m < j < |s|
    ensures KeyLe(s[j], s[m])
  {
    if m == 0 {
      assert s[j] == s[1..][j - 1];
      assert s[j] in s[1..];
    } else {
      DescendingAt(s[1..], m - 1, j - 1);
    }
  }

  lemma {:induction false} LosersLower(claims: seq<Claim>, version: string, tier: Tier)
    requires forall c <- claims | c.version != "" :: ClaimTier(c).Rank() <= tier.Rank()
    ensures forall l <- Losers(claims, version, tier) :: l.1.Rank() < tier.Rank()
  {
    if claims == [] {
    } else {
      LosersLower(claims[1..], version, tier);
      RanksDiffer(ClaimTier(claims[0]), tier);
    }
  }

  lemma {:induction false} PinnedAll(claims: seq<Claim>, pin: Pin)
    requires Descending(claims) && Pinned(claims, |claims|, pin)
    ensures IsPin(claims, pin)
  {
    assert claims[..|claims|] == claims;
    if pin.version.Some? {
      var m :| 0 <= m < |claims| && claims[m].version == pin.version.value != "" && ClaimTier(claims[m]) == pin.tier
               && forall j | 0 <= j < m :: claims[j].version == "";
      forall c | c in claims && c.version != ""
        ensures ClaimTier(c).Rank() < pin.tier.Rank()
                || (ClaimTier(c) == pin.tier && StrLe(c.version, pin.version.value))
      {
        var j :| 0 <= j < |claims| && claims[j] == c;
        if j == m {
          StrTotal(c.version, c.version);
        } else {
          DescendingAt(claims, m, j);
          KeyNotAbove(claims[j], claims[m]);
        }
      }
      LosersLower(claims, pin.version.value, pin.tier);
      forall l | l in pin.superseded ensures l.1.Rank() < pin.tier.Rank() {
        assert l in multiset(pin.superseded);
      }
    }
  }

  /** Being the pin depends on the claims only as a multiset. */
  lemma SamePin(a: seq<Claim>, b: seq<Claim>, pin: Pin)
    requires multiset(a) == multiset(b) && IsPin(a, pin)
    ensures IsPin(b, pin)
  {
    SameElements(a, b);
    if pin.version.Some? {
      assert Dissent(a, pin.version.value, pin.tier) == Dissent(b, pin.version.value, pin.tier);
      LosersShuffled(a, b, pin.version.value, pin.tier);
    }
  }

  /** A bucket has one pin, up to the order in which superseded versions are listed. */
  lemma PinUnique(claims: seq<Claim>, p: Pin, q: Pin)
    requires IsPin(claims, p) && IsPin(claims, q)
    ensures p.version == q.version && p.conflicts == q.conflicts
    ensures p.version.Some? ==> p.tier == q.tier
    ensures multiset(p.superseded) == multiset(q.superseded)
  {
    if p.version.Some? && q.version.Some? {
      var c :| c in claims && p.version.value == c.version != "" && ClaimTier(c) == p.tier;
      var d :| d in claims && q.version.value == d.version != "" && ClaimTier(d) == q.tier;
      StrTotal(c.version, d.version);
    }
  }

  /** Shuffling the bucket's claims changes neither the pin nor the verdict on any other
      version. */
  lemma PinShuffled(a: seq<Claim>, b: seq<Claim>, p: Pin, q: Pin)
    requires multiset(a) == multiset(b) && IsPin(a, p) && IsPin(b, q)
    ensures p.version == q.version && p.conflicts == q.conflicts
    ensures p.version.Some? ==> p.tier == q.tier
    ensures multiset(p.superseded) == multiset(q.superseded)
  {
    SamePin(a, b, p);
    PinUnique(b, p, q);
  }
}
