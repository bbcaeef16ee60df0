/** What a resource and a stack cost, from the prices of the catalog (src/pricing/engine.py:139-252,
    src/pricing/models.py:38-56): quantities times unit prices, summed, less the discount, to the cent. */
module PriceLaws {
  import opened Templates
  import opened Money
  import opened Snapshots
  import opened Engine

  /** The priced components, each at its unit price times its quantity. */
  function CatalogCost(catalog: Catalog, specs: seq<ComponentSpec>): real {
    if specs == [] then 0.0
    else
      var s := specs[0];
      (if s.queryKey in catalog then catalog[s.queryKey] * s.quantity else 0.0) + CatalogCost(catalog, specs[1..])
  }

  function ListPrice(catalog: Catalog, specs: seq<ComponentSpec>): real {
    ListTotal(PriceComponents(catalog, specs))
  }

  lemma {:induction false} ListPriceIs(catalog: Catalog, specs: seq<ComponentSpec>)
    ensures ListPrice(catalog, specs) == CatalogCost(catalog, specs)
  {
    if specs != [] {
      ListPriceIs(catalog, specs[1..]);
      assert PriceComponents(catalog, specs)[1..] == PriceComponents(catalog, specs[1..]);
    }
  }

  /** A deterministic resource costs its components' prices at their quantities, less the discount. */
  lemma ResourceCosts(catalog: Catalog, discount: real, r: ResolvedResource, c: Classification)
    ensures var p := PriceResource(catalog, discount, r, c);
            if c.pricingClass == DETERMINISTIC then
              && p.monthlyList == CatalogCost(catalog, c.components)
              && p.monthlyCost == (if 0.0 < discount then (100.0 - discount) / 100.0 * p.monthlyList else p.monthlyList)
            else p.monthlyList == 0.0 && p.monthlyCost == 0.0
  {
    ListPriceIs(catalog, c.components);
  }

  // -- the laws that single out this product ------------------------------------------------------

  /** One unit of one component costs its unit price; a component without a price costs nothing. */
  lemma OneUnitCostsItsPrice(catalog: Catalog, discount: real, r: ResolvedResource, c: Classification)
    requires c.pricingClass == DETERMINISTIC && |c.components| == 1 && c.components[0].quantity == 1.0
    ensures var key := c.components[0].queryKey;
            PriceResource(catalog, discount, r, c).monthlyList == if key in catalog then catalog[key] else 0.0
  {
    ListPriceIs(catalog, c.components);
    assert c.components[1..] == [];
  }

  function Times(s: ComponentSpec, factor: real): ComponentSpec {
    s.(quantity := s.quantity * factor)
  }

  function ScaleBy(specs: seq<ComponentSpec>, factor: real): seq<ComponentSpec> {
    if specs == [] then [] else [Times(specs[0], factor)] + ScaleBy(specs[1..], factor)
  }

  lemma {:induction false} ScaledCatalogCost(catalog: Catalog, specs: seq<ComponentSpec>, factor: real)
    ensures CatalogCost(catalog, ScaleBy(specs, factor)) == CatalogCost(catalog, specs) * factor
  {
    if specs != [] {
      var s, scaled := specs[0], ScaleBy(specs, factor);
      ScaledCatalogCost(catalog, specs[1..], factor);
      assert scaled[0] == Times(s, factor) && scaled[1..] == ScaleBy(specs[1..], factor);
      if s.queryKey in catalog {
        Regroup(catalog[s.queryKey], s.quantity, CatalogCost(catalog, specs[1..]), factor);
      }
    }
  }

  lemma Regroup(price: real, quantity: real, rest: real, factor: real)
    ensures price * (quantity * factor) + rest * factor == (price * quantity + rest) * factor
  {
  }

  /** So many times the quantities cost so many times as much. */
  lemma CostScales(catalog: Catalog, discount: real, r: ResolvedResource, c: Classification, factor: real)
    ensures var scaled := c.(components := ScaleBy(c.components, factor));
            PriceResource(catalog, discount, r, scaled).monthlyList ==
            PriceResource(catalog, discount, r, c).monthlyList * factor
  {
    ListPriceIs(catalog, c.components);
    ListPriceIs(catalog, ScaleBy(c.components, factor));
    ScaledCatalogCost(catalog, c.components, factor);
  }

  lemma {:induction false} ConcatCatalogCost(catalog: Catalog, a: seq<ComponentSpec>, b: seq<ComponentSpec>)
    ensures CatalogCost(catalog, a + b) == CatalogCost(catalog, a) + CatalogCost(catalog, b)
  {
    if a == [] {
      assert a + b == b;
    } else {
      assert (a + b)[1..] == a[1..] + b;
      ConcatCatalogCost(catalog, a[1..], b);
    }
  }

  /** The costs of a resource's components add up. */
  lemma CostsAddUp(catalog: Catalog, discount: real, r: ResolvedResource, c: Classification,
                   a: seq<ComponentSpec>, b: seq<ComponentSpec>)
    requires c.components == a + b
    ensures PriceResource(catalog, discount, r, c).monthlyList ==
            PriceResource(catalog, discount, r, c.(components := a)).monthlyList
            + PriceResource(catalog, discount, r, c.(components := b)).monthlyList
  {
    ListPriceIs(catalog, a);
    ListPriceIs(catalog, b);
    ListPriceIs(catalog, a + b);
    ConcatCatalogCost(catalog, a, b);
  }

  /** A discount of d percent leaves 100 - d percent; at 0 and below the list price stands. */
  lemma DiscountLeaves(cost: real, d: real)
    ensures 0.0 <= d <= 100.0 ==> ApplyDiscount(cost, d) * 100.0 == cost * (100.0 - d)
    ensures d <= 0.0 ==> ApplyDiscount(cost, d) == cost
    ensures ApplyDiscount(cost, 100.0) == 0.0
    ensures 0.0 <= d <= 100.0 && cost >= 0.0 ==> 0.0 <= ApplyDiscount(cost, d) <= cost
  {
    if 0.0 < d <= 100.0 {
      var rest := (100.0 - d) / 100.0;
      assert rest * 100.0 == 100.0 - d && 0.0 <= rest <= 1.0;
      assert ApplyDiscount(cost, d) == cost * rest;
      assert (cost * rest) * 100.0 == cost * (rest * 100.0);
      if cost >= 0.0 {
        Shrinks(cost, rest);
      }
    }
  }

  lemma Shrinks(cost: real, rest: real)
    requires cost >= 0.0 && 0.0 <= rest <= 1.0
    ensures 0.0 <= cost * rest <= cost
  {
    assert cost * (1.0 - rest) >= 0.0;
  }

  /** How sure a figure is: high when every component has a price and nothing is left out, unavailable when
      none has one, medium otherwise. */
  lemma ConfidenceIs(catalog: Catalog, discount: real, r: ResolvedResource, c: Classification)
    requires c.pricingClass == DETERMINISTIC
    ensures PriceResource(catalog, discount, r, c).confidence ==
            if forall s :: s in c.components ==> s.queryKey !in catalog then UNAVAILABLE
            else if !c.excludes && forall s :: s in c.components ==> s.queryKey in catalog && !s.excludes then HIGH
            else MEDIUM
  {
    var cs := PriceComponents(catalog, c.components);
    WithPriceOf(catalog, c.components);
    FoundConfidence(catalog, c.components);
  }

  lemma {:induction false} FoundConfidence(catalog: Catalog, specs: seq<ComponentSpec>)
    ensures var priced := WithPrice(PriceComponents(catalog, specs));
            && |priced| <= |specs|
            && (|priced| == |specs| <==> forall s :: s in specs ==> s.queryKey in catalog)
            && (priced != [] ==> Weakest(priced) == if AnyExcludes(catalog, specs) then MEDIUM else HIGH)
  {
    if specs != [] {
      var cs := PriceComponents(catalog, specs);
      var rest := WithPrice(cs[1..]);
      FoundConfidence(catalog, specs[1..]);
      assert cs[1..] == PriceComponents(catalog, specs[1..]) && cs[0] == PriceComponent(catalog, specs[0]);
      FirstOrRest(catalog, specs);
      if specs[0].queryKey in catalog {
        WeakestCons(cs[0], rest);
      }
      if rest == [] {
        WithPriceOf(catalog, specs[1..]);
      }
    }
  }

  /** Some component that has a price leaves something out. */
  ghost predicate AnyExcludes(catalog: Catalog, specs: seq<ComponentSpec>) {
    exists s :: s in specs && s.queryKey in catalog && s.excludes
  }

  lemma FirstOrRest(catalog: Catalog, specs: seq<ComponentSpec>)
    requires specs != []
    ensures AnyExcludes(catalog, specs) <==>
            (specs[0].queryKey in catalog && specs[0].excludes) || AnyExcludes(catalog, specs[1..])
    ensures (forall s :: s in specs ==> s.queryKey in catalog) <==>
            specs[0].queryKey in catalog && forall s :: s in specs[1..] ==> s.queryKey in catalog
  {
    assert specs == [specs[0]] + specs[1..];
    assert forall s :: s in specs <==> s == specs[0] || s in specs[1..];
  }

  lemma WeakestCons(c: CostComponent, rest: seq<CostComponent>)
    ensures Weakest([c] + rest) == if rest == [] then c.confidence else Weaker(c.confidence, Weakest(rest))
  {
    assert ([c] + rest)[1..] == rest;
  }

  // -- the stack ----------------------------------------------------------------------------------

  /** What one resource adds: its components at catalog prices less the discount, if it exists and its
      cost is determined by its configuration. */
  function Contribution(catalog: Catalog, discount: real, r: ResolvedResource, c: Classification): real {
    if r.inclusion == EXCLUDED || c.pricingClass != DETERMINISTIC then 0.0
    else if 0.0 < discount then (100.0 - discount) / 100.0 * CatalogCost(catalog, c.components)
    else CatalogCost(catalog, c.components)
  }

  /** What the resources that exist cost together. */
  function StackCost(catalog: Catalog, discount: real, rs: seq<(ResolvedResource, Classification)>): real {
    if rs == [] then 0.0
    else StackCost(catalog, discount, rs[..|rs| - 1]) + Contribution(catalog, discount, rs[|rs| - 1].0, rs[|rs| - 1].1)
  }

  lemma OneContributes(catalog: Catalog, discount: real, r: ResolvedResource, c: Classification)
    requires r.inclusion != EXCLUDED
    ensures var p := PriceResource(catalog, discount, r, c);
            (if p.IsPriced() then p.monthlyCost else 0.0) == Contribution(catalog, discount, r, c)
  {
    PricedIff(catalog, discount, r, c);
    ResourceCosts(catalog, discount, r, c);
  }

  /** The inventory's cost, and the total of the snapshot that is stored, are what the catalog says. */
  lemma StackCosts(catalog: Catalog, discount: real, rs: seq<(ResolvedResource, Classification)>,
                   ids: map<string, string>)
    ensures InventoryCost(PriceInventory(catalog, discount, rs)) == StackCost(catalog, discount, rs)
    ensures TotalOf(FromInventory(PriceInventory(catalog, discount, rs), ids)) == StackCost(catalog, discount, rs)
  {
    InventoryCosts(catalog, discount, rs);
    SnapshotOfInventory(catalog, discount, rs, ids);
  }

  lemma {:induction false} InventoryCosts(catalog: Catalog, discount: real, rs: seq<(ResolvedResource, Classification)>)
    ensures InventoryCost(PriceInventory(catalog, discount, rs)) == StackCost(catalog, discount, rs)
  {
    if rs != [] {
      var front := rs[..|rs| - 1];
      var (r, c) := rs[|rs| - 1];
      InventoryCosts(catalog, discount, front);
      if r.inclusion != EXCLUDED {
        OneContributes(catalog, discount, r, c);
        InventoryNext(PriceInventory(catalog, discount, front), PriceResource(catalog, discount, r, c));
      }
    }
  }

  lemma InventoryNext(ps: seq<PricedResource>, p: PricedResource)
    ensures InventoryCost(ps + [p]) == InventoryCost(ps) + if p.IsPriced() then p.monthlyCost else 0.0
  {
    assert (ps + [p])[..|ps|] == ps;
  }

  /** The total of a snapshot counts each priced resource once, and no other. */
  lemma OneResourceTotals(rs: Snapshot, r: Resource)
    ensures TotalOf([]) == 0.0
    ensures TotalOf(rs + [r]) ==
            TotalOf(rs) + if r.pricingClass == DETERMINISTIC && r.confidence != UNAVAILABLE then r.monthlyCost else 0.0
  {
    assert (rs + [r])[..|rs|] == rs;
  }

  /** What is remembered of a priced resource. */
  lemma RemembersResource(p: PricedResource, ids: map<string, string>)
    ensures var r := FromPriced(p, ids);
            && r.logicalId == p.logicalId && r.pricingClass == p.pricingClass && r.confidence == p.confidence
            && r.monthlyCost == p.monthlyCost
            && r.deletionPolicy == p.deletionPolicy && r.updateReplacePolicy == p.updateReplacePolicy
            && (p.logicalId in ids ==> r.physicalId == ids[p.logicalId]) && (p.logicalId !in ids ==> r.physicalId == "")
            && |r.components| == |p.components|
            && forall i :: 0 <= i < |r.components| ==>
                 r.components[i] == Component(p.components[i].queryKey, p.components[i].quantityText)
  {
  }

  // -- coverage -----------------------------------------------------------------------------------

  /** Where the resources of some kind stand. */
  function Places(rs: seq<Resource>, kind: Resource -> bool): set<nat> {
    set i: nat | i < |rs| && kind(rs[i])
  }

  lemma PlacesNext(rs: seq<Resource>, r: Resource, kind: Resource -> bool)
    ensures |Places(rs + [r], kind)| == |Places(rs, kind)| + if kind(r) then 1 else 0
  {
    var all := rs + [r];
    assert forall i: nat :: i < |all| ==> all[i] == if i < |rs| then rs[i] else r;
    assert Places(all, kind) == Places(rs, kind) + if kind(r) then {|rs|} else {};
  }

  lemma {:induction false} BucketCounts(rs: seq<Resource>, b: Bucket, kind: Resource -> bool)
    requires forall r :: kind(r) <==> BucketOf(r) == b
    ensures |InBucket(rs, b)| == |Places(rs, kind)|
  {
    if rs != [] {
      var front, last := rs[..|rs| - 1], rs[|rs| - 1];
      BucketCounts(front, b, kind);
      PlacesNext(front, last, kind);
      assert rs == front + [last];
    }
  }

  function OfClass(c: PricingClass): Resource -> bool {
    (r: Resource) => r.pricingClass == c
  }

  predicate HasFigure(r: Resource) {
    r.pricingClass == DETERMINISTIC && r.confidence in {HIGH, MEDIUM}
  }

  predicate LacksFigure(r: Resource) {
    r.pricingClass == UNRESOLVED || (r.pricingClass == DETERMINISTIC && r.confidence == UNAVAILABLE)
  }

  /** The five counts, from the resources: a deterministic resource without a price counts as
      unresolved. */
  lemma CoverageCounts(rs: seq<Resource>)
    ensures |InBucket(rs, Priced)| == |Places(rs, HasFigure)|
    ensures |InBucket(rs, Unresolved)| == |Places(rs, LacksFigure)|
    ensures |InBucket(rs, UsageBased)| == |Places(rs, OfClass(USAGE_BASED))|
    ensures |InBucket(rs, Unsupported)| == |Places(rs, OfClass(UNSUPPORTED))|
    ensures |InBucket(rs, Free)| == |Places(rs, OfClass(FREE))|
  {
    BucketCounts(rs, Priced, HasFigure);
    BucketCounts(rs, Unresolved, LacksFigure);
    BucketCounts(rs, UsageBased, OfClass(USAGE_BASED));
    BucketCounts(rs, Unsupported, OfClass(UNSUPPORTED));
    BucketCounts(rs, Free, OfClass(FREE));
  }

  /** And the lists hold these resources. */
  lemma {:induction false} BucketHolds(rs: seq<Resource>, r: Resource)
    ensures r in InBucket(rs, Priced) <==> r in rs && HasFigure(r)
    ensures r in InBucket(rs, Unresolved) <==> r in rs && LacksFigure(r)
    ensures r in InBucket(rs, UsageBased) <==> r in rs && r.pricingClass == USAGE_BASED
    ensures r in InBucket(rs, Unsupported) <==> r in rs && r.pricingClass == UNSUPPORTED
    ensures r in InBucket(rs, Free) <==> r in rs && r.pricingClass == FREE
  {
    if rs != [] {
      BucketHolds(rs[..|rs| - 1], r);
      assert rs == rs[..|rs| - 1] + [rs[|rs| - 1]];
    }
  }

  // -- cents --------------------------------------------------------------------------------------

  /** Rounding goes to the nearest cent, from the middle away from zero, and alike on both sides of it. */
  lemma RoundsToNearest(value: real, cents: int)
    ensures value >= 0.0 && cents as real - 0.5 <= value * 100.0 < cents as real + 0.5 ==>
        Round(value) == cents as real / 100.0
    ensures Round(-value) == -Round(value)
    ensures Abs(Round(value) - value) <= 0.005
  {
    var c := Cents(value) as real;
    assert Round(value) * 100.0 == c;
    if value >= 0.0 && cents as real - 0.5 <= value * 100.0 < cents as real + 0.5 {
      assert (value * 100.0 + 0.5).Floor == cents;
    }
    if value == 0.0 {
      assert -value == value && Cents(value) == 0;
    }
    assert Cents(-value) == -Cents(value);
  }
}
