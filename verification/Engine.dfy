/** Classify, look up, multiply, sum (src/pricing/engine.py:139-252), and the coverage figures
    of the result (src/pricing/models.py:241-283, src/state/diff.py:216-249). */
module Engine {
  import opened Templates
  import opened Money
  import opened Snapshots
  import opened Diffs
  import opened Reconciliation

  /** Unit prices of one region, by query key. */
  type Catalog = map<string, real>

  datatype ComponentSpec = ComponentSpec(queryKey: string, quantity: real, quantityText: string, excludes: bool)

  datatype Classification = Classification(pricingClass: PricingClass, components: seq<ComponentSpec>, excludes: bool)

  datatype ResolvedResource = ResolvedResource(
    logicalId: string, inclusion: Inclusion, deletionPolicy: string, updateReplacePolicy: string)

  datatype CostComponent = CostComponent(
    queryKey: string, quantityText: string, unitPrice: Option<real>, monthlyList: real, confidence: Confidence)

  datatype PricedResource = PricedResource(
    logicalId: string, pricingClass: PricingClass, components: seq<CostComponent>,
    monthlyList: real, monthlyCost: real, confidence: Confidence,
    deletionPolicy: string, updateReplacePolicy: string)
  {
    predicate IsPriced() {
      pricingClass == DETERMINISTIC && confidence != UNAVAILABLE
    }
  }

  function Weaker(a: Confidence, b: Confidence): Confidence {
    if a == UNAVAILABLE || b == UNAVAILABLE then UNAVAILABLE
    else if a == MEDIUM || b == MEDIUM then MEDIUM
    else HIGH
  }

  /** weakest([]) is UNAVAILABLE. */
  function Weakest(cs: seq<CostComponent>): Confidence {
    if cs == [] then UNAVAILABLE
    else if |cs| == 1 then cs[0].confidence
    else Weaker(cs[0].confidence, Weakest(cs[1..]))
  }

  function PriceComponent(catalog: Catalog, spec: ComponentSpec): CostComponent {
    if spec.queryKey !in catalog then
      CostComponent(spec.queryKey, spec.quantityText, None, 0.0, UNAVAILABLE)
    else
      var price := catalog[spec.queryKey];
      CostComponent(spec.queryKey, spec.quantityText, Some(price), price * spec.quantity,
                    if spec.excludes then MEDIUM else HIGH)
  }

  function PriceComponents(catalog: Catalog, specs: seq<ComponentSpec>): (r: seq<CostComponent>)
    ensures |r| == |specs|
    ensures forall i :: 0 <= i < |r| ==> r[i] == PriceComponent(catalog, specs[i])
  {
    seq(|specs|, i requires 0 <= i < |specs| => PriceComponent(catalog, specs[i]))
  }

  function WithPrice(cs: seq<CostComponent>): seq<CostComponent> {
    if cs == [] then []
    else if cs[0].unitPrice.Some? then [cs[0]] + WithPrice(cs[1..]) else WithPrice(cs[1..])
  }

  function ListTotal(cs: seq<CostComponent>): real {
    if cs == [] then 0.0 else cs[0].monthlyList + ListTotal(cs[1..])
  }

  function PriceResource(catalog: Catalog, discount: real, r: ResolvedResource, c: Classification): PricedResource {
    if c.pricingClass != DETERMINISTIC then
      PricedResource(r.logicalId, c.pricingClass, [], 0.0, 0.0, UNAVAILABLE, r.deletionPolicy, r.updateReplacePolicy)
    else
      var components := PriceComponents(catalog, c.components);
      var priced := WithPrice(components);
      var monthlyList := ListTotal(components);
      var confidence :=
        if priced == [] then UNAVAILABLE
        else if |priced| < |components| || c.excludes then Weaker(Weakest(priced), MEDIUM)
        else Weakest(priced);
      PricedResource(r.logicalId, DETERMINISTIC, components, monthlyList, ApplyDiscount(monthlyList, discount),
                     confidence, r.deletionPolicy, r.updateReplacePolicy)
  }

  lemma {:induction false} WeakestPriced(cs: seq<CostComponent>)
    requires cs != [] && forall c :: c in cs ==> c.confidence != UNAVAILABLE
    ensures Weakest(cs) != UNAVAILABLE
  {
    if |cs| > 1 {
      WeakestPriced(cs[1..]);
    }
  }

  lemma {:induction false} WithPriceOf(catalog: Catalog, specs: seq<ComponentSpec>)
    ensures var cs := PriceComponents(catalog, specs);
            && (WithPrice(cs) == [] <==> forall s :: s in specs ==> s.queryKey !in catalog)
            && (WithPrice(cs) == [] ==> ListTotal(cs) == 0.0)
            && (forall c :: c in WithPrice(cs) ==> c.confidence != UNAVAILABLE)
  {
    var cs := PriceComponents(catalog, specs);
    if specs != [] {
      WithPriceOf(catalog, specs[1..]);
      assert cs[1..] == PriceComponents(catalog, specs[1..]);
      assert specs == [specs[0]] + specs[1..];
    }
  }

  /** A resource contributes a figure exactly when it is deterministic and some component of it
      has a price; otherwise it costs nothing. */
  lemma PricedIff(catalog: Catalog, discount: real, r: ResolvedResource, c: Classification)
    ensures var p := PriceResource(catalog, discount, r, c);
            && (p.IsPriced() <==> c.pricingClass == DETERMINISTIC && exists s ::
                s in c.components && s.queryKey in catalog)
            && (!p.IsPriced() ==> p.monthlyCost == 0.0)
  {
    if c.pricingClass == DETERMINISTIC {
      var priced := WithPrice(PriceComponents(catalog, c.components));
      WithPriceOf(catalog, c.components);
      if priced != [] {
        WeakestPriced(priced);
      }
    }
  }

  // -- inventory and snapshot ---------------------------------------------------------------

  /** A false Condition means the resource does not exist; everything else is priced or explained. */
  function PriceInventory(catalog: Catalog, discount: real,
      rs: seq<(ResolvedResource, Classification)>): seq<PricedResource> {
    if rs == [] then []
    else
      var front := PriceInventory(catalog, discount, rs[..|rs| - 1]);
      var (r, c) := rs[|rs| - 1];
      if r.inclusion == EXCLUDED then front else front + [PriceResource(catalog, discount, r, c)]
  }

  function InventoryCost(ps: seq<PricedResource>): real {
    if ps == [] then 0.0
    else InventoryCost(ps[..|ps| - 1]) + if ps[|ps| - 1].IsPriced() then ps[|ps| - 1].monthlyCost else 0.0
  }

  function RememberComponents(cs: seq<CostComponent>): seq<Component> {
    seq(|cs|, i requires 0 <= i < |cs| => Component(cs[i].queryKey, cs[i].quantityText))
  }

  function FromPriced(p: PricedResource, physicalIds: map<string, string>): Resource {
    Resource(p.logicalId, p.pricingClass, p.confidence,
             if p.logicalId in physicalIds then physicalIds[p.logicalId] else "",
             p.monthlyCost, RememberComponents(p.components), p.deletionPolicy, p.updateReplacePolicy)
  }

  function FromInventory(ps: seq<PricedResource>, physicalIds: map<string, string>): Snapshot {
    if ps == [] then []
    else FromInventory(ps[..|ps| - 1], physicalIds) + [FromPriced(ps[|ps| - 1], physicalIds)]
  }

  /** The snapshot of a freshly priced stack: same total, and unpriced resources cost nothing. */
  lemma {:induction false} SnapshotOfInventory(catalog: Catalog, discount: real,
                                               rs: seq<(ResolvedResource, Classification)>, ids: map<string, string>)
    ensures var ps := PriceInventory(catalog, discount, rs);
            var snapshot := FromInventory(ps, ids);
            && |snapshot| == |ps| && TotalOf(snapshot) == InventoryCost(ps) && UnpricedIsFree(snapshot)
  {
    if rs != [] {
      SnapshotOfInventory(catalog, discount, rs[..|rs| - 1], ids);
      var (r, c) := rs[|rs| - 1];
      PricedIff(catalog, discount, r, c);
      var front := PriceInventory(catalog, discount, rs[..|rs| - 1]);
      if r.inclusion != EXCLUDED {
        var p := PriceResource(catalog, discount, r, c);
        assert (front + [p])[..|front|] == front;
        var snapshot := FromInventory(front, ids);
        assert (snapshot + [FromPriced(p, ids)])[..|snapshot|] == snapshot;
      }
    }
  }

  /** The bound on what a report leaves unexplained, for snapshots as the engine makes them. */
  lemma EngineReconciles(catalog: Catalog, discount: real, rs: seq<(ResolvedResource, Classification)>,
                         ids: map<string, string>, before: Snapshot, action: Action)
    requires UniqueIds(before) && UnpricedIsFree(before) && action != BASELINE
    requires UniqueIds(FromInventory(PriceInventory(catalog, discount, rs), ids))
    ensures GapBounded(Diff(Some(before), FromInventory(PriceInventory(catalog, discount, rs), ids), action))
  {
    SnapshotOfInventory(catalog, discount, rs, ids);
    ReconciliationBound(Some(before), FromInventory(PriceInventory(catalog, discount, rs), ids), action);
  }

  // -- coverage ------------------------------------------------------------------------------

  datatype Bucket = Free | UsageBased | Unsupported | Unresolved | Priced

  function BucketOf(r: Resource): Bucket {
    match r.pricingClass
    case FREE => Free
    case USAGE_BASED => UsageBased
    case UNSUPPORTED => Unsupported
    case UNRESOLVED => Unresolved
    case DETERMINISTIC => if r.IsPriced() then Priced else Unresolved
  }

  function InBucket(rs: seq<Resource>, b: Bucket): seq<Resource> {
    if rs == [] then []
    else
      var front, last := InBucket(rs[..|rs| - 1], b), rs[|rs| - 1];
      if BucketOf(last) == b then front + [last] else front
  }

  datatype Coverage = Coverage(total: nat, priced: nat, usageBased: nat, unsupported: nat, unresolved: nat, free: nat)

  method CoverageOf(items: seq<Resource>) returns (counts: Coverage)
    ensures counts == Coverage(|items|, |InBucket(items, Priced)|, |InBucket(items, UsageBased)|,
                               |InBucket(items, Unsupported)|, |InBucket(items, Unresolved)|, |InBucket(items, Free)|)
    ensures counts.total == counts.priced + counts.usageBased + counts.unsupported + counts.unresolved + counts.free
  {
    counts := Coverage(0, 0, 0, 0, 0, 0);
    for i := 0 to |items|
      invariant counts == Coverage(i, |InBucket(items[..i], Priced)|, |InBucket(items[..i], UsageBased)|,
                                   |InBucket(items[..i], Unsupported)|, |InBucket(items[..i], Unresolved)|,
                                   |InBucket(items[..i], Free)|)
      invariant counts.total == counts.priced + counts.usageBased + counts.unsupported + counts.unresolved + counts.free
    {
      var item := items[i];
      assert items[..i + 1][..i] == items[..i];
      counts := counts.(total := counts.total + 1);
      if item.pricingClass == FREE {
        counts := counts.(free := counts.free + 1);
      } else if item.pricingClass == USAGE_BASED {
        counts := counts.(usageBased := counts.usageBased + 1);
      } else if item.pricingClass == UNSUPPORTED {
        counts := counts.(unsupported := counts.unsupported + 1);
      } else if item.pricingClass == UNRESOLVED {
        counts := counts.(unresolved := counts.unresolved + 1);
      } else if item.IsPriced() {
        counts := counts.(priced := counts.priced + 1);
      } else {
        counts := counts.(unresolved := counts.unresolved + 1);
      }
    }
    assert items[..|items|] == items;
  }

  /** The three lists of the report hold exactly the resources the coverage counts as gaps. */
  method UnpricedOf(source: seq<Resource>)
    returns (usageBased: seq<Resource>, unsupported: seq<Resource>, unresolved: seq<Resource>)
    ensures usageBased == InBucket(source, UsageBased)
    ensures unsupported == InBucket(source, Unsupported)
    ensures unresolved == InBucket(source, Unresolved)
  {
    usageBased, unsupported, unresolved := [], [], [];
    for i := 0 to |source|
      invariant usageBased == InBucket(source[..i], UsageBased)
      invariant unsupported == InBucket(source[..i], Unsupported)
      invariant unresolved == InBucket(source[..i], Unresolved)
    {
      var r := source[i];
      assert source[..i + 1][..i] == source[..i];
      if r.pricingClass == USAGE_BASED {
        usageBased := usageBased + [r];
      } else if r.pricingClass == UNSUPPORTED {
        unsupported := unsupported + [r];
      } else if r.pricingClass == UNRESOLVED || !(r.pricingClass == FREE || r.IsPriced()) {
        unresolved := unresolved + [r];
      }
    }
    assert source[..|source|] == source;
  }
}
