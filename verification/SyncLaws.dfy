/** What a price sync leaves in the cache, from the price list itself (src/pricing/sync.py:53-151,489-566):
    which keys have a price, and which price that is. */
module SyncLaws {
  import opened Templates
  import opened PriceSync

  /** `fragment in value` means that the fragment occurs somewhere in the value. */
  lemma FragmentIff(value: string, fragment: string)
    ensures HasFragment(value, fragment) <==> Contains(value, fragment)
  {
    if fragment == "" {
      assert OccursAt(value, fragment, 0);
    } else if k :| OccursAt(value, fragment, k) {
      FindIsLeftmost(value, fragment, k);
    }
    if fragment != "" && Find(value, fragment) < |value| {
      assert OccursAt(value, fragment, Find(value, fragment));
    }
  }

  /** The product is on the list that the API returns for the rule's filter. */
  predicate Listed(source: Source, r: Rule, p: Product) {
    var filter := if r.fetchGroup == "" then FetchKey(r.serviceCode, "productFamily", r.productFamily)
                  else FetchKey(r.serviceCode, "group", r.fetchGroup);
    Entry(p) in source(filter)
  }

  /** The attribute is there and contains the fragment. */
  ghost predicate Mentions(p: Product, attribute: string, fragment: string) {
    attribute in p.attributes && Contains(p.attributes[attribute], fragment)
  }

  /** The rule reads a price for k off this product. */
  ghost predicate Offers(r: Rule, p: Product, k: string) {
    && p.family == r.productFamily
    && (forall a :: a in r.require ==> a in p.attributes && p.attributes[a] == r.require[a])
    && (forall a :: a in r.requireContains ==> Mentions(p, a, r.requireContains[a]))
    && !(exists a, f :: a in r.rejectContains && f in r.rejectContains[a] && Mentions(p, a, f))
    && r.buildKey(p) == Some(k)
  }

  ghost predicate OfferedBy(rules: seq<Rule>, source: Source, k: string, i: nat, p: Product) {
    i < |rules| && Listed(source, rules[i], p) && Offers(rules[i], p, k)
  }

  lemma {:induction false} MatchesIff(r: Rule, p: Product, k: string)
    ensures Offers(r, p, k) <==> r.Matches(p) && r.buildKey(p) == Some(k)
  {
    forall value, fragment
      ensures HasFragment(value, fragment) <==> Contains(value, fragment)
    {
      FragmentIff(value, fragment);
    }
    if Offers(r, p, k) {
      forall a, f | a in r.rejectContains && f in r.rejectContains[a] && a in p.attributes
        ensures !HasFragment(p.attributes[a], f)
      {
        assert !Mentions(p, a, f);
      }
    }
  }

  /** What the rule makes of the product for this key. */
  function OfferOf(r: Rule, p: Product, k: string): Write {
    Write(k, p.unitPrice, p.unitPrice * r.priceScale, r.name)
  }

  lemma {:induction false} InWrites(r: Rule, p: Product, w: Write)
    ensures w in WritesOf(r, p) <==> r.Matches(p) && r.buildKey(p).Some? && w == OfferOf(r, p, r.buildKey(p).value)
  {
    if r.Matches(p) && r.buildKey(p).Some? {
      var x := WriteOf(r, p, r.buildKey(p).value);
      assert WritesOf(r, p) == [x] && x == OfferOf(r, p, r.buildKey(p).value);
    }
  }

  lemma {:induction false} OfferWrites(r: Rule, p: Product, w: Write)
    ensures Produces(r, Entry(p), w) <==> Offers(r, p, w.key) && w == OfferOf(r, p, w.key)
  {
    MatchesIff(r, p, w.key);
    InWrites(r, p, w);
    assert Entry(p).product == p;
  }

  ghost predicate Wrote(rules: seq<Rule>, source: Source, w: Write, i: nat, p: Product) {
    OfferedBy(rules, source, w.key, i, p) && w == OfferOf(rules[i], p, w.key)
  }

  lemma ListedIff(source: Source, r: Rule, p: Product)
    ensures Listed(source, r, p) <==> Entry(p) in source(r.FetchFilter())
  {
  }

  lemma {:induction false} WriterOf(rules: seq<Rule>, source: Source, w: Write) returns (i: nat, p: Product)
    requires w in GroupedWrites(rules, FetchKeys(rules), source)
    ensures Wrote(rules, source, w, i, p)
  {
    GroupedProduced(rules, FetchKeys(rules), source, w);
    var h, e :| 0 <= h < |rules| && e in source(rules[h].FetchFilter()) && Produces(rules[h], e, w);
    i, p := h, e.product;
    assert e == Entry(p);
    OfferWrites(rules[i], p, w);
    ListedIff(source, rules[i], p);
  }

  lemma {:induction false} OfferIsWritten(rules: seq<Rule>, source: Source, k: string, i: nat, p: Product)
    requires OfferedBy(rules, source, k, i, p)
    ensures OfferOf(rules[i], p, k) in GroupedWrites(rules, FetchKeys(rules), source)
  {
    var w := OfferOf(rules[i], p, k);
    OfferWrites(rules[i], p, w);
    ListedIff(source, rules[i], p);
    FetchKeysDistinct(rules);
    ProducedGrouped(rules, FetchKeys(rules), source, i, Entry(p), w);
  }

  /** What the grouped run writes: one price for each rule and product on the rule's own list. */
  lemma {:induction false} WrittenIff(rules: seq<Rule>, source: Source, w: Write)
    ensures w in GroupedWrites(rules, FetchKeys(rules), source) <==>
            exists i: nat, p :: Wrote(rules, source, w, i, p)
  {
    if w in GroupedWrites(rules, FetchKeys(rules), source) {
      var i, p := WriterOf(rules, source, w);
    }
    if i: nat, p :| Wrote(rules, source, w, i, p) {
      OfferIsWritten(rules, source, w.key, i, p);
    }
  }

  lemma {:induction false} ProducedGrouped(rules: seq<Rule>, keys: seq<FetchKey>, source: Source, i: nat, e: Parsed,
      w: Write)
    requires i < |rules| && rules[i].FetchFilter() in keys
    requires e in source(rules[i].FetchFilter()) && Produces(rules[i], e, w)
    ensures w in GroupedWrites(rules, keys, source)
  {
    var front, f := keys[..|keys| - 1], keys[|keys| - 1];
    if rules[i].FetchFilter() == f {
      var group := OfFetch(rules, f);
      InOfFetch(rules, f, rules[i]);
      var g :| 0 <= g < |group| && group[g] == rules[i];
      assert Produces(group[g], e, w);
      InPerGroup(group, source(f), w);
    } else {
      ProducedGrouped(rules, front, source, i, e, w);
    }
  }

  /** This is the price that rule i makes of the product for k. */
  ghost predicate Prices(rules: seq<Rule>, source: Source, k: string, i: nat, p: Product, price: real) {
    OfferedBy(rules, source, k, i, p) && price == p.unitPrice * rules[i].priceScale
  }

  /** After a run a key is in the cache exactly when some rule reads a price for it off some product on
      its list. */
  lemma {:induction false} CachedIff(rules: seq<Rule>, source: Source, k: string)
    ensures k in Final(GroupedWrites(rules, FetchKeys(rules), source)) <==>
            exists i: nat, p :: OfferedBy(rules, source, k, i, p)
  {
    if k in Final(GroupedWrites(rules, FetchKeys(rules), source)) {
      var i, p := PricedFrom(rules, source, k);
    }
    if i: nat, p :| OfferedBy(rules, source, k, i, p) {
      OfferIsWritten(rules, source, k, i, p);
      WrittenIsCached(GroupedWrites(rules, FetchKeys(rules), source), OfferOf(rules[i], p, k));
    }
  }

  /** The cached price is that of such a product, scaled by the rule. */
  lemma {:induction false} PricedFrom(rules: seq<Rule>, source: Source, k: string) returns (i: nat, p: Product)
    requires k in Final(GroupedWrites(rules, FetchKeys(rules), source))
    ensures Prices(rules, source, k, i, p, Final(GroupedWrites(rules, FetchKeys(rules), source))[k])
  {
    var w := CachedWrite(GroupedWrites(rules, FetchKeys(rules), source), k);
    i, p := WriterOf(rules, source, w);
  }

  lemma {:induction false} CachedWrite(ws: seq<Write>, k: string) returns (w: Write)
    requires k in Final(ws)
    ensures w in ws && w.key == k && w.price == Final(ws)[k]
  {
    FinalIsLast(ws, k);
    w := For(ws, k)[|For(ws, k)| - 1];
    InFor(ws, k, w);
  }

  lemma {:induction false} WrittenIsCached(ws: seq<Write>, w: Write)
    requires w in ws
    ensures w.key in Final(ws)
  {
    InFor(ws, w.key, w);
    FinalIsLast(ws, w.key);
  }

  /** Without collisions every product that a rule reads k off has the cached price, if no two rules
      share a key. */
  lemma {:induction false} CachedPrice(rules: seq<Rule>, source: Source, k: string, i: nat, p: Product)
    requires NeverShareKeys(rules, source) && OnePrice(GroupedWrites(rules, FetchKeys(rules), source))
    requires OfferedBy(rules, source, k, i, p)
    ensures var cache := Final(GroupedWrites(rules, FetchKeys(rules), source));
            k in cache && Prices(rules, source, k, i, p, cache[k])
  {
    OfferIsWritten(rules, source, k, i, p);
    OneCachedPrice(rules, source, OfferOf(rules[i], p, k));
  }

  lemma {:induction false} OneCachedPrice(rules: seq<Rule>, source: Source, w: Write)
    requires NeverShareKeys(rules, source) && OnePrice(GroupedWrites(rules, FetchKeys(rules), source))
    requires w in GroupedWrites(rules, FetchKeys(rules), source)
    ensures var cache := Final(GroupedWrites(rules, FetchKeys(rules), source));
            w.key in cache && cache[w.key] == w.price
  {
    var ws := GroupedWrites(rules, FetchKeys(rules), source);
    WrittenIsCached(ws, w);
    var last := CachedWrite(ws, w.key);
    OneListPrice(ws, w, last);
    OneScale(rules, source, w, last);
  }

  lemma {:induction false} OneListPrice(ws: seq<Write>, w: Write, x: Write)
    requires OnePrice(ws) && w in ws && x in ws && w.key == x.key
    ensures w.listPrice == x.listPrice
  {
  }

  /** Some two products are read for one key at different prices. */
  ghost predicate Clash(rules: seq<Rule>, source: Source, k: string, i: nat, p: Product, j: nat, q: Product) {
    OfferedBy(rules, source, k, i, p) && OfferedBy(rules, source, k, j, q) && p.unitPrice != q.unitPrice
  }

  /** The run reports no collision exactly when all products that are read for one key have one price. */
  lemma {:induction false} CollisionIff(rules: seq<Rule>, source: Source)
    ensures !OnePrice(GroupedWrites(rules, FetchKeys(rules), source)) <==>
            exists k, i: nat, p, j: nat, q :: Clash(rules, source, k, i, p, j, q)
  {
    var ws := GroupedWrites(rules, FetchKeys(rules), source);
    if k, i: nat, p, j: nat, q :| Clash(rules, source, k, i, p, j, q) {
      OfferIsWritten(rules, source, k, i, p);
      OfferIsWritten(rules, source, k, j, q);
      NotOnePrice(ws, OfferOf(rules[i], p, k), OfferOf(rules[j], q, k));
    }
    if !OnePrice(ws) {
      var w, x :| w in ws && x in ws && w.key == x.key && w.listPrice != x.listPrice;
      var i, p := WriterOf(rules, source, w);
      var j, q := WriterOf(rules, source, x);
      assert Clash(rules, source, w.key, i, p, j, q);
    }
  }

  lemma NotOnePrice(ws: seq<Write>, w: Write, x: Write)
    requires w in ws && x in ws && w.key == x.key && w.listPrice != x.listPrice
    ensures !OnePrice(ws)
  {
  }
}
