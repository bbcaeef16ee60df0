/** The grouped price sync (src/pricing/sync.py:53-151,489-566) against the plain loop it stands
    for: fetch the products of each rule separately and write what matches.

    The order of writes differs, the final prices do not, given rules that never write the same
    key. Without collisions they do not depend on the order of products either. */
module PriceSync {
  import opened Templates

  datatype Product = Product(
    family: string, attributes: map<string, string>, sku: string, unitPrice: real, version: string)

  /** One raw price-list entry after parsing. */
  datatype Parsed = Skip(reason: string) | Entry(product: Product)

  /** What the API is filtered on: service, field, value. */
  datatype FetchKey = FetchKey(service: string, field: string, value: string)

  /** `buildKey` is the cache key of build_query, None when a key attribute is missing. */
  datatype Rule = Rule(
    name: string, serviceCode: string, productFamily: string, fetchGroup: string,
    require: map<string, string>, requireContains: map<string, string>, rejectContains: map<string, set<string>>,
    buildKey: Product -> Option<string>, priceScale: real)
  {
    function FetchFilter(): FetchKey {
      if fetchGroup != "" then FetchKey(serviceCode, "group", fetchGroup)
      else FetchKey(serviceCode, "productFamily", productFamily)
    }

    predicate Matches(p: Product) {
      && p.family == productFamily
      && (forall a :: a in require ==> a in p.attributes && p.attributes[a] == require[a])
      && (forall a :: a in requireContains ==> a in p.attributes && HasFragment(p.attributes[a], requireContains[a]))
      && (forall a, f :: a in rejectContains && f in rejectContains[a] && a in p.attributes ==>
            !HasFragment(p.attributes[a], f))
    }
  }

  /** `fragment in value` */
  predicate HasFragment(value: string, fragment: string) {
    fragment == "" || Find(value, fragment) < |value|
  }

  type Source = FetchKey -> seq<Parsed>

  /** One call of the sink. */
  datatype Write = Write(key: string, listPrice: real, price: real, rule: string)

  function WritesOf(r: Rule, p: Product): seq<Write> {
    if r.Matches(p) && r.buildKey(p).Some?
    then [WriteOf(r, p, r.buildKey(p).value)]
    else []
  }

  /** The cached rate is scaled to the unit the rule's quantity is in. */
  function WriteOf(r: Rule, p: Product, key: string): Write {
    Write(key, p.unitPrice, Scaled(p.unitPrice, r.priceScale), r.name)
  }

  function Scaled(price: real, scale: real): real {
    price * scale
  }

  function PerProduct(rules: seq<Rule>, p: Product): seq<Write> {
    if rules == [] then [] else PerProduct(rules[..|rules| - 1], p) + WritesOf(rules[|rules| - 1], p)
  }

  function PerGroup(rules: seq<Rule>, entries: seq<Parsed>): seq<Write> {
    if entries == [] then []
    else
      var last := entries[|entries| - 1];
      PerGroup(rules, entries[..|entries| - 1]) + WritesOfEntry(rules, last)
  }

  function WritesOfEntry(rules: seq<Rule>, e: Parsed): seq<Write> {
    if e.Entry? then PerProduct(rules, e.product) else []
  }

  function OfFetch(rules: seq<Rule>, f: FetchKey): seq<Rule> {
    if rules == [] then []
    else
      var front, last := OfFetch(rules[..|rules| - 1], f), rules[|rules| - 1];
      if last.FetchFilter() == f then front + [last] else front
  }

  /** The keys of the grouping dictionary, in order of first appearance. */
  function FetchKeys(rules: seq<Rule>): seq<FetchKey> {
    if rules == [] then []
    else
      var front, f := FetchKeys(rules[..|rules| - 1]), rules[|rules| - 1].FetchFilter();
      if f in front then front else front + [f]
  }

  function GroupedWrites(rules: seq<Rule>, keys: seq<FetchKey>, source: Source): seq<Write> {
    if keys == [] then []
    else
      var f := keys[|keys| - 1];
      GroupedWrites(rules, keys[..|keys| - 1], source) + PerGroup(OfFetch(rules, f), source(f))
  }

  /** The plain loop: each rule on its own. */
  function SeparateWrites(rules: seq<Rule>, source: Source): seq<Write> {
    if rules == [] then []
    else
      var r := rules[|rules| - 1];
      SeparateWrites(rules[..|rules| - 1], source) + PerGroup([r], source(r.FetchFilter()))
  }

  /** The cache after these writes: the last one to a key wins. */
  function Final(ws: seq<Write>): map<string, real> {
    if ws == [] then map[] else Final(ws[..|ws| - 1])[ws[|ws| - 1].key := ws[|ws| - 1].price]
  }

  // -- the writes to one key -------------------------------------------------------------------

  function For(ws: seq<Write>, k: string): seq<Write> {
    if ws == [] then []
    else
      var front, last := For(ws[..|ws| - 1], k), ws[|ws| - 1];
      if last.key == k then front + [last] else front
  }

  lemma {:induction false} ForConcat(a: seq<Write>, b: seq<Write>, k: string)
    ensures For(a + b, k) == For(a, k) + For(b, k)
  {
    if b == [] {
      assert a + b == a;
    } else {
      assert (a + b)[..|a + b| - 1] == a + b[..|b| - 1];
      ForConcat(a, b[..|b| - 1], k);
    }
  }

  lemma {:induction false} FinalIsLast(ws: seq<Write>, k: string)
    ensures k in Final(ws) <==> For(ws, k) != []
    ensures k in Final(ws) ==> Final(ws)[k] == For(ws, k)[|For(ws, k)| - 1].price
  {
    if ws != [] {
      FinalIsLast(ws[..|ws| - 1], k);
    }
  }

  lemma SameFinal(a: seq<Write>, b: seq<Write>)
    requires forall k :: For(a, k) == For(b, k)
    ensures Final(a) == Final(b)
  {
    forall k: string
      ensures k in Final(a) <==> k in Final(b)
      ensures k in Final(a) ==> Final(a)[k] == Final(b)[k]
    {
      assert For(a, k) == For(b, k);
      FinalIsLast(a, k);
      FinalIsLast(b, k);
    }
  }

  // -- rules that write a key --------------------------------------------------------------------

  /** The rule writes nothing under k, whatever product of its own fetch comes along. */
  predicate Silent(r: Rule, source: Source, k: string) {
    forall e :: e in source(r.FetchFilter()) && e.Entry? ==> For(WritesOf(r, e.product), k) == []
  }

  function Loud(rules: seq<Rule>, source: Source, k: string): seq<Rule> {
    if rules == [] then []
    else
      var front, last := Loud(rules[..|rules| - 1], source, k), rules[|rules| - 1];
      if Silent(last, source, k) then front else front + [last]
  }

  /** No key is written by two rules. */
  ghost predicate NeverShareKeys(rules: seq<Rule>, source: Source) {
    forall i, j, k :: 0 <= i < j < |rules| ==> Silent(rules[i], source, k) || Silent(rules[j], source, k)
  }

  predicate AllFetch(rules: seq<Rule>, f: FetchKey) {
    forall i :: 0 <= i < |rules| ==> rules[i].FetchFilter() == f
  }

  lemma {:induction false} OnlyLoudMatter(rules: seq<Rule>, source: Source, f: FetchKey, p: Product, k: string)
    requires AllFetch(rules, f) && Entry(p) in source(f)
    ensures For(PerProduct(rules, p), k) == For(PerProduct(Loud(rules, source, k), p), k)
  {
    if rules != [] {
      var front, last := rules[..|rules| - 1], rules[|rules| - 1];
      OnlyLoudMatter(front, source, f, p, k);
      ForConcat(PerProduct(front, p), WritesOf(last, p), k);
      var loud := Loud(front, source, k);
      if !Silent(last, source, k) {
        assert (loud + [last])[..|loud|] == loud;
        ForConcat(PerProduct(loud, p), WritesOf(last, p), k);
      } else {
        assert last.FetchFilter() == f;
        assert Entry(p).product == p;
      }
    }
  }

  lemma {:induction false} GroupOnlyLoud(rules: seq<Rule>, source: Source, f: FetchKey, entries: seq<Parsed>, k: string)
    requires AllFetch(rules, f) && forall e :: e in entries ==> e in source(f)
    ensures For(PerGroup(rules, entries), k) == For(PerGroup(Loud(rules, source, k), entries), k)
  {
    if entries != [] {
      var front, last := entries[..|entries| - 1], entries[|entries| - 1];
      var loud := Loud(rules, source, k);
      GroupOnlyLoud(rules, source, f, front, k);
      assert last in entries;
      if last.Entry? {
        OnlyLoudMatter(rules, source, f, last.product, k);
        ForConcat(PerGroup(rules, front), PerProduct(rules, last.product), k);
        ForConcat(PerGroup(loud, front), PerProduct(loud, last.product), k);
      } else {
        assert PerGroup(rules, entries) == PerGroup(rules, front);
        assert PerGroup(loud, entries) == PerGroup(loud, front);
      }
    }
  }

  lemma {:induction false} NoRulesNoWrites(entries: seq<Parsed>)
    ensures PerGroup([], entries) == []
  {
    if entries != [] {
      NoRulesNoWrites(entries[..|entries| - 1]);
    }
  }

  lemma {:induction false} OfFetchAll(rules: seq<Rule>, f: FetchKey)
    ensures AllFetch(OfFetch(rules, f), f)
  {
    if rules != [] {
      OfFetchAll(rules[..|rules| - 1], f);
    }
  }

  lemma {:induction false} LoudOfFetch(rules: seq<Rule>, source: Source, f: FetchKey, k: string)
    ensures Loud(OfFetch(rules, f), source, k) == OfFetch(Loud(rules, source, k), f)
  {
    if rules != [] {
      var front, last := rules[..|rules| - 1], rules[|rules| - 1];
      LoudOfFetch(front, source, f, k);
      var a, b := OfFetch(front, f), Loud(front, source, k);
      assert (a + [last])[..|a|] == a && (b + [last])[..|b|] == b;
    }
  }

  lemma {:induction false} FewLoud(rules: seq<Rule>, source: Source, k: string)
    requires NeverShareKeys(rules, source)
    ensures |Loud(rules, source, k)| <= 1
    ensures forall r :: r in Loud(rules, source, k) ==>
        exists i :: 0 <= i < |rules| && rules[i] == r && !Silent(rules[i], source, k)
  {
    if rules != [] {
      var front, last := rules[..|rules| - 1], rules[|rules| - 1];
      forall i, j, k' | 0 <= i < j < |front|
        ensures Silent(front[i], source, k') || Silent(front[j], source, k')
      {
        assert front[i] == rules[i] && front[j] == rules[j];
      }
      FewLoud(front, source, k);
      var loud := Loud(front, source, k);
      if loud != [] {
        assert loud[0] in loud;
        var i :| 0 <= i < |front| && front[i] == loud[0] && !Silent(front[i], source, k);
        assert Silent(rules[i], source, k) || Silent(rules[|rules| - 1], source, k);
      }
      assert !Silent(last, source, k) ==> !Silent(rules[|rules| - 1], source, k);
    }
  }

  /** What reaches key k: the writes of the one rule that is not silent on it, if there is one. */
  function Owned(loud: seq<Rule>, source: Source, k: string): seq<Write> {
    if loud == [] then [] else For(PerGroup([loud[0]], source(loud[0].FetchFilter())), k)
  }

  lemma {:induction false} SeparateFor(rules: seq<Rule>, source: Source, k: string)
    requires |Loud(rules, source, k)| <= 1
    ensures For(SeparateWrites(rules, source), k) == Owned(Loud(rules, source, k), source, k)
  {
    if rules != [] {
      var front, last := rules[..|rules| - 1], rules[|rules| - 1];
      SeparateFor(front, source, k);
      var f := last.FetchFilter();
      ForConcat(SeparateWrites(front, source), PerGroup([last], source(f)), k);
      GroupOnlyLoud([last], source, f, source(f), k);
      assert [last][..0] == [];
      assert Loud([last], source, k) == if Silent(last, source, k) then [] else [last];
      NoRulesNoWrites(source(f));
    }
  }

  lemma OneGroupFor(rules: seq<Rule>, f: FetchKey, source: Source, k: string)
    requires |Loud(rules, source, k)| <= 1
    ensures var loud := Loud(rules, source, k);
            For(PerGroup(OfFetch(rules, f), source(f)), k) ==
            if loud != [] && loud[0].FetchFilter() == f then Owned(loud, source, k) else []
  {
    var loud := Loud(rules, source, k);
    OfFetchAll(rules, f);
    GroupOnlyLoud(OfFetch(rules, f), source, f, source(f), k);
    LoudOfFetch(rules, source, f, k);
    NoRulesNoWrites(source(f));
    if loud != [] {
      assert loud == [loud[0]] && loud[..0] == [];
      assert OfFetch(loud, f) == if loud[0].FetchFilter() == f then [loud[0]] else [];
    }
  }

  lemma LastKey(keys: seq<FetchKey>, f: FetchKey)
    requires keys != [] && forall i, j :: 0 <= i < j < |keys| ==> keys[i] != keys[j]
    ensures var front, last := keys[..|keys| - 1], keys[|keys| - 1];
            last !in front && (f in keys <==> f in front || f == last)
  {
    assert keys == keys[..|keys| - 1] + [keys[|keys| - 1]];
  }

  lemma {:induction false} GroupedFor(rules: seq<Rule>, keys: seq<FetchKey>, source: Source, k: string)
    requires |Loud(rules, source, k)| <= 1
    requires forall i, j :: 0 <= i < j < |keys| ==> keys[i] != keys[j]
    ensures var loud := Loud(rules, source, k);
            For(GroupedWrites(rules, keys, source), k) ==
            if loud != [] && loud[0].FetchFilter() in keys then Owned(loud, source, k) else []
  {
    if keys != [] {
      var front, f := keys[..|keys| - 1], keys[|keys| - 1];
      var loud := Loud(rules, source, k);
      LastKey(keys, if loud != [] then loud[0].FetchFilter() else f);
      GroupedFor(rules, front, source, k);
      ForConcat(GroupedWrites(rules, front, source), PerGroup(OfFetch(rules, f), source(f)), k);
      OneGroupFor(rules, f, source, k);
    }
  }

  lemma {:induction false} FetchKeysDistinct(rules: seq<Rule>)
    ensures forall i, j :: 0 <= i < j < |FetchKeys(rules)| ==> FetchKeys(rules)[i] != FetchKeys(rules)[j]
    ensures forall i :: 0 <= i < |rules| ==> rules[i].FetchFilter() in FetchKeys(rules)
  {
    if rules != [] {
      FetchKeysDistinct(rules[..|rules| - 1]);
    }
  }

  /** Grouping changes the order of the writes, not the cache they leave behind. */
  lemma GroupedRefinesSeparate(rules: seq<Rule>, source: Source)
    requires NeverShareKeys(rules, source)
    ensures Final(GroupedWrites(rules, FetchKeys(rules), source)) == Final(SeparateWrites(rules, source))
  {
    var keys := FetchKeys(rules);
    FetchKeysDistinct(rules);
    forall k: string
      ensures For(GroupedWrites(rules, keys, source), k) == For(SeparateWrites(rules, source), k)
    {
      FewLoud(rules, source, k);
      GroupedFor(rules, keys, source, k);
      SeparateFor(rules, source, k);
      var loud := Loud(rules, source, k);
      if loud != [] {
        assert loud[0] in loud;
      }
    }
    SameFinal(GroupedWrites(rules, keys, source), SeparateWrites(rules, source));
  }

  // -- collisions and the order of products ------------------------------------------------------

  /** All writes to one key carry one list price. */
  ghost predicate OnePrice(ws: seq<Write>) {
    forall w, x :: w in ws && x in ws && w.key == x.key ==> w.listPrice == x.listPrice
  }

  /** The price that was written first, per key. */
  function First(ws: seq<Write>): map<string, real> {
    if ws == [] then map[]
    else
      var front, last := First(ws[..|ws| - 1]), ws[|ws| - 1];
      if last.key in front then front else front[last.key := last.listPrice]
  }

  lemma {:induction false} FirstIsWritten(ws: seq<Write>)
    ensures forall w :: w in ws ==> w.key in First(ws)
    ensures forall k :: k in First(ws) ==> exists w :: w in ws && w.key == k && w.listPrice == First(ws)[k]
  {
    if ws != [] {
      var front, last := ws[..|ws| - 1], ws[|ws| - 1];
      FirstIsWritten(front);
      assert ws == front + [last];
      forall k | k in First(ws)
        ensures exists w :: w in ws && w.key == k && w.listPrice == First(ws)[k]
      {
        if k in First(front) {
          var w :| w in front && w.key == k && w.listPrice == First(front)[k];
          assert w in ws;
        } else {
          assert last in ws;
        }
      }
    }
  }

  lemma OnePriceNext(ws: seq<Write>, w: Write)
    ensures OnePrice(ws + [w]) <==> OnePrice(ws) && (w.key in First(ws) ==> First(ws)[w.key] == w.listPrice)
  {
    FirstIsWritten(ws);
    assert forall x :: x in ws + [w] <==> x in ws || x == w;
    if w.key in First(ws) {
      var x :| x in ws && x.key == w.key && x.listPrice == First(ws)[w.key];
    }
  }

  predicate Produces(r: Rule, e: Parsed, w: Write) {
    e.Entry? && w in WritesOf(r, e.product)
  }

  lemma {:induction false} InPerProduct(rules: seq<Rule>, p: Product, w: Write)
    ensures w in PerProduct(rules, p) <==> exists i :: 0 <= i < |rules| && Produces(rules[i], Entry(p), w)
  {
    if rules != [] {
      var front, last := rules[..|rules| - 1], rules[|rules| - 1];
      InPerProduct(front, p, w);
      assert Produces(last, Entry(p), w) <==> w in WritesOf(last, p);
      assert forall i :: 0 <= i < |front| ==> rules[i] == front[i];
      if w in PerProduct(front, p) {
        var i :| 0 <= i < |front| && Produces(front[i], Entry(p), w);
        assert Produces(rules[i], Entry(p), w);
      }
    }
  }

  ghost predicate Produced(rules: seq<Rule>, entries: seq<Parsed>, w: Write) {
    exists i, e :: 0 <= i < |rules| && e in entries && Produces(rules[i], e, w)
  }

  lemma ProducedSplit(rules: seq<Rule>, front: seq<Parsed>, last: Parsed, w: Write)
    ensures Produced(rules, front + [last], w) <==>
            Produced(rules, front, w) || exists i :: 0 <= i < |rules| && Produces(rules[i], last, w)
  {
    var entries := front + [last];
    assert last in entries && forall e :: e in entries <==> e in front || e == last;
    if Produced(rules, front, w) {
      var i, e :| 0 <= i < |rules| && e in front && Produces(rules[i], e, w);
      assert e in entries;
    } else if Produced(rules, entries, w) {
      var i, e :| 0 <= i < |rules| && e in entries && Produces(rules[i], e, w);
      assert e == last;
    }
  }

  lemma {:induction false} InPerGroup(rules: seq<Rule>, entries: seq<Parsed>, w: Write)
    ensures w in PerGroup(rules, entries) <==> Produced(rules, entries, w)
  {
    if entries != [] {
      var front, last := entries[..|entries| - 1], entries[|entries| - 1];
      InPerGroup(rules, front, w);
      assert entries == front + [last];
      ProducedSplit(rules, front, last, w);
      if last.Entry? {
        InPerProduct(rules, last.product, w);
        assert Entry(last.product) == last;
      }
    }
  }

  /** The same products in another order, for every fetch. */
  ghost predicate Reordered(a: Source, b: Source) {
    forall f :: multiset(a(f)) == multiset(b(f))
  }

  lemma ReorderedEntry(a: Source, b: Source, f: FetchKey, e: Parsed)
    requires Reordered(a, b) && e in a(f)
    ensures e in b(f)
  {
    assert multiset(a(f)) == multiset(b(f));
    assert e in multiset(b(f));
  }

  lemma ReorderedGroup(rules: seq<Rule>, f: FetchKey, a: Source, b: Source, w: Write)
    requires Reordered(a, b) && w in PerGroup(rules, a(f))
    ensures w in PerGroup(rules, b(f))
  {
    InPerGroup(rules, a(f), w);
    InPerGroup(rules, b(f), w);
    var i, e :| 0 <= i < |rules| && e in a(f) && Produces(rules[i], e, w);
    ReorderedEntry(a, b, f, e);
  }

  lemma {:induction false} ReorderedWrites(rules: seq<Rule>, keys: seq<FetchKey>, a: Source, b: Source, w: Write)
    requires Reordered(a, b) && w in GroupedWrites(rules, keys, a)
    ensures w in GroupedWrites(rules, keys, b)
  {
    var front, f := keys[..|keys| - 1], keys[|keys| - 1];
    if w in GroupedWrites(rules, front, a) {
      ReorderedWrites(rules, front, a, b, w);
    } else {
      ReorderedGroup(OfFetch(rules, f), f, a, b, w);
    }
  }

  lemma {:induction false} InFor(ws: seq<Write>, k: string, w: Write)
    ensures w in For(ws, k) <==> w in ws && w.key == k
  {
    if ws != [] {
      InFor(ws[..|ws| - 1], k, w);
      assert ws == ws[..|ws| - 1] + [ws[|ws| - 1]];
    }
  }

  /** Every grouped write comes from a rule and a product of that rule's own fetch. */
  lemma {:induction false} GroupedProduced(rules: seq<Rule>, keys: seq<FetchKey>, source: Source, w: Write)
    requires w in GroupedWrites(rules, keys, source)
    ensures exists i, e :: 0 <= i < |rules| && e in source(rules[i].FetchFilter()) && Produces(rules[i], e, w)
  {
    var front, f := keys[..|keys| - 1], keys[|keys| - 1];
    if w in GroupedWrites(rules, front, source) {
      GroupedProduced(rules, front, source, w);
    } else {
      var group := OfFetch(rules, f);
      InPerGroup(group, source(f), w);
      var g, e :| 0 <= g < |group| && e in source(f) && Produces(group[g], e, w);
      InOfFetch(rules, f, group[g]);
      var i :| 0 <= i < |rules| && rules[i] == group[g];
      assert Produces(rules[i], e, w);
    }
  }

  lemma {:induction false} ProducerIsLoud(r: Rule, source: Source, e: Parsed, w: Write)
    requires e in source(r.FetchFilter()) && Produces(r, e, w)
    ensures !Silent(r, source, w.key) && w.price == Scaled(w.listPrice, r.priceScale)
  {
    InFor(WritesOf(r, e.product), w.key, w);
  }

  /** A key has one rule, hence one scale. */
  lemma {:induction false} OneScale(rules: seq<Rule>, source: Source, w: Write, x: Write)
    requires NeverShareKeys(rules, source)
    requires w in GroupedWrites(rules, FetchKeys(rules), source) && x in GroupedWrites(rules, FetchKeys(rules), source)
    requires w.key == x.key && w.listPrice == x.listPrice
    ensures w.price == x.price
  {
    GroupedProduced(rules, FetchKeys(rules), source, w);
    GroupedProduced(rules, FetchKeys(rules), source, x);
    var i, e :| 0 <= i < |rules| && e in source(rules[i].FetchFilter()) && Produces(rules[i], e, w);
    var j, f :| 0 <= j < |rules| && f in source(rules[j].FetchFilter()) && Produces(rules[j], f, x);
    ProducerIsLoud(rules[i], source, e, w);
    ProducerIsLoud(rules[j], source, f, x);
    SameRule(rules, source, i, j, w.key);
  }

  lemma SameRule(rules: seq<Rule>, source: Source, i: nat, j: nat, k: string)
    requires NeverShareKeys(rules, source) && i < |rules| && j < |rules|
    requires !Silent(rules[i], source, k) && !Silent(rules[j], source, k)
    ensures i == j
  {
  }

  /** Without collisions, and with rules that never share a key, the cache is the same for every
      order in which the price list returns its products. */
  lemma {:induction false} OrderOfProductsDoesNotMatter(rules: seq<Rule>, a: Source, b: Source)
    requires Reordered(a, b) && NeverShareKeys(rules, a)
    requires OnePrice(GroupedWrites(rules, FetchKeys(rules), a))
    ensures Final(GroupedWrites(rules, FetchKeys(rules), a)) == Final(GroupedWrites(rules, FetchKeys(rules), b))
  {
    var keys := FetchKeys(rules);
    var wa, wb := GroupedWrites(rules, keys, a), GroupedWrites(rules, keys, b);
    forall w
      ensures w in wa <==> w in wb
    {
      if w in wa {
        ReorderedWrites(rules, keys, a, b, w);
      }
      if w in wb {
        ReorderedWrites(rules, keys, b, a, w);
      }
    }
    forall w, x | w in wa && x in wa && w.key == x.key
      ensures w.price == x.price
    {
      OneScale(rules, a, w, x);
    }
    SameWritesSameFinal(wa, wb);
  }

  lemma SameWritesSameFinal(wa: seq<Write>, wb: seq<Write>)
    requires forall w :: w in wa <==> w in wb
    requires forall w, x :: w in wa && x in wa && w.key == x.key ==> w.price == x.price
    ensures Final(wa) == Final(wb)
  {
    forall k: string
      ensures k in Final(wa) <==> k in Final(wb)
      ensures k in Final(wa) ==> Final(wa)[k] == Final(wb)[k]
    {
      FinalIsLast(wa, k);
      FinalIsLast(wb, k);
      var fa, fb := For(wa, k), For(wb, k);
      forall w
        ensures w in fa <==> w in fb
      {
        InFor(wa, k, w);
        InFor(wb, k, w);
      }
      if fa != [] {
        assert fa[|fa| - 1] in fa && fa[|fa| - 1] in fb;
        assert fb[|fb| - 1] in fb && fb[|fb| - 1] in fa;
        InFor(wa, k, fa[|fa| - 1]);
        InFor(wa, k, fb[|fb| - 1]);
      } else if fb != [] {
        assert fb[0] in fb;
      }
    }
  }

  // -- the code ------------------------------------------------------------------------------------

  ghost predicate Contributed(name: string, ws: seq<Write>) {
    exists w :: w in ws && w.rule == name
  }

  /** Every rule of these fetches wrote something, counted by its name within its own group. */
  ghost predicate AllContributed(rules: seq<Rule>, keys: seq<FetchKey>, source: Source) {
    forall f :: f in keys ==> GroupContributed(OfFetch(rules, f), f, source)
  }

  ghost predicate GroupContributed(group: seq<Rule>, f: FetchKey, source: Source) {
    forall r :: r in group ==> Contributed(r.name, PerGroup(group, source(f)))
  }

  lemma GroupedWritesNext(rules: seq<Rule>, keys: seq<FetchKey>, i: nat, source: Source)
    requires i < |keys|
    ensures GroupedWrites(rules, keys[..i + 1], source) ==
            GroupedWrites(rules, keys[..i], source) + PerGroup(OfFetch(rules, keys[i]), source(keys[i]))
  {
    assert keys[..i + 1][..i] == keys[..i];
  }

  lemma AllContributedNext(rules: seq<Rule>, keys: seq<FetchKey>, i: nat, source: Source)
    requires i < |keys|
    ensures AllContributed(rules, keys[..i + 1], source) <==>
            AllContributed(rules, keys[..i], source) && GroupContributed(OfFetch(rules, keys[i]), keys[i], source)
  {
    assert forall f :: f in keys[..i + 1] <==> f in keys[..i] || f == keys[i];
    assert keys[i] in keys[..i + 1];
  }

  lemma ContributedConcat(a: seq<Write>, b: seq<Write>)
    ensures forall n :: Contributed(n, a + b) <==> Contributed(n, a) || Contributed(n, b)
  {
    assert forall w :: w in a + b <==> w in a || w in b;
  }

  lemma ContributedNext(a: seq<Write>, r: Rule, p: Product)
    ensures forall n :: Contributed(n, a + WritesOf(r, p)) <==>
        Contributed(n, a) || (WritesOf(r, p) != [] && n == r.name)
  {
    ContributedConcat(a, WritesOf(r, p));
    if WritesOf(r, p) != [] {
      assert WritesOf(r, p)[0] in WritesOf(r, p);
    }
  }

  lemma Associative(a: seq<Write>, b: seq<Write>, c: seq<Write>)
    ensures a + b + c == a + (b + c)
  {
  }

  lemma PerProductNext(rules: seq<Rule>, i: nat, p: Product)
    requires i < |rules|
    ensures PerProduct(rules[..i + 1], p) == PerProduct(rules[..i], p) + WritesOf(rules[i], p)
  {
    assert rules[..i + 1][..i] == rules[..i];
  }

  lemma PerGroupNext(rules: seq<Rule>, entries: seq<Parsed>, i: nat)
    requires i < |entries|
    ensures PerGroup(rules, entries[..i + 1]) ==
            PerGroup(rules, entries[..i]) + WritesOfEntry(rules, entries[i])
  {
    assert entries[..i + 1][..i] == entries[..i];
  }

  // -- what the report names ------------------------------------------------------------------------

  /** The key was written with another list price than the first one. */
  ghost predicate Collides(ws: seq<Write>, k: string) {
    exists w, x :: w in ws && x in ws && w.key == k && x.key == k && w.listPrice != x.listPrice
  }

  lemma CollidesNext(ws: seq<Write>, w: Write, k: string)
    ensures Collides(ws + [w], k) <==>
            Collides(ws, k) || (w.key == k && k in First(ws) && First(ws)[k] != w.listPrice)
  {
    FirstIsWritten(ws);
    assert forall x :: x in ws + [w] <==> x in ws || x == w;
    if k in First(ws) {
      var x :| x in ws && x.key == k && x.listPrice == First(ws)[k];
    }
  }

  /** These are the keys of the collisions. */
  ghost predicate Names(collisions: seq<string>, ws: seq<Write>) {
    forall k :: k in collisions <==> Collides(ws, k)
  }

  lemma NamesNext(collisions: seq<string>, ws: seq<Write>, w: Write)
    requires Names(collisions, ws)
    ensures Names(if w.key in First(ws) && First(ws)[w.key] != w.listPrice then collisions + [w.key] else collisions,
                  ws + [w])
  {
    forall k
      ensures Collides(ws + [w], k) <==>
              Collides(ws, k) || (w.key == k && k in First(ws) && First(ws)[k] != w.listPrice)
    {
      CollidesNext(ws, w, k);
    }
  }

  /** A rule of this group goes by this name, and none of that name wrote anything. */
  ghost predicate Missing(group: seq<Rule>, f: FetchKey, source: Source, name: string) {
    (exists r :: r in group && r.name == name) && !Contributed(name, PerGroup(group, source(f)))
  }

  ghost predicate AnyMissing(rules: seq<Rule>, keys: seq<FetchKey>, source: Source, name: string) {
    exists f :: f in keys && Missing(OfFetch(rules, f), f, source, name)
  }

  lemma AnyMissingNext(rules: seq<Rule>, keys: seq<FetchKey>, i: nat, source: Source, name: string)
    requires i < |keys|
    ensures AnyMissing(rules, keys[..i + 1], source, name) <==>
            AnyMissing(rules, keys[..i], source, name) || Missing(OfFetch(rules, keys[i]), keys[i], source, name)
  {
    assert forall f :: f in keys[..i + 1] <==> f in keys[..i] || f == keys[i];
    assert keys[i] in keys[..i + 1];
  }

  /** These are the names of the rules that matched nothing. */
  ghost predicate AllMissing(names: seq<string>, rules: seq<Rule>, keys: seq<FetchKey>, source: Source) {
    forall n :: n in names <==> AnyMissing(rules, keys, source, n)
  }

  lemma AllMissingNext(before: seq<string>, names: seq<string>, rules: seq<Rule>, keys: seq<FetchKey>, i: nat,
      source: Source)
    requires i < |keys| && AllMissing(before, rules, keys[..i], source)
    requires forall n :: n in names <==> n in before || Missing(OfFetch(rules, keys[i]), keys[i], source, n)
    ensures AllMissing(names, rules, keys[..i + 1], source)
  {
    forall n
      ensures n in names <==> AnyMissing(rules, keys[..i + 1], source, n)
    {
      AnyMissingNext(rules, keys, i, source, n);
    }
  }

  method ZeroCounts(rules: seq<Rule>) returns (counts: map<string, nat>)
    ensures forall r :: r in rules ==> r.name in counts
    ensures forall n :: n in counts ==> counts[n] == 0
  {
    counts := map[];
    for i := 0 to |rules|
      invariant forall j :: 0 <= j < i ==> rules[j].name in counts
      invariant forall n :: n in counts ==> counts[n] == 0
    {
      counts := counts[rules[i].name := 0];
    }
  }

  /** The version of the first entry that carries one. */
  function FirstVersion(entries: seq<Parsed>): string {
    if entries == [] then ""
    else
      var last := entries[|entries| - 1];
      Or(FirstVersion(entries[..|entries| - 1]), VersionOf(last))
  }

  function VersionOf(e: Parsed): string {
    if e.Entry? then e.product.version else ""
  }

  function Or(a: string, b: string): string {
    if a != "" then a else b
  }

  /** All entries that a run reads, fetch after fetch. */
  function AllEntries(keys: seq<FetchKey>, source: Source): seq<Parsed> {
    if keys == [] then [] else AllEntries(keys[..|keys| - 1], source) + source(keys[|keys| - 1])
  }

  lemma {:induction false} FirstVersionConcat(a: seq<Parsed>, b: seq<Parsed>)
    ensures FirstVersion(a + b) == Or(FirstVersion(a), FirstVersion(b))
  {
    if b == [] {
      assert a + b == a;
    } else {
      assert (a + b)[..|a + b| - 1] == a + b[..|b| - 1];
      FirstVersionConcat(a, b[..|b| - 1]);
    }
  }

  lemma FirstVersionNext(entries: seq<Parsed>, i: nat)
    requires i < |entries|
    ensures FirstVersion(entries[..i + 1]) ==
            Or(FirstVersion(entries[..i]), VersionOf(entries[i]))
  {
    assert entries[..i + 1][..i] == entries[..i];
  }

  lemma AllEntriesNext(keys: seq<FetchKey>, i: nat, source: Source)
    requires i < |keys|
    ensures var front := AllEntries(keys[..i], source);
            && AllEntries(keys[..i + 1], source) == front + source(keys[i])
            && FirstVersion(front + source(keys[i])) == Or(FirstVersion(front), FirstVersion(source(keys[i])))
  {
    assert keys[..i + 1][..i] == keys[..i];
    FirstVersionConcat(AllEntries(keys[..i], source), source(keys[i]));
  }

  /** The recorded version is the one of some entry, and no entry before it carries any. */
  lemma {:induction false} FirstVersionIs(entries: seq<Parsed>)
    ensures FirstVersion(entries) == "" <==> forall e :: e in entries ==> VersionOf(e) == ""
    ensures FirstVersion(entries) != "" ==> exists i ::
              0 <= i < |entries| && VersionOf(entries[i]) == FirstVersion(entries)
              && forall j :: 0 <= j < i ==> VersionOf(entries[j]) == ""
  {
    if entries != [] {
      var front, last := entries[..|entries| - 1], entries[|entries| - 1];
      FirstVersionIs(front);
      assert entries == front + [last];
      if FirstVersion(front) != "" {
        var i :| 0 <= i < |front| && VersionOf(front[i]) == FirstVersion(front)
          && forall j :: 0 <= j < i ==> VersionOf(front[j]) == "";
        assert entries[i] == front[i] && forall j :: 0 <= j < i ==> entries[j] == front[j];
      } else {
        assert forall j :: 0 <= j < |front| ==> entries[j] == front[j] && front[j] in front;
      }
    }
  }

  /** The names of rules that matched nothing, each once. */
  method ZeroNames(rules: seq<Rule>, counts: map<string, nat>) returns (missing: seq<string>)
    requires forall r :: r in rules ==> r.name in counts
    ensures forall n :: n in missing <==> n in counts && counts[n] == 0 && exists r :: r in rules && r.name == n
  {
    missing := [];
    for i := 0 to |rules|
      invariant forall n ::
          n in missing <==> n in counts && counts[n] == 0 && exists r :: r in rules[..i] && r.name == n
    {
      assert rules[i] in rules;
      assert forall r :: r in rules[..i + 1] <==> r in rules[..i] || r == rules[i];
      if counts[rules[i].name] == 0 && rules[i].name !in missing {
        missing := missing + [rules[i].name];
      }
    }
    assert rules[..|rules|] == rules;
  }

  method Grouped(rules: seq<Rule>) returns (keys: seq<FetchKey>, groups: map<FetchKey, seq<Rule>>)
    ensures keys == FetchKeys(rules)
    ensures forall f :: f in keys <==> f in groups
    ensures forall f :: f in groups ==> groups[f] == OfFetch(rules, f)
  {
    keys, groups := [], map[];
    for i := 0 to |rules|
      invariant keys == FetchKeys(rules[..i])
      invariant forall f :: f in keys <==> f in groups
      invariant forall f :: OfFetch(rules[..i], f) == if f in groups then groups[f] else []
    {
      assert rules[..i + 1][..i] == rules[..i];
      var f := rules[i].FetchFilter();
      if f !in groups {
        keys, groups := keys + [f], groups[f := []];
      }
      groups := groups[f := groups[f] + [rules[i]]];
    }
    assert rules[..|rules|] == rules;
  }

  /** One run: its report, the first price seen per key, and the cache it writes to. */
  class SyncRun {
    const source: Source
    var productsSeen: nat
    var pricesWritten: nat
    var unmatched: nat
    var skipped: nat
    var rulesWithNoMatches: seq<string>
    var collisions: seq<string>
    var version: string
    var written: map<string, real>
    var sink: map<string, real>
    ghost var log: seq<Write>

    constructor (source: Source)
      ensures Valid() && this.source == source && log == [] && rulesWithNoMatches == []
      ensures version == "" && productsSeen == 0
    {
      this.source := source;
      productsSeen, pricesWritten, unmatched, skipped := 0, 0, 0, 0;
      rulesWithNoMatches, collisions, version := [], [], "";
      written, sink, log := map[], map[], [];
    }

    ghost predicate Valid()
      reads this
    {
      && sink == Final(log) && pricesWritten == |log| && written == First(log)
      && (collisions == [] <==> OnePrice(log))
      && Names(collisions, log)
    }

    predicate Healthy()
      reads this
    {
      pricesWritten > 0 && rulesWithNoMatches == [] && collisions == []
    }

    method WritePrice(w: Write, sku: string)
      requires Valid()
      modifies this`written, this`sink, this`log, this`pricesWritten, this`collisions
      ensures Valid() && log == old(log) + [w]
    {
      OnePriceNext(log, w);
      NamesNext(collisions, log, w);
      assert (log + [w])[..|log|] == log;
      if w.key in written && written[w.key] != w.listPrice {
        collisions := collisions + [w.key];
      }
      if w.key !in written {
        written := written[w.key := w.listPrice];
      }
      sink := sink[w.key := w.price];
      pricesWritten := pricesWritten + 1;
      log := log + [w];
    }

    /** One rule against one product. */
    method SyncRule(rule: Rule, p: Product) returns (matched: bool)
      requires Valid()
      modifies this`written, this`sink, this`log, this`pricesWritten, this`collisions, this`skipped
      ensures Valid() && log == old(log) + WritesOf(rule, p)
      ensures matched <==> WritesOf(rule, p) != []
    {
      if !rule.Matches(p) {
        return false;
      }
      var key := rule.buildKey(p);
      if key.None? {
        skipped := skipped + 1;
        return false;
      }
      WritePrice(WriteOf(rule, p, key.value), p.sku);
      return true;
    }

    /** Every rule of the group against one product; matches are counted per rule name. */
    method SyncProduct(rules: seq<Rule>, p: Product, counts: map<string, nat>) returns (newCounts: map<string, nat>)
      requires Valid() && forall r :: r in rules ==> r.name in counts
      modifies this`written, this`sink, this`log, this`pricesWritten, this`collisions, this`unmatched, this`skipped
      ensures Valid() && log == old(log) + PerProduct(rules, p)
      ensures newCounts.Keys == counts.Keys
      ensures forall n :: n in counts ==> (newCounts[n] > 0 <==> counts[n] > 0 || Contributed(n, PerProduct(rules, p)))
    {
      newCounts := counts;
      var matched := false;
      ghost var these: seq<Write> := [];
      for i := 0 to |rules|
        invariant Valid() && log == old(log) + these
        invariant these == PerProduct(rules[..i], p)
        invariant newCounts.Keys == counts.Keys
        invariant forall n :: n in counts ==> (newCounts[n] > 0 <==> counts[n] > 0 || Contributed(n, these))
      {
        var name := rules[i].name;
        assert name in counts by {
          assert rules[i] in rules;
        }
        var hit := SyncRule(rules[i], p);
        if hit {
          matched := true;
          newCounts := newCounts[name := newCounts[name] + 1];
        }
        ContributedNext(these, rules[i], p);
        PerProductNext(rules, i, p);
        Associative(old(log), these, WritesOf(rules[i], p));
        these := these + WritesOf(rules[i], p);
      }
      assert rules[..|rules|] == rules;
      if !matched {
        unmatched := unmatched + 1;
      }
    }

    /** One fetch and every rule that uses it. */
    method SyncGroup(rules: seq<Rule>, f: FetchKey)
      requires Valid()
      modifies this
      ensures Valid() && log == old(log) + PerGroup(rules, source(f))
      ensures version == Or(old(version), FirstVersion(source(f))) && productsSeen == old(productsSeen) + |source(f)|
      ensures rulesWithNoMatches == [] <==>
              old(rulesWithNoMatches) == [] && GroupContributed(rules, f, source)
      ensures forall n :: n in rulesWithNoMatches <==> n in old(rulesWithNoMatches) || Missing(rules, f, source, n)
    {
      var counts := ZeroCounts(rules);
      counts := SyncEntries(rules, source(f), counts);
      var missing := ZeroNames(rules, counts);
      if missing == [] {
        forall r | r in rules
          ensures Contributed(r.name, PerGroup(rules, source(f)))
        {
          assert r.name !in missing;
        }
      } else {
        assert missing[0] in missing;
      }
      rulesWithNoMatches := rulesWithNoMatches + missing;
    }

    /** One raw entry of the price list. */
    method SyncEntry(rules: seq<Rule>, entry: Parsed, counts: map<string, nat>) returns (newCounts: map<string, nat>)
      requires Valid() && forall r :: r in rules ==> r.name in counts
      modifies this`written, this`sink, this`log, this`pricesWritten, this`collisions, this`unmatched, this`skipped,
               this`productsSeen, this`version
      ensures Valid() && log == old(log) + WritesOfEntry(rules, entry)
      ensures version == Or(old(version), VersionOf(entry)) && productsSeen == old(productsSeen) + 1
      ensures newCounts.Keys == counts.Keys
      ensures forall n :: n in counts ==>
                (newCounts[n] > 0 <==> counts[n] > 0 || Contributed(n, WritesOfEntry(rules, entry)))
    {
      newCounts := counts;
      productsSeen := productsSeen + 1;
      match entry {
        case Skip(_) =>
          skipped := skipped + 1;
        case Entry(product) =>
          if product.version != "" && version == "" {
            version := product.version;
          }
          newCounts := SyncProduct(rules, product, counts);
      }
    }

    method SyncEntries(rules: seq<Rule>, entries: seq<Parsed>, zero: map<string, nat>)
      returns (counts: map<string, nat>)
      requires Valid() && forall r :: r in rules ==> r.name in zero
      requires forall n :: n in zero ==> zero[n] == 0
      modifies this`written, this`sink, this`log, this`pricesWritten, this`collisions, this`unmatched, this`skipped,
               this`productsSeen, this`version
      ensures Valid() && log == old(log) + PerGroup(rules, entries)
      ensures version == Or(old(version), FirstVersion(entries)) && productsSeen == old(productsSeen) + |entries|
      ensures counts.Keys == zero.Keys
      ensures forall n :: n in counts ==> (counts[n] > 0 <==> Contributed(n, PerGroup(rules, entries)))
    {
      counts := zero;
      ghost var these: seq<Write> := [];
      for i := 0 to |entries|
        invariant Valid() && log == old(log) + these
        invariant these == PerGroup(rules, entries[..i])
        invariant version == Or(old(version), FirstVersion(entries[..i]))
        invariant productsSeen == old(productsSeen) + i
        invariant counts.Keys == zero.Keys
        invariant forall n :: n in counts ==> (counts[n] > 0 <==> Contributed(n, these))
      {
        ghost var more := WritesOfEntry(rules, entries[i]);
        counts := SyncEntry(rules, entries[i], counts);
        PerGroupNext(rules, entries, i);
        FirstVersionNext(entries, i);
        ContributedConcat(these, more);
        Associative(old(log), these, more);
        these := these + more;
      }
      assert entries[..|entries|] == entries;
    }

    /** Fetches every group once and writes what its rules match. */
    method Run(rules: seq<Rule>)
      requires Valid() && log == [] && rulesWithNoMatches == [] && version == "" && productsSeen == 0
      modifies this
      ensures version == FirstVersion(AllEntries(FetchKeys(rules), source))
      ensures productsSeen == |AllEntries(FetchKeys(rules), source)|
      ensures sink == Final(GroupedWrites(rules, FetchKeys(rules), source))
      ensures pricesWritten == |GroupedWrites(rules, FetchKeys(rules), source)|
      ensures collisions == [] <==> OnePrice(GroupedWrites(rules, FetchKeys(rules), source))
      ensures Names(collisions, GroupedWrites(rules, FetchKeys(rules), source))
      ensures rulesWithNoMatches == [] <==> AllContributed(rules, FetchKeys(rules), source)
      ensures AllMissing(rulesWithNoMatches, rules, FetchKeys(rules), source)
      ensures Healthy() <==> HealthyRun(rules, source)
      ensures Healthy() ==>
                forall i :: 0 <= i < |rules| && OwnName(rules, i) ==>
                    PerGroup([rules[i]], source(rules[i].FetchFilter())) != []
    {
      var keys, groups := Grouped(rules);
      for i := 0 to |keys|
        invariant Valid() && log == GroupedWrites(rules, keys[..i], source)
        invariant version == FirstVersion(AllEntries(keys[..i], source))
        invariant productsSeen == |AllEntries(keys[..i], source)|
        invariant rulesWithNoMatches == [] <==> AllContributed(rules, keys[..i], source)
        invariant AllMissing(rulesWithNoMatches, rules, keys[..i], source)
      {
        assert keys[i] in groups;
        ghost var before := rulesWithNoMatches;
        SyncGroup(groups[keys[i]], keys[i]);
        GroupedWritesNext(rules, keys, i, source);
        AllEntriesNext(keys, i, source);
        AllContributedNext(rules, keys, i, source);
        AllMissingNext(before, rulesWithNoMatches, rules, keys, i, source);
      }
      assert keys[..|keys|] == keys;
      HealthyMeansAllContributed(rules, source);
    }
  }

  /** What `healthy` of the report amounts to: something was written, every rule wrote something, and
      no key got two list prices. */
  ghost predicate HealthyRun(rules: seq<Rule>, source: Source) {
    && GroupedWrites(rules, FetchKeys(rules), source) != []
    && AllContributed(rules, FetchKeys(rules), source)
    && OnePrice(GroupedWrites(rules, FetchKeys(rules), source))
  }

  predicate SameGroupName(rules: seq<Rule>, j: nat, i: nat)
    requires i < |rules| && j < |rules|
  {
    rules[j].name == rules[i].name && rules[j].FetchFilter() == rules[i].FetchFilter()
  }

  /** No other rule of the same fetch goes by this rule's name. */
  ghost predicate OwnName(rules: seq<Rule>, i: nat)
    requires i < |rules|
  {
    forall j :: 0 <= j < |rules| && SameGroupName(rules, j, i) ==> rules[j] == rules[i]
  }

  /** Some rule of the same fetch and name, fetched on its own, would have written something. */
  ghost predicate NameContributes(rules: seq<Rule>, source: Source, i: nat)
    requires i < |rules|
  {
    exists j: nat :: j < |rules| && SameGroupName(rules, j, i)
        && PerGroup([rules[j]], source(rules[j].FetchFilter())) != []
  }

  /** No rule is reported as matching nothing exactly when for each rule some rule of its fetch and
      name would have written something on its own. */
  lemma {:induction false} ContributedIff(rules: seq<Rule>, source: Source)
    ensures AllContributed(rules, FetchKeys(rules), source) <==>
            forall i :: 0 <= i < |rules| ==> NameContributes(rules, source, i)
  {
    FetchKeysDistinct(rules);
    if AllContributed(rules, FetchKeys(rules), source) {
      forall i | 0 <= i < |rules|
        ensures NameContributes(rules, source, i)
      {
        FindContributor(rules, source, i);
      }
    }
    if forall i :: 0 <= i < |rules| ==> NameContributes(rules, source, i) {
      forall f | f in FetchKeys(rules)
        ensures GroupContributed(OfFetch(rules, f), f, source)
      {
        forall r | r in OfFetch(rules, f)
          ensures Contributed(r.name, PerGroup(OfFetch(rules, f), source(f)))
        {
          InOfFetch(rules, f, r);
          var i :| 0 <= i < |rules| && rules[i] == r;
          assert NameContributes(rules, source, i);
          var j: nat :| j < |rules| && SameGroupName(rules, j, i)
              && PerGroup([rules[j]], source(rules[j].FetchFilter())) != [];
          LiftContribution(rules, source, j);
        }
      }
    }
  }

  lemma {:induction false} FindContributor(rules: seq<Rule>, source: Source, i: nat)
    requires AllContributed(rules, FetchKeys(rules), source) && i < |rules|
    ensures NameContributes(rules, source, i)
  {
    var f := rules[i].FetchFilter();
    var group := OfFetch(rules, f);
    FetchKeysDistinct(rules);
    InOfFetch(rules, f, rules[i]);
    assert rules[i] in rules;
    assert GroupContributed(group, f, source);
    var w :| w in PerGroup(group, source(f)) && w.rule == rules[i].name;
    InPerGroup(group, source(f), w);
    var g, e :| 0 <= g < |group| && e in source(f) && Produces(group[g], e, w);
    InOfFetch(rules, f, group[g]);
    var j: nat :| j < |rules| && rules[j] == group[g];
    InPerGroup([rules[j]], source(f), w);
    assert Produces([rules[j]][0], e, w);
    assert SameGroupName(rules, j, i);
  }

  /** What a rule writes on its own it also writes in its group. */
  lemma {:induction false} LiftContribution(rules: seq<Rule>, source: Source, j: nat)
    requires j < |rules| && PerGroup([rules[j]], source(rules[j].FetchFilter())) != []
    ensures var f := rules[j].FetchFilter(); Contributed(rules[j].name, PerGroup(OfFetch(rules, f), source(f)))
  {
    var f := rules[j].FetchFilter();
    var group, w := OfFetch(rules, f), PerGroup([rules[j]], source(f))[0];
    assert w in PerGroup([rules[j]], source(f));
    InPerGroup([rules[j]], source(f), w);
    var g, e :| 0 <= g < |[rules[j]]| && e in source(f) && Produces([rules[j]][g], e, w);
    InOfFetch(rules, f, rules[j]);
    var h :| 0 <= h < |group| && group[h] == rules[j];
    assert Produces(group[h], e, w);
    InPerGroup(group, source(f), w);
  }

  /** A healthy report means that every rule that shares its name with no other rule of its fetch
      would have written something on its own. */
  lemma {:induction false} HealthyMeansEveryRuleContributed(rules: seq<Rule>, source: Source, i: nat)
    requires HealthyRun(rules, source) && i < |rules| && OwnName(rules, i)
    ensures PerGroup([rules[i]], source(rules[i].FetchFilter())) != []
  {
    FindContributor(rules, source, i);
    var j: nat :| j < |rules| && SameGroupName(rules, j, i)
        && PerGroup([rules[j]], source(rules[j].FetchFilter())) != [];
    assert rules[j] == rules[i];
  }

  lemma {:induction false} HealthyMeansAllContributed(rules: seq<Rule>, source: Source)
    ensures HealthyRun(rules, source) ==>
              forall i :: 0 <= i < |rules| && OwnName(rules, i) ==>
                  PerGroup([rules[i]], source(rules[i].FetchFilter())) != []
  {
    if HealthyRun(rules, source) {
      forall i | 0 <= i < |rules| && OwnName(rules, i)
        ensures PerGroup([rules[i]], source(rules[i].FetchFilter())) != []
      {
        HealthyMeansEveryRuleContributed(rules, source, i);
      }
    }
  }

  /** A rule that matches nothing goes unnoticed beside one of the same fetch and name. */
  lemma {:induction false} SharedNameHides(a: Rule, b: Rule, p: Product)
    requires a.name == b.name && a.FetchFilter() == b.FetchFilter()
    requires WritesOf(a, p) != [] && WritesOf(b, p) == []
    ensures var source: Source := f => [Entry(p)];
            HealthyRun([a, b], source) && PerGroup([b], source(b.FetchFilter())) == []
  {
    var rules, f, entries := [a, b], a.FetchFilter(), [Entry(p)];
    var source: Source := f => [Entry(p)];
    PairKeys(a, b);
    PairWrites(a, b, p);
    assert [f][..0] == [] && GroupedWrites(rules, [f], source) == WritesOf(a, p);
    assert WritesOf(a, p)[0] in WritesOf(a, p);
    assert GroupContributed(rules, f, source);
  }

  lemma {:induction false} PairKeys(a: Rule, b: Rule)
    requires a.FetchFilter() == b.FetchFilter()
    ensures FetchKeys([a, b]) == [a.FetchFilter()] && OfFetch([a, b], a.FetchFilter()) == [a, b]
  {
    var f := a.FetchFilter();
    assert [a, b][..1] == [a] && [a, b][1] == b && [a][..0] == [] && [a][0] == a;
    assert FetchKeys([a]) == [] + [f] == [f];
    assert f in FetchKeys([a]);
    assert OfFetch([a], f) == [] + [a] == [a];
  }

  lemma {:induction false} PairWrites(a: Rule, b: Rule, p: Product)
    requires WritesOf(b, p) == []
    ensures PerGroup([a, b], [Entry(p)]) == WritesOf(a, p) && PerGroup([b], [Entry(p)]) == []
  {
    assert [Entry(p)][..0] == [] && [a, b][..1] == [a] && [a][..0] == [] && [b][..0] == [];
    assert PerProduct([a], p) == [] + WritesOf(a, p) == WritesOf(a, p);
    assert PerProduct([b], p) == [] + [] == [];
    assert PerProduct([a, b], p) == WritesOf(a, p) + [] == WritesOf(a, p);
  }

  lemma {:induction false} InOfFetch(rules: seq<Rule>, f: FetchKey, r: Rule)
    ensures r in OfFetch(rules, f) <==> r in rules && r.FetchFilter() == f
  {
    if rules != [] {
      InOfFetch(rules[..|rules| - 1], f, r);
      assert rules == rules[..|rules| - 1] + [rules[|rules| - 1]];
    }
  }
}
