/** What is remembered about a stack and what two snapshots are compared on
    (src/state/models.py, src/pricing/models.py:58-86,241-300). */
module Snapshots {
  import opened Templates
  import opened Money

  datatype PricingClass = DETERMINISTIC | USAGE_BASED | FREE | UNSUPPORTED | UNRESOLVED

  datatype Confidence = HIGH | MEDIUM | UNAVAILABLE

  /** One priced line. `quantity` is the text of the decimal, which is what fingerprints compare. */
  datatype Component = Component(queryKey: string, quantity: string)

  datatype Resource = Resource(
    logicalId: string,
    pricingClass: PricingClass,
    confidence: Confidence,
    physicalId: string,
    monthlyCost: real,
    components: seq<Component>,
    deletionPolicy: string,
    updateReplacePolicy: string)
  {
    predicate IsPriced() {
      pricingClass == DETERMINISTIC && confidence != UNAVAILABLE
    }

    /** What the resource contributes to a total. */
    function Cost(): real {
      if IsPriced() then monthlyCost else 0.0
    }

    predicate IsRetained() {
      IsRetainPolicy(deletionPolicy)
    }

    predicate IsRetainedOnReplacement() {
      IsRetainPolicy(updateReplacePolicy)
    }

    /** The sorted tuple of the source, up to order: two of those are equal exactly when these are. */
    function Fingerprint(): multiset<Component> {
      multiset(components)
    }
  }

  predicate IsSpace(c: char) {
    c == ' ' || '\t' <= c <= '\r'
  }

  function StripLeft(s: string): string {
    if s != "" && IsSpace(s[0]) then StripLeft(s[1..]) else s
  }

  function StripRight(s: string): string {
    if s != "" && IsSpace(s[|s| - 1]) then StripRight(s[..|s| - 1]) else s
  }

  function Lower(s: string): string {
    seq(|s|, i requires 0 <= i < |s| => if 'A' <= s[i] <= 'Z' then s[i] - 'A' + 'a' else s[i])
  }

  predicate IsRetainPolicy(policy: string) {
    Lower(StripRight(StripLeft(policy))) == "retain"
  }

  type Snapshot = seq<Resource>

  function TotalOf(rs: seq<Resource>): real {
    if rs == [] then 0.0 else TotalOf(rs[..|rs| - 1]) + rs[|rs| - 1].Cost()
  }

  lemma {:induction false} TotalConcat(a: seq<Resource>, b: seq<Resource>)
    ensures TotalOf(a + b) == TotalOf(a) + TotalOf(b)
  {
    if b == [] {
      assert a + b == a;
    } else {
      assert (a + b)[..|a + b| - 1] == a + b[..|b| - 1];
      TotalConcat(a, b[..|b| - 1]);
    }
  }

  // -- by_logical_id ------------------------------------------------------------------

  ghost predicate UniqueIds(rs: seq<Resource>) {
    forall i, j :: 0 <= i < j < |rs| ==> rs[i].logicalId != rs[j].logicalId
  }

  function IndexOf(rs: seq<Resource>, id: string): (i: nat)
    ensures i <= |rs|
    ensures i < |rs| ==> rs[i].logicalId == id
    ensures forall j :: 0 <= j < i ==> rs[j].logicalId != id
  {
    if rs == [] || rs[0].logicalId == id then 0 else 1 + IndexOf(rs[1..], id)
  }

  function Lookup(rs: seq<Resource>, id: string): Option<Resource> {
    var i := IndexOf(rs, id);
    if i < |rs| then Some(rs[i]) else None
  }

  /** The values of {r.logical_id: r for r in rs}, in insertion order: the last one wins. */
  function ById(rs: seq<Resource>): (r: seq<Resource>)
    ensures UniqueIds(r)
  {
    if rs == [] then []
    else
      var front, last := ById(rs[..|rs| - 1]), rs[|rs| - 1];
      var i := IndexOf(front, last.logicalId);
      if i < |front| then front[i := last] else front + [last]
  }

  lemma {:induction false} ByIdUnique(rs: seq<Resource>)
    requires UniqueIds(rs)
    ensures ById(rs) == rs
  {
    if rs != [] {
      ByIdUnique(rs[..|rs| - 1]);
    }
  }

  /** What the pricing engine guarantees and the diff relies on. */
  predicate UnpricedIsFree(rs: seq<Resource>) {
    forall r :: r in rs && !r.IsPriced() ==> r.monthlyCost == 0.0
  }
}
