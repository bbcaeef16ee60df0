/** Collecting the resources of a stack and of the stacks nested in it
    (src/analyzer/analyzer.py:481-623).

    Keys of different resources never clash, physical IDs belong to collected resources, and every
    existing nested stack is represented by its contents or by an explicit marker. The walk ends
    even when stacks nest in each other. */
module NestedStacks {
  import opened Templates
  import opened PropertyWalk

  datatype Summary = Summary(logicalId: string, physicalId: string, isNestedStack: bool, isPresent: bool)

  datatype TemplateResource = TemplateResource(logicalId: string, isNestedType: bool)

  /** What can be read about one stack; a template that cannot be fetched is None. */
  datatype Stack = Stack(template: Option<seq<TemplateResource>>, summaries: seq<Summary>)

  /** The readable stacks, by stack ID; a nested stack's physical ID is its stack ID. */
  type Cfn = map<string, Stack>

  datatype Config = Config(rollup: bool, maxDepth: nat)

  datatype Kind = OwnResource | ProposedContents | DepthLimit | Unreadable

  datatype Item = Item(key: string, kind: Kind)

  datatype Collected = Collected(items: seq<Item>, physicalIds: map<string, string>)

  /** The summary of this logical ID; the last one, should there be several. */
  function FindSummary(summaries: seq<Summary>, id: string): Option<Summary> {
    if summaries == [] then None
    else if summaries[|summaries| - 1].logicalId == id then Some(summaries[|summaries| - 1])
    else FindSummary(summaries[..|summaries| - 1], id)
  }

  /** The physical ID recorded for this logical ID, or "". */
  function PhysicalOf(summaries: seq<Summary>, id: string): string {
    if summaries == [] then ""
    else
      var last := summaries[|summaries| - 1];
      if last.logicalId == id && last.physicalId != "" then last.physicalId
      else PhysicalOf(summaries[..|summaries| - 1], id)
  }

  predicate IsPresent(summaries: seq<Summary>, id: string) {
    exists s :: s in summaries && s.logicalId == id && s.isPresent
  }

  /** Key of an entry that stands for what could not be collected below a nested stack. */
  function MarkerKey(prefix: string, id: string, marker: string): string {
    prefix + id + "/" + marker
  }

  // -- what each part of the walk contributes --------------------------------------------------

  predicate Counted(summaries: seq<Summary>, filter: bool, r: TemplateResource) {
    !filter || IsPresent(summaries, r.logicalId)
  }

  function OwnItems(prefix: string, template: seq<TemplateResource>, summaries: seq<Summary>, filter: bool): seq<Item> {
    if template == [] then []
    else
      var front, r := OwnItems(prefix, template[..|template| - 1], summaries, filter), template[|template| - 1];
      if Counted(summaries, filter, r) then front + [Item(prefix + r.logicalId, OwnResource)] else front
  }

  function OwnPhysical(prefix: string, template: seq<TemplateResource>, summaries: seq<Summary>, filter: bool)
    : map<string, string>
  {
    if template == [] then map[]
    else
      var front, r := OwnPhysical(prefix, template[..|template| - 1], summaries, filter), template[|template| - 1];
      var physical := PhysicalOf(summaries, r.logicalId);
      if Counted(summaries, filter, r) && physical != "" then front[prefix + r.logicalId := physical] else front
  }

  /** A nested stack that a change set proposes has no readable template yet. */
  predicate IsProposed(summaries: seq<Summary>, r: TemplateResource) {
    var s := FindSummary(summaries, r.logicalId);
    r.isNestedType && (s.None? || s.value.physicalId == "")
  }

  function ProposedItems(prefix: string, template: seq<TemplateResource>, summaries: seq<Summary>): seq<Item> {
    if template == [] then []
    else
      var front, r := ProposedItems(prefix, template[..|template| - 1], summaries), template[|template| - 1];
      if IsProposed(summaries, r)
      then front + [Item(MarkerKey(prefix, r.logicalId, "<proposed-contents>"), ProposedContents)]
      else front
  }

  function LimitItems(prefix: string, summaries: seq<Summary>): seq<Item> {
    if summaries == [] then []
    else
      var front, s := LimitItems(prefix, summaries[..|summaries| - 1]), summaries[|summaries| - 1];
      if s.isNestedStack && s.isPresent
      then front + [Item(MarkerKey(prefix, s.logicalId, "<depth-limit>"), DepthLimit)]
      else front
  }

  predicate IsWalked(s: Summary) {
    s.isNestedStack && s.isPresent && s.physicalId != ""
  }

  /** One nested stack: its contents, or a marker when it cannot be read. */
  function ChildOf(cfn: Cfn, c: Config, s: Summary, prefix: string, depth: nat, filter: bool): Collected
    requires depth < c.maxDepth
    decreases c.maxDepth - depth, 0
  {
    var child := Collect(cfn, c, s.physicalId, None, prefix + s.logicalId + "/", depth + 1, filter);
    if child.Some? then child.value
    else Collected([Item(MarkerKey(prefix, s.logicalId, "<unreadable>"), Unreadable)], map[])
  }

  function Children(cfn: Cfn, c: Config, summaries: seq<Summary>, prefix: string, depth: nat, filter: bool): Collected
    requires depth < c.maxDepth
    decreases c.maxDepth - depth, 1, |summaries|
  {
    if summaries == [] then Collected([], map[])
    else
      var front, s := Children(cfn, c, summaries[..|summaries| - 1], prefix, depth, filter), summaries[|summaries| - 1];
      if !IsWalked(s) then front
      else
        var child := ChildOf(cfn, c, s, prefix, depth, filter);
        Collected(front.items + child.items, front.physicalIds + child.physicalIds)
  }

  /** `template` is given for the proposed template of a change set, and read otherwise. */
  function Collect(cfn: Cfn, c: Config, stackId: string, template: Option<seq<TemplateResource>>,
                   prefix: string, depth: nat, filter: bool): Option<Collected>
    decreases if depth < c.maxDepth then c.maxDepth - depth else 0, 2
  {
    if stackId !in cfn then None
    else
      var t := if template.Some? then template else cfn[stackId].template;
      if t.None? then None
      else
        var summaries := cfn[stackId].summaries;
        var own := OwnItems(prefix, t.value, summaries, filter);
        var physical := OwnPhysical(prefix, t.value, summaries, filter);
        if !c.rollup then Some(Collected(own, physical))
        else
          var proposed := if filter then [] else ProposedItems(prefix, t.value, summaries);
          if depth >= c.maxDepth then Some(Collected(own + proposed + LimitItems(prefix, summaries), physical))
          else
            var children := Children(cfn, c, summaries, prefix, depth, filter);
            Some(Collected(own + proposed + children.items, physical + children.physicalIds))
  }

  // -- the code -----------------------------------------------------------------------------------

  method CollectOwn(prefix: string, template: seq<TemplateResource>, summaries: seq<Summary>, filter: bool)
    returns (items: seq<Item>, physicalIds: map<string, string>)
    ensures items == OwnItems(prefix, template, summaries, filter)
    ensures physicalIds == OwnPhysical(prefix, template, summaries, filter)
  {
    items, physicalIds := [], map[];
    for i := 0 to |template|
      invariant items == OwnItems(prefix, template[..i], summaries, filter)
      invariant physicalIds == OwnPhysical(prefix, template[..i], summaries, filter)
    {
      assert template[..i + 1][..i] == template[..i];
      var id := template[i].logicalId;
      if filter && !IsPresent(summaries, id) {
        continue;
      }
      items := items + [Item(prefix + id, OwnResource)];
      var physical := PhysicalOf(summaries, id);
      if physical != "" {
        physicalIds := physicalIds[prefix + id := physical];
      }
    }
    assert template[..|template|] == template;
  }

  method MarkProposed(prefix: string, template: seq<TemplateResource>, summaries: seq<Summary>)
      returns (items: seq<Item>)
    ensures items == ProposedItems(prefix, template, summaries)
  {
    items := [];
    for i := 0 to |template|
      invariant items == ProposedItems(prefix, template[..i], summaries)
    {
      assert template[..i + 1][..i] == template[..i];
      var r := template[i];
      var s := FindSummary(summaries, r.logicalId);
      if r.isNestedType && (s.None? || s.value.physicalId == "") {
        items := items + [Item(MarkerKey(prefix, r.logicalId, "<proposed-contents>"), ProposedContents)];
      }
    }
    assert template[..|template|] == template;
  }

  method MarkDepthLimit(prefix: string, summaries: seq<Summary>) returns (items: seq<Item>)
    ensures items == LimitItems(prefix, summaries)
  {
    items := [];
    for i := 0 to |summaries|
      invariant items == LimitItems(prefix, summaries[..i])
    {
      assert summaries[..i + 1][..i] == summaries[..i];
      if summaries[i].isNestedStack && summaries[i].isPresent {
        items := items + [Item(MarkerKey(prefix, summaries[i].logicalId, "<depth-limit>"), DepthLimit)];
      }
    }
    assert summaries[..|summaries|] == summaries;
  }

  method CollectChildren(cfn: Cfn, c: Config, summaries: seq<Summary>, prefix: string, depth: nat, filter: bool)
    returns (items: seq<Item>, physicalIds: map<string, string>)
    requires depth < c.maxDepth
    ensures Collected(items, physicalIds) == Children(cfn, c, summaries, prefix, depth, filter)
    decreases c.maxDepth - depth, 1
  {
    items, physicalIds := [], map[];
    for i := 0 to |summaries|
      invariant Collected(items, physicalIds) == Children(cfn, c, summaries[..i], prefix, depth, filter)
    {
      var s := summaries[i];
      assert summaries[..i + 1][..i] == summaries[..i];
      if !s.isNestedStack || !s.isPresent || s.physicalId == "" {
        continue;
      }
      var child := CollectStack(cfn, c, s.physicalId, None, prefix + s.logicalId + "/", depth + 1, filter);
      if child.None? {
        items := items + [Item(MarkerKey(prefix, s.logicalId, "<unreadable>"), Unreadable)];
        assert physicalIds + map[] == physicalIds;
        continue;
      }
      items, physicalIds := items + child.value.items, physicalIds + child.value.physicalIds;
    }
    assert summaries[..|summaries|] == summaries;
  }

  method CollectStack(cfn: Cfn, c: Config, stackId: string, template: Option<seq<TemplateResource>>,
                      prefix: string, depth: nat, filter: bool) returns (collected: Option<Collected>)
    ensures collected == Collect(cfn, c, stackId, template, prefix, depth, filter)
    decreases if depth < c.maxDepth then c.maxDepth - depth else 0, 2
  {
    if stackId !in cfn {
      return None;
    }
    var t := if template.Some? then template else cfn[stackId].template;
    if t.None? {
      return None;
    }
    var summaries := cfn[stackId].summaries;
    var items, physicalIds := CollectOwn(prefix, t.value, summaries, filter);
    if !c.rollup {
      return Some(Collected(items, physicalIds));
    }
    if !filter {
      var proposed := MarkProposed(prefix, t.value, summaries);
      items := items + proposed;
    } else {
      assert items + [] == items;
    }
    if depth >= c.maxDepth {
      var limit := MarkDepthLimit(prefix, summaries);
      return Some(Collected(items + limit, physicalIds));
    }
    var childItems, childPhysical := CollectChildren(cfn, c, summaries, prefix, depth, filter);
    collected := Some(Collected(items + childItems, physicalIds + childPhysical));
  }

  // -- keys are unambiguous ------------------------------------------------------------------------

  predicate PlainId(id: string) {
    '/' !in id
  }

  /** Logical IDs are plain and, within one stack, pairwise different. */
  ghost predicate GoodTemplate(t: seq<TemplateResource>) {
    && (forall i :: 0 <= i < |t| ==> PlainId(t[i].logicalId))
    && (forall i, j :: 0 <= i < j < |t| ==> t[i].logicalId != t[j].logicalId)
  }

  ghost predicate GoodSummaries(ss: seq<Summary>) {
    && (forall i :: 0 <= i < |ss| ==> PlainId(ss[i].logicalId))
    && (forall i, j :: 0 <= i < j < |ss| ==> ss[i].logicalId != ss[j].logicalId)
  }

  ghost predicate GoodCfn(cfn: Cfn) {
    forall id :: id in cfn ==>
      && GoodSummaries(cfn[id].summaries)
      && (cfn[id].template.Some? ==> GoodTemplate(cfn[id].template.value))
  }

  ghost predicate DistinctKeys(items: seq<Item>) {
    forall i, j :: 0 <= i < j < |items| ==> items[i].key != items[j].key
  }

  /** The key of something below the given child of the stack at `prefix`. */
  predicate Below(prefix: string, id: string, key: string) {
    StartsWith(key, prefix + id + "/")
  }

  /** A key directly in the stack at `prefix`. */
  predicate Direct(prefix: string, key: string) {
    StartsWith(key, prefix) && PlainId(key[|prefix|..])
  }

  lemma ChildrenApart(prefix: string, a: string, b: string, key: string)
    requires PlainId(a) && PlainId(b) && Below(prefix, a, key) && Below(prefix, b, key)
    ensures a == b
  {
    var fa, fb := prefix + a + "/", prefix + b + "/";
    var x, y := "/" + key[|fa|..], "/" + key[|fb|..];
    assert key == fa + key[|fa|..] && key == fb + key[|fb|..];
    assert key[|prefix|..] == a + x && key[|prefix|..] == b + y;
    SameToken(a, x, b, y, {'/'});
  }

  lemma BelowNotDirect(prefix: string, id: string, key: string)
    requires Below(prefix, id, key)
    ensures !Direct(prefix, key)
  {
    var f := prefix + id + "/";
    assert key == f + key[|f|..];
    assert key[|prefix|..][|id|] == '/';
  }

  lemma DistinctAppend(a: seq<Item>, b: seq<Item>)
    requires DistinctKeys(a) && DistinctKeys(b)
    requires forall x, y :: x in a && y in b ==> x.key != y.key
    ensures DistinctKeys(a + b)
  {
    forall i, j | 0 <= i < j < |a + b|
      ensures (a + b)[i].key != (a + b)[j].key
    {
      if i < |a| <= j {
        assert a[i] in a && b[j - |a|] in b;
      }
    }
  }

  lemma {:induction false} OwnDistinct(prefix: string, t: seq<TemplateResource>, summaries: seq<Summary>, filter: bool)
    requires GoodTemplate(t)
    ensures var items := OwnItems(prefix, t, summaries, filter);
            && DistinctKeys(items)
            && forall x :: x in items ==> Direct(prefix, x.key) && exists i ::
                0 <= i < |t| && x.key == prefix + t[i].logicalId
  {
    if t != [] {
      var front, r := t[..|t| - 1], t[|t| - 1];
      OwnDistinct(prefix, front, summaries, filter);
      var items, key := OwnItems(prefix, front, summaries, filter), prefix + r.logicalId;
      assert key[..|prefix|] == prefix && key[|prefix|..] == r.logicalId;
      forall x | x in items
        ensures x.key != key
      {
        var i :| 0 <= i < |front| && x.key == prefix + front[i].logicalId;
        assert x.key[|prefix|..] == t[i].logicalId;
      }
      DistinctAppend(items, [Item(key, OwnResource)]);
    }
  }

  lemma MarkerBelow(prefix: string, id: string, marker: string)
    ensures Below(prefix, id, MarkerKey(prefix, id, marker))
  {
    var f := prefix + id + "/";
    assert (f + marker)[..|f|] == f;
  }

  lemma {:induction false} ProposedDistinct(prefix: string, t: seq<TemplateResource>, summaries: seq<Summary>)
    requires GoodTemplate(t)
    ensures var items := ProposedItems(prefix, t, summaries);
            && DistinctKeys(items)
            && forall x :: x in items ==> x.kind == ProposedContents && exists i ::
                 && 0 <= i < |t| && IsProposed(summaries, t[i])
                 && x.key == MarkerKey(prefix, t[i].logicalId, "<proposed-contents>")
  {
    if t != [] {
      var front, r := t[..|t| - 1], t[|t| - 1];
      ProposedDistinct(prefix, front, summaries);
      var items, key := ProposedItems(prefix, front, summaries), MarkerKey(prefix, r.logicalId, "<proposed-contents>");
      forall x | x in items
        ensures x.key != key
        ensures exists i ::
                  && 0 <= i < |t| && IsProposed(summaries, t[i])
                  && x.key == MarkerKey(prefix, t[i].logicalId, "<proposed-contents>")
      {
        var i :| 0 <= i < |front| && IsProposed(summaries, front[i])
            && x.key == MarkerKey(prefix, front[i].logicalId, "<proposed-contents>");
        assert t[i] == front[i] && t[i].logicalId != t[|t| - 1].logicalId;
        MarkerKeys(prefix, t[i].logicalId, r.logicalId, "<proposed-contents>", "<proposed-contents>");
      }
      DistinctAppend(items, [Item(key, ProposedContents)]);
    }
  }

  /** Markers of different children, or of different kinds, differ. */
  lemma MarkerKeys(prefix: string, a: string, b: string, m: string, n: string)
    requires PlainId(a) && PlainId(b)
    ensures MarkerKey(prefix, a, m) == MarkerKey(prefix, b, n) <==> a == b && m == n
  {
    var x, y := MarkerKey(prefix, a, m), MarkerKey(prefix, b, n);
    if x == y {
      MarkerBelow(prefix, a, m);
      MarkerBelow(prefix, b, n);
      ChildrenApart(prefix, a, b, x);
      assert m == x[|prefix + a + "/"|..] && n == y[|prefix + b + "/"|..];
    }
  }

  lemma {:induction false} LimitDistinct(prefix: string, ss: seq<Summary>)
    requires GoodSummaries(ss)
    ensures var items := LimitItems(prefix, ss);
            && DistinctKeys(items)
            && forall x :: x in items ==> exists i ::
                0 <= i < |ss| && x.key == MarkerKey(prefix, ss[i].logicalId, "<depth-limit>")
  {
    if ss != [] {
      var front, s := ss[..|ss| - 1], ss[|ss| - 1];
      LimitDistinct(prefix, front);
      var items, key := LimitItems(prefix, front), MarkerKey(prefix, s.logicalId, "<depth-limit>");
      forall x | x in items
        ensures x.key != key
        ensures exists i :: 0 <= i < |ss| && x.key == MarkerKey(prefix, ss[i].logicalId, "<depth-limit>")
      {
        var i :| 0 <= i < |front| && x.key == MarkerKey(prefix, front[i].logicalId, "<depth-limit>");
        assert ss[i] == front[i] && ss[i].logicalId != ss[|ss| - 1].logicalId;
        MarkerKeys(prefix, ss[i].logicalId, s.logicalId, "<depth-limit>", "<depth-limit>");
      }
      DistinctAppend(items, [Item(key, DepthLimit)]);
    }
  }

  /** All of a collected stack's keys start with its prefix. */
  predicate UnderPrefix(prefix: string, items: seq<Item>) {
    forall x :: x in items ==> StartsWith(x.key, prefix)
  }

  lemma {:induction false} ChildrenDistinct(cfn: Cfn, c: Config, ss: seq<Summary>, prefix: string, depth: nat,
      filter: bool)
    requires GoodCfn(cfn) && GoodSummaries(ss) && depth < c.maxDepth
    ensures var items := Children(cfn, c, ss, prefix, depth, filter).items;
            && DistinctKeys(items)
            && forall x :: x in items ==> exists i ::
                0 <= i < |ss| && IsWalked(ss[i]) && Below(prefix, ss[i].logicalId, x.key)
    decreases c.maxDepth - depth, 1, |ss|
  {
    if ss != [] {
      var front, s := ss[..|ss| - 1], ss[|ss| - 1];
      ChildrenDistinct(cfn, c, front, prefix, depth, filter);
      var items := Children(cfn, c, front, prefix, depth, filter).items;
      if IsWalked(s) {
        var mine := ChildOf(cfn, c, s, prefix, depth, filter).items;
        ChildDistinct(cfn, c, s, prefix, depth, filter);
        forall x | x in items
          ensures exists i :: 0 <= i < |ss| - 1 && IsWalked(ss[i]) && Below(prefix, ss[i].logicalId, x.key)
        {
          var i :| 0 <= i < |front| && IsWalked(front[i]) && Below(prefix, front[i].logicalId, x.key);
          assert ss[i] == front[i];
        }
        forall x, y | x in items && y in mine
          ensures x.key != y.key
        {
          if x.key == y.key {
            var i :| 0 <= i < |ss| - 1 && IsWalked(ss[i]) && Below(prefix, ss[i].logicalId, x.key);
            ChildrenApart(prefix, ss[i].logicalId, s.logicalId, x.key);
          }
        }
        DistinctAppend(items, mine);
      }
    }
  }

  lemma {:induction false} ChildDistinct(cfn: Cfn, c: Config, s: Summary, prefix: string, depth: nat, filter: bool)
    requires GoodCfn(cfn) && depth < c.maxDepth
    ensures var items := ChildOf(cfn, c, s, prefix, depth, filter).items;
            DistinctKeys(items) && forall x :: x in items ==> Below(prefix, s.logicalId, x.key)
    decreases c.maxDepth - depth, 0
  {
    var child := Collect(cfn, c, s.physicalId, None, prefix + s.logicalId + "/", depth + 1, filter);
    if child.Some? {
      CollectDistinct(cfn, c, s.physicalId, None, prefix + s.logicalId + "/", depth + 1, filter);
    } else {
      MarkerBelow(prefix, s.logicalId, "<unreadable>");
    }
  }

  // -- the parts of one stack do not clash ---------------------------------------------------------

  ghost predicate Inner(prefix: string, key: string) {
    exists id :: Below(prefix, id, key)
  }

  lemma InnerUnder(prefix: string, key: string)
    requires Inner(prefix, key)
    ensures StartsWith(key, prefix) && !Direct(prefix, key)
  {
    var id :| Below(prefix, id, key);
    BelowNotDirect(prefix, id, key);
    var f := prefix + id + "/";
    assert key[..|prefix|] == key[..|f|][..|prefix|];
  }

  lemma DirectAndInner(prefix: string, direct: seq<Item>, inner: seq<Item>)
    requires DistinctKeys(direct) && DistinctKeys(inner)
    requires forall x :: x in direct ==> Direct(prefix, x.key)
    requires forall x :: x in inner ==> Inner(prefix, x.key)
    ensures DistinctKeys(direct + inner) && UnderPrefix(prefix, direct + inner)
  {
    forall x | x in inner
      ensures StartsWith(x.key, prefix) && !Direct(prefix, x.key)
    {
      InnerUnder(prefix, x.key);
    }
    DistinctAppend(direct, inner);
  }

  lemma {:induction false} FindUnique(ss: seq<Summary>, i: nat)
    requires GoodSummaries(ss) && i < |ss|
    ensures FindSummary(ss, ss[i].logicalId) == Some(ss[i])
  {
    if i < |ss| - 1 {
      FindUnique(ss[..|ss| - 1], i);
    }
  }

  lemma ProposedInner(prefix: string, t: seq<TemplateResource>, ss: seq<Summary>)
    requires GoodTemplate(t)
    ensures forall x :: x in ProposedItems(prefix, t, ss) ==> Inner(prefix, x.key)
  {
    ProposedDistinct(prefix, t, ss);
    forall x | x in ProposedItems(prefix, t, ss)
      ensures Inner(prefix, x.key)
    {
      var i :| 0 <= i < |t| && IsProposed(ss, t[i])
          && x.key == MarkerKey(prefix, t[i].logicalId, "<proposed-contents>");
      MarkerBelow(prefix, t[i].logicalId, "<proposed-contents>");
    }
  }

  lemma LimitsAfterProposed(prefix: string, t: seq<TemplateResource>, ss: seq<Summary>)
    requires GoodTemplate(t) && GoodSummaries(ss)
    ensures DistinctKeys(ProposedItems(prefix, t, ss) + LimitItems(prefix, ss))
    ensures forall x :: x in LimitItems(prefix, ss) ==> Inner(prefix, x.key)
  {
    ProposedDistinct(prefix, t, ss);
    LimitDistinct(prefix, ss);
    forall x | x in LimitItems(prefix, ss)
      ensures Inner(prefix, x.key)
      ensures forall p :: p in ProposedItems(prefix, t, ss) ==> p.key != x.key
    {
      var j :| 0 <= j < |ss| && x.key == MarkerKey(prefix, ss[j].logicalId, "<depth-limit>");
      MarkerBelow(prefix, ss[j].logicalId, "<depth-limit>");
      forall p | p in ProposedItems(prefix, t, ss)
        ensures p.key != x.key
      {
        var i :| 0 <= i < |t| && IsProposed(ss, t[i])
            && p.key == MarkerKey(prefix, t[i].logicalId, "<proposed-contents>");
        MarkerKeys(prefix, t[i].logicalId, ss[j].logicalId, "<proposed-contents>", "<depth-limit>");
      }
    }
    DistinctAppend(ProposedItems(prefix, t, ss), LimitItems(prefix, ss));
  }

  lemma ChildrenAfterProposed(cfn: Cfn, c: Config, t: seq<TemplateResource>, ss: seq<Summary>, prefix: string,
      depth: nat, filter: bool)
    requires GoodTemplate(t) && GoodSummaries(ss) && depth < c.maxDepth
    requires DistinctKeys(Children(cfn, c, ss, prefix, depth, filter).items)
    requires forall x :: x in Children(cfn, c, ss, prefix, depth, filter).items ==>
               exists i :: 0 <= i < |ss| && IsWalked(ss[i]) && Below(prefix, ss[i].logicalId, x.key)
    ensures DistinctKeys(ProposedItems(prefix, t, ss) + Children(cfn, c, ss, prefix, depth, filter).items)
    ensures forall x :: x in Children(cfn, c, ss, prefix, depth, filter).items ==> Inner(prefix, x.key)
  {
    ProposedDistinct(prefix, t, ss);
    var children := Children(cfn, c, ss, prefix, depth, filter).items;
    forall x | x in children
      ensures Inner(prefix, x.key)
      ensures forall p :: p in ProposedItems(prefix, t, ss) ==> p.key != x.key
    {
      var j :| 0 <= j < |ss| && IsWalked(ss[j]) && Below(prefix, ss[j].logicalId, x.key);
      FindUnique(ss, j);
      forall p | p in ProposedItems(prefix, t, ss)
        ensures p.key != x.key
      {
        var i :| 0 <= i < |t| && IsProposed(ss, t[i])
            && p.key == MarkerKey(prefix, t[i].logicalId, "<proposed-contents>");
        MarkerBelow(prefix, t[i].logicalId, "<proposed-contents>");
        if p.key == x.key {
          ChildrenApart(prefix, t[i].logicalId, ss[j].logicalId, x.key);
        }
      }
    }
    DistinctAppend(ProposedItems(prefix, t, ss), children);
  }

  /** Keys of different collected resources are different, and lie under the stack's prefix. */
  lemma {:induction false} CollectDistinct(cfn: Cfn, c: Config, stackId: string,
      template: Option<seq<TemplateResource>>,
                                           prefix: string, depth: nat, filter: bool)
    requires GoodCfn(cfn) && (template.Some? ==> GoodTemplate(template.value))
    requires Collect(cfn, c, stackId, template, prefix, depth, filter).Some?
    ensures var items := Collect(cfn, c, stackId, template, prefix, depth, filter).value.items;
            DistinctKeys(items) && UnderPrefix(prefix, items)
    decreases if depth < c.maxDepth then c.maxDepth - depth else 0, 2
  {
    var t := if template.Some? then template.value else cfn[stackId].template.value;
    var ss := cfn[stackId].summaries;
    var own := OwnItems(prefix, t, ss, filter);
    OwnDistinct(prefix, t, ss, filter);
    ProposedInner(prefix, t, ss);
    var proposed := ProposedItems(prefix, t, ss);
    if c.rollup && depth >= c.maxDepth {
      var limits := LimitItems(prefix, ss);
      LimitDistinct(prefix, ss);
      LimitsAfterProposed(prefix, t, ss);
      Combine(prefix, own, proposed, limits, filter);
    } else if c.rollup {
      var children := Children(cfn, c, ss, prefix, depth, filter).items;
      ChildrenDistinct(cfn, c, ss, prefix, depth, filter);
      ChildrenAfterProposed(cfn, c, t, ss, prefix, depth, filter);
      Combine(prefix, own, proposed, children, filter);
    }
  }

  lemma Combine(prefix: string, own: seq<Item>, proposed: seq<Item>, rest: seq<Item>, filter: bool)
    requires DistinctKeys(own) && DistinctKeys(rest) && DistinctKeys(proposed + rest)
    requires forall x :: x in own ==> Direct(prefix, x.key)
    requires forall x :: x in proposed || x in rest ==> Inner(prefix, x.key)
    ensures var items := own + (if filter then [] else proposed) + rest;
            DistinctKeys(items) && UnderPrefix(prefix, items)
  {
    var inner := if filter then rest else proposed + rest;
    DirectAndInner(prefix, own, inner);
    assert own + (if filter then [] else proposed) + rest == own + inner;
  }

  // -- physical IDs, and completeness ----------------------------------------------------------------

  ghost predicate HasKey(items: seq<Item>, key: string) {
    exists i :: 0 <= i < |items| && items[i].key == key
  }

  lemma HasKeyConcat(a: seq<Item>, b: seq<Item>, key: string)
    ensures HasKey(a + b, key) <==> HasKey(a, key) || HasKey(b, key)
  {
    if HasKey(a, key) {
      var i :| 0 <= i < |a| && a[i].key == key;
      assert (a + b)[i].key == key;
    } else if HasKey(b, key) {
      var i :| 0 <= i < |b| && b[i].key == key;
      assert (a + b)[|a| + i].key == key;
    }
  }

  /** Every physical ID belongs to a collected resource. */
  ghost predicate Within(items: seq<Item>, physicalIds: map<string, string>) {
    forall k :: k in physicalIds ==> HasKey(items, k)
  }

  lemma WithinConcat(a: seq<Item>, p: map<string, string>, b: seq<Item>, q: map<string, string>)
    requires Within(a, p) && Within(b, q)
    ensures Within(a + b, p + q)
  {
    forall k | k in p + q
      ensures HasKey(a + b, k)
    {
      HasKeyConcat(a, b, k);
    }
  }

  lemma {:induction false} OwnPhysicalWithin(prefix: string, t: seq<TemplateResource>, ss: seq<Summary>, filter: bool)
    ensures Within(OwnItems(prefix, t, ss, filter), OwnPhysical(prefix, t, ss, filter))
  {
    if t != [] {
      var front, r := t[..|t| - 1], t[|t| - 1];
      OwnPhysicalWithin(prefix, front, ss, filter);
      var item := Item(prefix + r.logicalId, OwnResource);
      assert HasKey([item], item.key) by {
        assert [item][0].key == item.key;
      }
      var items, physical := OwnItems(prefix, front, ss, filter), OwnPhysical(prefix, front, ss, filter);
      var found := PhysicalOf(ss, r.logicalId);
      if Counted(ss, filter, r) {
        if found != "" {
          WithinConcat(items, physical, [item], map[item.key := found]);
          assert physical + map[item.key := found] == physical[item.key := found];
        } else {
          WithinConcat(items, physical, [item], map[]);
          assert physical + map[] == physical;
        }
      }
    }
  }

  lemma {:induction false} ChildrenPhysicalWithin(cfn: Cfn, c: Config, ss: seq<Summary>, prefix: string, depth: nat,
      filter: bool)
    requires depth < c.maxDepth
    ensures Within(Children(cfn, c, ss, prefix, depth, filter).items,
        Children(cfn, c, ss, prefix, depth, filter).physicalIds)
    decreases c.maxDepth - depth, 1, |ss|
  {
    if ss != [] {
      var front, s := ss[..|ss| - 1], ss[|ss| - 1];
      ChildrenPhysicalWithin(cfn, c, front, prefix, depth, filter);
      if IsWalked(s) {
        var before, child := Children(cfn, c, front, prefix, depth, filter), ChildOf(cfn, c, s, prefix, depth, filter);
        if Collect(cfn, c, s.physicalId, None, prefix + s.logicalId + "/", depth + 1, filter).Some? {
          PhysicalIdsWithin(cfn, c, s.physicalId, None, prefix + s.logicalId + "/", depth + 1, filter);
        }
        WithinConcat(before.items, before.physicalIds, child.items, child.physicalIds);
      }
    }
  }

  lemma {:induction false} PhysicalIdsWithin(cfn: Cfn, c: Config, stackId: string,
      template: Option<seq<TemplateResource>>,
                                             prefix: string, depth: nat, filter: bool)
    requires Collect(cfn, c, stackId, template, prefix, depth, filter).Some?
    ensures var r := Collect(cfn, c, stackId, template, prefix, depth, filter).value;
            Within(r.items, r.physicalIds)
    decreases if depth < c.maxDepth then c.maxDepth - depth else 0, 2
  {
    var t := if template.Some? then template.value else cfn[stackId].template.value;
    var ss := cfn[stackId].summaries;
    var own, physical := OwnItems(prefix, t, ss, filter), OwnPhysical(prefix, t, ss, filter);
    OwnPhysicalWithin(prefix, t, ss, filter);
    if c.rollup {
      var proposed := if filter then [] else ProposedItems(prefix, t, ss);
      WithinConcat(own, physical, proposed, map[]);
      assert physical + map[] == physical;
      if depth >= c.maxDepth {
        WithinConcat(own + proposed, physical, LimitItems(prefix, ss), map[]);
      } else {
        var children := Children(cfn, c, ss, prefix, depth, filter);
        ChildrenPhysicalWithin(cfn, c, ss, prefix, depth, filter);
        WithinConcat(own + proposed, physical, children.items, children.physicalIds);
      }
    }
  }

  lemma {:induction false} LimitMarks(prefix: string, ss: seq<Summary>, i: nat)
    requires i < |ss| && ss[i].isNestedStack && ss[i].isPresent
    ensures Item(MarkerKey(prefix, ss[i].logicalId, "<depth-limit>"), DepthLimit) in LimitItems(prefix, ss)
    decreases |ss|
  {
    if i < |ss| - 1 {
      LimitMarks(prefix, ss[..|ss| - 1], i);
    }
  }

  lemma {:induction false} ChildIncluded(cfn: Cfn, c: Config, ss: seq<Summary>, prefix: string, depth: nat,
      filter: bool, i: nat)
    requires depth < c.maxDepth && i < |ss| && IsWalked(ss[i])
    ensures forall x :: x in ChildOf(cfn, c, ss[i], prefix, depth, filter).items ==>
              x in Children(cfn, c, ss, prefix, depth, filter).items
    decreases |ss|
  {
    if i < |ss| - 1 {
      ChildIncluded(cfn, c, ss[..|ss| - 1], prefix, depth, filter, i);
    }
  }

  /** Every existing nested stack with a physical ID is represented: by all of its own collection,
      or by a marker saying that it was too deep or could not be read. */
  lemma NothingOmitted(cfn: Cfn, c: Config, stackId: string, template: Option<seq<TemplateResource>>,
                       prefix: string, depth: nat, filter: bool, i: nat)
    requires Collect(cfn, c, stackId, template, prefix, depth, filter).Some? && c.rollup
    requires i < |cfn[stackId].summaries| && IsWalked(cfn[stackId].summaries[i])
    ensures var items, s := Collect(cfn, c, stackId, template, prefix, depth, filter).value.items,
        cfn[stackId].summaries[i];
            if depth >= c.maxDepth then Item(MarkerKey(prefix, s.logicalId, "<depth-limit>"), DepthLimit) in items
            else
              var child := Collect(cfn, c, s.physicalId, None, prefix + s.logicalId + "/", depth + 1, filter);
              if child.Some? then forall x :: x in child.value.items ==> x in items
              else Item(MarkerKey(prefix, s.logicalId, "<unreadable>"), Unreadable) in items
  {
    var ss := cfn[stackId].summaries;
    if depth >= c.maxDepth {
      LimitMarks(prefix, ss, i);
    } else {
      ChildIncluded(cfn, c, ss, prefix, depth, filter, i);
    }
  }
}
