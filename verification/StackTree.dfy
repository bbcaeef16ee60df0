/** What the nested walk collects, described by chains of nested stacks instead of by the walk
    (src/analyzer/analyzer.py:481-623): exactly the declared and existing resources at the end of every
    chain of present, readable nested stacks within the depth limit, and a marker wherever a chain
    stops short; and for each resource the physical ID that is recorded for it. */
module StackTree {
  import opened Templates
  import opened NestedStacks

  function PathKey(path: seq<string>): string {
    if path == [] then "" else path[0] + "/" + PathKey(path[1..])
  }

  /** The key of something called `tail` in the stack at the end of the path. */
  predicate Spells(key: string, prefix: string, path: seq<string>, tail: string) {
    key == prefix + PathKey(path) + tail
  }

  ghost predicate Declares(t: seq<TemplateResource>, id: string) {
    exists r :: r in t && r.logicalId == id
  }

  ghost predicate DeclaresNested(t: seq<TemplateResource>, id: string) {
    exists r :: r in t && r.logicalId == id && r.isNestedType
  }

  ghost predicate Exists(ss: seq<Summary>, id: string) {
    exists s :: s in ss && s.logicalId == id && s.isPresent
  }

  ghost predicate Recorded(ss: seq<Summary>, id: string, physical: string) {
    physical != "" && exists s :: s in ss && s.logicalId == id && s.physicalId == physical
  }

  predicate Readable(cfn: Cfn, stackId: string) {
    stackId in cfn && cfn[stackId].template.Some?
  }

  /** A nested stack that exists and is identified. */
  predicate IsLink(s: Summary) {
    s.isNestedStack && s.isPresent && s.physicalId != ""
  }

  ghost predicate Collectable(t: seq<TemplateResource>, ss: seq<Summary>, filter: bool, id: string) {
    Declares(t, id) && (filter ==> Exists(ss, id))
  }

  // The four kinds of entry of one stack, by what follows the stack's own prefix.

  ghost predicate IsProposedTail(t: seq<TemplateResource>, ss: seq<Summary>, tail: string) {
    exists id :: tail == id + "/<proposed-contents>" && DeclaresNested(t, id) && forall p :: !Recorded(ss, id, p)
  }

  ghost predicate IsLimitTail(ss: seq<Summary>, tail: string) {
    exists s :: s in ss && s.isNestedStack && s.isPresent && tail == s.logicalId + "/<depth-limit>"
  }

  ghost predicate IsUnreadableTail(cfn: Cfn, ss: seq<Summary>, tail: string) {
    exists s :: s in ss && IsLink(s) && !Readable(cfn, s.physicalId) && tail == s.logicalId + "/<unreadable>"
  }

  ghost predicate EntryHere(cfn: Cfn, c: Config, ss: seq<Summary>, t: seq<TemplateResource>, filter: bool,
                            levels: nat, tail: string, kind: Kind)
  {
    match kind
    case OwnResource => Collectable(t, ss, filter, tail)
    case ProposedContents => c.rollup && !filter && IsProposedTail(t, ss, tail)
    case DepthLimit => c.rollup && levels == 0 && IsLimitTail(ss, tail)
    case Unreadable => c.rollup && levels > 0 && IsUnreadableTail(cfn, ss, tail)
  }

  /** An entry at the end of a chain of nested stacks, each named by its logical ID in the one above. */
  ghost predicate EntryAt(cfn: Cfn, c: Config, stackId: string, t: seq<TemplateResource>, filter: bool,
                          levels: nat, path: seq<string>, tail: string, kind: Kind)
    requires stackId in cfn
    decreases |path|
  {
    var ss := cfn[stackId].summaries;
    if path == [] then EntryHere(cfn, c, ss, t, filter, levels, tail, kind)
    else
      && c.rollup && levels > 0
      && exists s :: s in ss && s.logicalId == path[0] && IsLink(s) && Readable(cfn, s.physicalId)
                     && EntryAt(cfn, c, s.physicalId, cfn[s.physicalId].template.value, filter, levels - 1, path[1..],
                         tail, kind)
  }

  ghost predicate Described(cfn: Cfn, c: Config, stackId: string, t: seq<TemplateResource>, filter: bool,
                            levels: nat, prefix: string, item: Item)
    requires stackId in cfn
  {
    exists path, tail :: Spells(item.key, prefix, path, tail)
                         && EntryAt(cfn, c, stackId, t, filter, levels, path, tail, item.kind)
  }

  // -- one stack ---------------------------------------------------------------------------------

  lemma {:induction false} OwnIff(prefix: string, t: seq<TemplateResource>, ss: seq<Summary>, filter: bool, item: Item)
    ensures item in OwnItems(prefix, t, ss, filter) <==>
            item.kind == OwnResource && exists id :: item.key == prefix + id && Collectable(t, ss, filter, id)
  {
    if t != [] {
      var front, r := t[..|t| - 1], t[|t| - 1];
      OwnIff(prefix, front, ss, filter, item);
      assert forall x :: x in t <==> x in front || x == r;
      assert forall id :: Declares(t, id) <==> Declares(front, id) || id == r.logicalId;
      assert IsPresent(ss, r.logicalId) <==> Exists(ss, r.logicalId);
      if item == Item(prefix + r.logicalId, OwnResource) && Counted(ss, filter, r) {
        assert Collectable(t, ss, filter, r.logicalId);
      }
    }
  }

  lemma {:induction false} FoundSummary(ss: seq<Summary>, id: string)
    requires GoodSummaries(ss)
    ensures var found := FindSummary(ss, id);
            (found.None? || found.value.physicalId == "") <==> forall p :: !Recorded(ss, id, p)
    ensures FindSummary(ss, id).Some? ==> FindSummary(ss, id).value in ss && FindSummary(ss, id).value.logicalId == id
    ensures FindSummary(ss, id).None? ==> forall s :: s in ss ==> s.logicalId != id
  {
    if ss != [] {
      var n := |ss| - 1;
      var front, last := ss[..n], ss[n];
      FoundSummary(front, id);
      assert forall s :: s in ss <==> s in front || s == last;
      if last.logicalId == id {
        forall s | s in front
          ensures s.logicalId != id
        {
          var i :| 0 <= i < n && front[i] == s;
          assert ss[i] == s;
        }
        assert last.physicalId != "" ==> Recorded(ss, id, last.physicalId);
      } else {
        assert forall p :: Recorded(ss, id, p) <==> Recorded(front, id, p);
      }
    }
  }

  lemma MarkerTail(prefix: string, id: string, marker: string)
    ensures MarkerKey(prefix, id, marker) == prefix + (id + "/" + marker)
    ensures "/" + "<proposed-contents>" == "/<proposed-contents>" && "/" + "<depth-limit>" == "/<depth-limit>"
    ensures "/" + "<unreadable>" == "/<unreadable>"
    ensures id + "/" + marker == id + ("/" + marker)
  {
  }

  lemma {:induction false} ProposedIff(prefix: string, t: seq<TemplateResource>, ss: seq<Summary>, item: Item)
    requires GoodSummaries(ss)
    ensures item in ProposedItems(prefix, t, ss) <==>
            item.kind == ProposedContents && exists tail :: item.key == prefix + tail && IsProposedTail(t, ss, tail)
  {
    if t != [] {
      var front, r := t[..|t| - 1], t[|t| - 1];
      ProposedIff(prefix, front, ss, item);
      FoundSummary(ss, r.logicalId);
      MarkerTail(prefix, r.logicalId, "<proposed-contents>");
      ProposedTails(t, ss);
      var tail := r.logicalId + "/<proposed-contents>";
      assert MarkerKey(prefix, r.logicalId, "<proposed-contents>") == prefix + tail;
    }
  }

  lemma ProposedTails(t: seq<TemplateResource>, ss: seq<Summary>)
    requires t != []
    ensures var front, r := t[..|t| - 1], t[|t| - 1];
            forall tail :: IsProposedTail(t, ss, tail) <==>
              || IsProposedTail(front, ss, tail)
              || (r.isNestedType && tail == r.logicalId + "/<proposed-contents>" && forall p ::
                  !Recorded(ss, r.logicalId, p))
  {
    var front, r := t[..|t| - 1], t[|t| - 1];
    assert forall x :: x in t <==> x in front || x == r;
    assert forall id :: DeclaresNested(t, id) <==> DeclaresNested(front, id) || (r.isNestedType && id == r.logicalId);
  }

  lemma {:induction false} LimitIff(prefix: string, ss: seq<Summary>, item: Item)
    ensures item in LimitItems(prefix, ss) <==>
            item.kind == DepthLimit && exists tail :: item.key == prefix + tail && IsLimitTail(ss, tail)
  {
    if ss != [] {
      var front, s := ss[..|ss| - 1], ss[|ss| - 1];
      LimitIff(prefix, front, item);
      assert forall x :: x in ss <==> x in front || x == s;
      MarkerTail(prefix, s.logicalId, "<depth-limit>");
      var tail := s.logicalId + "/<depth-limit>";
      assert MarkerKey(prefix, s.logicalId, "<depth-limit>") == prefix + tail;
      assert forall x :: IsLimitTail(ss, x) <==> IsLimitTail(front, x) || (s.isNestedStack && s.isPresent && x == tail);
    }
  }

  // -- the whole tree ------------------------------------------------------------------------------

  ghost predicate FromChild(cfn: Cfn, c: Config, ss: seq<Summary>, prefix: string, depth: nat, filter: bool, item: Item)
    requires depth < c.maxDepth
  {
    exists s :: s in ss && IsLink(s) && item in ChildOf(cfn, c, s, prefix, depth, filter).items
  }

  lemma {:induction false} ChildrenIff(cfn: Cfn, c: Config, ss: seq<Summary>, prefix: string, depth: nat,
      filter: bool, item: Item)
    requires depth < c.maxDepth
    ensures item in Children(cfn, c, ss, prefix, depth, filter).items <==>
        FromChild(cfn, c, ss, prefix, depth, filter, item)
    decreases |ss|
  {
    if ss != [] {
      var front, s := ss[..|ss| - 1], ss[|ss| - 1];
      ChildrenIff(cfn, c, front, prefix, depth, filter, item);
      assert forall x :: x in ss <==> x in front || x == s;
    }
  }

  lemma CollectIff(cfn: Cfn, c: Config, stackId: string, prefix: string, depth: nat, filter: bool)
    ensures Collect(cfn, c, stackId, None, prefix, depth, filter).Some? <==> Readable(cfn, stackId)
  {
  }

  lemma PathSteps(prefix: string, id: string, path: seq<string>, tail: string)
    ensures prefix + PathKey([id] + path) + tail == (prefix + id + "/") + PathKey(path) + tail
  {
    assert ([id] + path)[1..] == path;
    assert prefix + (id + "/" + PathKey(path)) == (prefix + id + "/") + PathKey(path);
  }

  /** Exactly the described entries are collected. */
  lemma {:induction false} CollectedIff(cfn: Cfn, c: Config, stackId: string, template: Option<seq<TemplateResource>>,
                                        prefix: string, depth: nat, filter: bool, item: Item)
    requires GoodCfn(cfn) && depth <= c.maxDepth
    requires Collect(cfn, c, stackId, template, prefix, depth, filter).Some?
    ensures var t := if template.Some? then template.value else cfn[stackId].template.value;
            item in Collect(cfn, c, stackId, template, prefix, depth, filter).value.items <==>
            Described(cfn, c, stackId, t, filter, c.maxDepth - depth, prefix, item)
    decreases c.maxDepth - depth
  {
    var t := if template.Some? then template.value else cfn[stackId].template.value;
    var ss, levels := cfn[stackId].summaries, c.maxDepth - depth;
    OwnIff(prefix, t, ss, filter, item);
    ProposedIff(prefix, t, ss, item);
    LimitIff(prefix, ss, item);
    DescribedSplit(cfn, c, stackId, t, filter, levels, prefix, item);
    if c.rollup && depth < c.maxDepth {
      ChildrenIff(cfn, c, ss, prefix, depth, filter, item);
      forall s | s in ss && IsLink(s)
        ensures item in ChildOf(cfn, c, s, prefix, depth, filter).items <==>
                DescribedBelow(cfn, c, s, filter, levels, prefix, item)
      {
        CollectIff(cfn, c, s.physicalId, prefix + s.logicalId + "/", depth + 1, filter);
        if Readable(cfn, s.physicalId) {
          CollectedIff(cfn, c, s.physicalId, None, prefix + s.logicalId + "/", depth + 1, filter, item);
        } else {
          MarkerTail(prefix, s.logicalId, "<unreadable>");
        }
      }
    }
  }

  /** An entry below one nested stack: one of the child's own, or the marker for an unreadable child. */
  ghost predicate DescribedBelow(cfn: Cfn, c: Config, s: Summary, filter: bool, levels: nat, prefix: string, item: Item)
    requires levels > 0
  {
    if Readable(cfn, s.physicalId)
    then Described(cfn, c, s.physicalId, cfn[s.physicalId].template.value, filter, levels - 1,
        prefix + s.logicalId + "/", item)
    else item == Item(prefix + (s.logicalId + "/<unreadable>"), Unreadable)
  }

  ghost predicate DescribedHere(cfn: Cfn, c: Config, ss: seq<Summary>, t: seq<TemplateResource>, filter: bool,
                                levels: nat, prefix: string, item: Item)
  {
    exists tail :: item.key == prefix + tail && EntryHere(cfn, c, ss, t, filter, levels, tail, item.kind)
  }

  lemma DescribedSplit(cfn: Cfn, c: Config, stackId: string, t: seq<TemplateResource>, filter: bool,
                       levels: nat, prefix: string, item: Item)
    requires stackId in cfn
    ensures var ss := cfn[stackId].summaries;
            Described(cfn, c, stackId, t, filter, levels, prefix, item) <==>
            || (item.kind != Unreadable && DescribedHere(cfn, c, ss, t, filter, levels, prefix, item))
            || (c.rollup && levels > 0 && exists s ::
                s in ss && IsLink(s) && DescribedBelow(cfn, c, s, filter, levels, prefix, item))
  {
    var ss := cfn[stackId].summaries;
    if Described(cfn, c, stackId, t, filter, levels, prefix, item) {
      var path, tail :| Spells(item.key, prefix, path, tail)
                        && EntryAt(cfn, c, stackId, t, filter, levels, path, tail, item.kind);
      if path == [] {
        assert item.key == prefix + tail;
        if item.kind == Unreadable {
          var s :| s in ss && IsLink(s) && !Readable(cfn, s.physicalId) && tail == s.logicalId + "/<unreadable>";
          assert DescribedBelow(cfn, c, s, filter, levels, prefix, item);
        }
      } else {
        var s :| s in ss && s.logicalId == path[0] && IsLink(s) && Readable(cfn, s.physicalId)
                 && EntryAt(cfn, c, s.physicalId, cfn[s.physicalId].template.value, filter, levels - 1, path[1..],
                     tail, item.kind);
        assert [path[0]] + path[1..] == path;
        PathSteps(prefix, path[0], path[1..], tail);
        assert Spells(item.key, prefix + s.logicalId + "/", path[1..], tail);
        assert DescribedBelow(cfn, c, s, filter, levels, prefix, item);
      }
    }
    if item.kind != Unreadable && DescribedHere(cfn, c, ss, t, filter, levels, prefix, item) {
      var tail :| item.key == prefix + tail && EntryHere(cfn, c, ss, t, filter, levels, tail, item.kind);
      assert Spells(item.key, prefix, [], tail);
      assert EntryAt(cfn, c, stackId, t, filter, levels, [], tail, item.kind);
    }
    if c.rollup && levels > 0 {
      forall s | s in ss && IsLink(s) && DescribedBelow(cfn, c, s, filter, levels, prefix, item)
        ensures Described(cfn, c, stackId, t, filter, levels, prefix, item)
      {
        BelowIsDescribed(cfn, c, stackId, t, filter, levels, prefix, item, s);
      }
    }
  }

  lemma BelowIsDescribed(cfn: Cfn, c: Config, stackId: string, t: seq<TemplateResource>, filter: bool,
                         levels: nat, prefix: string, item: Item, s: Summary)
    requires stackId in cfn && c.rollup && levels > 0 && s in cfn[stackId].summaries && IsLink(s)
    requires DescribedBelow(cfn, c, s, filter, levels, prefix, item)
    ensures Described(cfn, c, stackId, t, filter, levels, prefix, item)
  {
    if Readable(cfn, s.physicalId) {
      var inner := cfn[s.physicalId].template.value;
      var path, tail :| Spells(item.key, prefix + s.logicalId + "/", path, tail)
                        && EntryAt(cfn, c, s.physicalId, inner, filter, levels - 1, path, tail, item.kind);
      var whole := [s.logicalId] + path;
      PathSteps(prefix, s.logicalId, path, tail);
      assert whole[0] == s.logicalId && whole[1..] == path;
      assert Spells(item.key, prefix, whole, tail);
      assert EntryAt(cfn, c, stackId, t, filter, levels, whole, tail, item.kind);
    } else {
      var tail := s.logicalId + "/<unreadable>";
      assert IsUnreadableTail(cfn, cfn[stackId].summaries, tail);
      assert Spells(item.key, prefix, [], tail);
      assert EntryAt(cfn, c, stackId, t, filter, levels, [], tail, item.kind);
    }
  }

  /** In one stack: what is directly under the prefix is what the template declares and, when only
      existing resources count, what exists. */
  lemma OwnResourceIff(cfn: Cfn, c: Config, stackId: string, template: Option<seq<TemplateResource>>,
                       prefix: string, depth: nat, filter: bool, id: string)
    requires GoodCfn(cfn) && depth <= c.maxDepth && PlainId(id)
    requires Collect(cfn, c, stackId, template, prefix, depth, filter).Some?
    ensures var t := if template.Some? then template.value else cfn[stackId].template.value;
            Item(prefix + id, OwnResource) in Collect(cfn, c, stackId, template, prefix, depth, filter).value.items <==>
            Declares(t, id) && (filter ==> Exists(cfn[stackId].summaries, id))
  {
    var t := if template.Some? then template.value else cfn[stackId].template.value;
    var item, levels := Item(prefix + id, OwnResource), c.maxDepth - depth;
    CollectedIff(cfn, c, stackId, template, prefix, depth, filter, item);
    if Described(cfn, c, stackId, t, filter, levels, prefix, item) {
      var path, tail :| Spells(item.key, prefix, path, tail)
                        && EntryAt(cfn, c, stackId, t, filter, levels, path, tail, item.kind);
      PlainIsDirect(prefix, path, tail, id);
    }
    if Collectable(t, cfn[stackId].summaries, filter, id) {
      assert Spells(item.key, prefix, [], id);
      assert EntryAt(cfn, c, stackId, t, filter, levels, [], id, OwnResource);
    }
  }

  lemma PlainIsDirect(prefix: string, path: seq<string>, tail: string, id: string)
    requires PlainId(id) && prefix + PathKey(path) + tail == prefix + id
    ensures path == [] && tail == id
  {
    var rest := PathKey(path) + tail;
    assert prefix + PathKey(path) + tail == prefix + rest;
    assert rest == (prefix + rest)[|prefix|..] && id == (prefix + id)[|prefix|..];
    if path != [] {
      HasSlash(path, tail);
    }
  }

  lemma HasSlash(path: seq<string>, tail: string)
    requires path != []
    ensures !PlainId(PathKey(path) + tail)
  {
    assert (PathKey(path) + tail)[|path[0]|] == '/';
  }

  // -- physical IDs --------------------------------------------------------------------------------

  /** A collected resource at the end of a chain, and the physical ID recorded for it there. */
  ghost predicate RecordedAt(cfn: Cfn, c: Config, stackId: string, t: seq<TemplateResource>, filter: bool,
                             levels: nat, path: seq<string>, id: string, physical: string)
    requires stackId in cfn
    decreases |path|
  {
    var ss := cfn[stackId].summaries;
    if path == [] then Collectable(t, ss, filter, id) && Recorded(ss, id, physical)
    else
      && c.rollup && levels > 0
      && exists s :: s in ss && s.logicalId == path[0] && IsLink(s) && Readable(cfn, s.physicalId)
                     && RecordedAt(cfn, c, s.physicalId, cfn[s.physicalId].template.value, filter, levels - 1,
                                   path[1..], id, physical)
  }

  ghost predicate PhysicalDescribed(cfn: Cfn, c: Config, stackId: string, t: seq<TemplateResource>, filter: bool,
                                    levels: nat, prefix: string, key: string, physical: string)
    requires stackId in cfn
  {
    exists path, id :: Spells(key, prefix, path, id)
                       && RecordedAt(cfn, c, stackId, t, filter, levels, path, id, physical)
  }

  predicate Maps(m: map<string, string>, key: string, physical: string) {
    key in m && m[key] == physical
  }

  lemma MapsUnion(a: map<string, string>, b: map<string, string>, key: string, physical: string)
    requires key in a ==> key !in b
    ensures Maps(a + b, key, physical) <==> Maps(a, key, physical) || Maps(b, key, physical)
  {
  }

  lemma RecordedOnce(ss: seq<Summary>, id: string, p: string, q: string)
    requires GoodSummaries(ss) && Recorded(ss, id, p) && Recorded(ss, id, q)
    ensures p == q
  {
    var a :| a in ss && a.logicalId == id && a.physicalId == p;
    var b :| b in ss && b.logicalId == id && b.physicalId == q;
    var i :| 0 <= i < |ss| && ss[i] == a;
    var j :| 0 <= j < |ss| && ss[j] == b;
    assert i == j;
  }

  lemma {:induction false} PhysicalOfIs(ss: seq<Summary>, id: string)
    ensures PhysicalOf(ss, id) != "" ==> Recorded(ss, id, PhysicalOf(ss, id))
    ensures PhysicalOf(ss, id) == "" ==> forall p :: !Recorded(ss, id, p)
  {
    if ss != [] {
      var front, last := ss[..|ss| - 1], ss[|ss| - 1];
      PhysicalOfIs(front, id);
      assert forall s :: s in ss <==> s in front || s == last;
      forall p | Recorded(ss, id, p)
        ensures Recorded(front, id, p) || (last.logicalId == id && last.physicalId == p)
      {
        var s :| s in ss && s.logicalId == id && s.physicalId == p;
        assert s in front || s == last;
      }
      if PhysicalOf(ss, id) != "" && !(last.logicalId == id && last.physicalId != "") {
        var s :| s in front && s.logicalId == id && s.physicalId == PhysicalOf(front, id);
        assert s in ss;
      }
    }
  }

  lemma {:induction false} OwnPhysicalIff(prefix: string, t: seq<TemplateResource>, ss: seq<Summary>, filter: bool,
                                          key: string, physical: string)
    requires GoodSummaries(ss)
    ensures Maps(OwnPhysical(prefix, t, ss, filter), key, physical) <==>
            exists id :: key == prefix + id && Collectable(t, ss, filter, id) && Recorded(ss, id, physical)
  {
    if t != [] {
      var front, r := t[..|t| - 1], t[|t| - 1];
      OwnPhysicalIff(prefix, front, ss, filter, key, physical);
      assert forall x :: x in t <==> x in front || x == r;
      assert forall id :: Declares(t, id) <==> Declares(front, id) || id == r.logicalId;
      assert IsPresent(ss, r.logicalId) <==> Exists(ss, r.logicalId);
      PhysicalOfIs(ss, r.logicalId);
      if key == prefix + r.logicalId {
        forall id | key == prefix + id
          ensures id == r.logicalId
        {
          assert id == key[|prefix|..] && r.logicalId == key[|prefix|..];
        }
        if Recorded(ss, r.logicalId, physical) {
          RecordedOnce(ss, r.logicalId, physical, PhysicalOf(ss, r.logicalId));
        }
      }
    }
  }

  lemma ChildKeysBelow(cfn: Cfn, c: Config, s: Summary, prefix: string, depth: nat, filter: bool, key: string)
    requires GoodCfn(cfn) && depth < c.maxDepth && key in ChildOf(cfn, c, s, prefix, depth, filter).physicalIds
    ensures Below(prefix, s.logicalId, key)
  {
    ChildDistinct(cfn, c, s, prefix, depth, filter);
    PhysicalIdsWithin(cfn, c, s.physicalId, None, prefix + s.logicalId + "/", depth + 1, filter);
    var items := ChildOf(cfn, c, s, prefix, depth, filter).items;
    assert NestedStacks.HasKey(items, key);
    var i :| 0 <= i < |items| && items[i].key == key;
    assert items[i] in items;
  }

  ghost predicate PhysicalFromChild(cfn: Cfn, c: Config, ss: seq<Summary>, prefix: string, depth: nat, filter: bool,
                                    key: string, physical: string)
    requires depth < c.maxDepth
  {
    exists s :: s in ss && IsLink(s) && Maps(ChildOf(cfn, c, s, prefix, depth, filter).physicalIds, key, physical)
  }

  lemma {:induction false} ChildrenPhysicalIff(cfn: Cfn, c: Config, ss: seq<Summary>, prefix: string, depth: nat,
                                               filter: bool, key: string, physical: string)
    requires GoodCfn(cfn) && GoodSummaries(ss) && depth < c.maxDepth
    ensures Maps(Children(cfn, c, ss, prefix, depth, filter).physicalIds, key, physical) <==>
            PhysicalFromChild(cfn, c, ss, prefix, depth, filter, key, physical)
    ensures key in Children(cfn, c, ss, prefix, depth, filter).physicalIds ==>
            exists s :: s in ss && Below(prefix, s.logicalId, key)
    decreases |ss|
  {
    if ss != [] {
      var n := |ss| - 1;
      var front, s := ss[..n], ss[n];
      ChildrenPhysicalIff(cfn, c, front, prefix, depth, filter, key, physical);
      assert forall x :: x in ss <==> x in front || x == s;
      if IsWalked(s) {
        var before, child := Children(cfn, c, front, prefix, depth, filter), ChildOf(cfn, c, s, prefix, depth, filter);
        if key in child.physicalIds {
          ChildKeysBelow(cfn, c, s, prefix, depth, filter, key);
          if key in before.physicalIds {
            var x :| x in front && Below(prefix, x.logicalId, key);
            var i :| 0 <= i < n && front[i] == x;
            assert ss[i] == x;
            ChildrenApart(prefix, x.logicalId, s.logicalId, key);
            assert false;
          }
        }
        MapsUnion(before.physicalIds, child.physicalIds, key, physical);
      }
    }
  }

  /** The recorded physical IDs are exactly those of the described resources, under their keys. */
  lemma {:induction false} PhysicalIdsIff(cfn: Cfn, c: Config, stackId: string, template: Option<seq<TemplateResource>>,
                                          prefix: string, depth: nat, filter: bool, key: string, physical: string)
    requires GoodCfn(cfn) && depth <= c.maxDepth && (template.Some? ==> GoodTemplate(template.value))
    requires Collect(cfn, c, stackId, template, prefix, depth, filter).Some?
    ensures var t := if template.Some? then template.value else cfn[stackId].template.value;
            Maps(Collect(cfn, c, stackId, template, prefix, depth, filter).value.physicalIds, key, physical) <==>
            PhysicalDescribed(cfn, c, stackId, t, filter, c.maxDepth - depth, prefix, key, physical)
    decreases c.maxDepth - depth
  {
    var t := if template.Some? then template.value else cfn[stackId].template.value;
    var ss, levels := cfn[stackId].summaries, c.maxDepth - depth;
    OwnPhysicalIff(prefix, t, ss, filter, key, physical);
    PhysicalSplit(cfn, c, stackId, t, filter, levels, prefix, key, physical);
    if c.rollup && depth < c.maxDepth {
      var own, children := OwnPhysical(prefix, t, ss, filter), Children(cfn, c, ss, prefix, depth, filter).physicalIds;
      ChildrenPhysicalIff(cfn, c, ss, prefix, depth, filter, key, physical);
      if key in own && key in children {
        OwnKeysDirect(prefix, t, ss, filter, key);
        var s :| s in ss && Below(prefix, s.logicalId, key);
        BelowNotDirect(prefix, s.logicalId, key);
        assert false;
      }
      MapsUnion(own, children, key, physical);
      forall s | s in ss && IsLink(s)
        ensures Maps(ChildOf(cfn, c, s, prefix, depth, filter).physicalIds, key, physical) <==>
                PhysicalBelow(cfn, c, s, filter, levels, prefix, key, physical)
      {
        CollectIff(cfn, c, s.physicalId, prefix + s.logicalId + "/", depth + 1, filter);
        if Readable(cfn, s.physicalId) {
          PhysicalIdsIff(cfn, c, s.physicalId, None, prefix + s.logicalId + "/", depth + 1, filter, key, physical);
        }
      }
    }
  }

  lemma {:induction false} OwnKeysDirect(prefix: string, t: seq<TemplateResource>, ss: seq<Summary>, filter: bool,
      key: string)
    requires GoodTemplate(t) && key in OwnPhysical(prefix, t, ss, filter)
    ensures Direct(prefix, key)
  {
    var front, r := t[..|t| - 1], t[|t| - 1];
    if key == prefix + r.logicalId {
      assert key[|prefix|..] == r.logicalId && key[..|prefix|] == prefix;
    } else {
      OwnKeysDirect(prefix, front, ss, filter, key);
    }
  }

  ghost predicate PhysicalBelow(cfn: Cfn, c: Config, s: Summary, filter: bool, levels: nat, prefix: string,
                                key: string, physical: string)
    requires levels > 0
  {
    Readable(cfn, s.physicalId)
    && PhysicalDescribed(cfn, c, s.physicalId, cfn[s.physicalId].template.value, filter, levels - 1,
                         prefix + s.logicalId + "/", key, physical)
  }

  lemma PhysicalSplit(cfn: Cfn, c: Config, stackId: string, t: seq<TemplateResource>, filter: bool,
                      levels: nat, prefix: string, key: string, physical: string)
    requires stackId in cfn
    ensures var ss := cfn[stackId].summaries;
            PhysicalDescribed(cfn, c, stackId, t, filter, levels, prefix, key, physical) <==>
            || (exists id :: key == prefix + id && Collectable(t, ss, filter, id) && Recorded(ss, id, physical))
            || (c.rollup && levels > 0
                && exists s :: s in ss && IsLink(s) && PhysicalBelow(cfn, c, s, filter, levels, prefix, key, physical))
  {
    var ss := cfn[stackId].summaries;
    if PhysicalDescribed(cfn, c, stackId, t, filter, levels, prefix, key, physical) {
      var path, id :| Spells(key, prefix, path, id)
                      && RecordedAt(cfn, c, stackId, t, filter, levels, path, id, physical);
      if path == [] {
        assert key == prefix + id;
      } else {
        var s :| s in ss && s.logicalId == path[0] && IsLink(s) && Readable(cfn, s.physicalId)
                 && RecordedAt(cfn, c, s.physicalId, cfn[s.physicalId].template.value, filter, levels - 1,
                               path[1..], id, physical);
        assert [path[0]] + path[1..] == path;
        PathSteps(prefix, path[0], path[1..], id);
        assert Spells(key, prefix + s.logicalId + "/", path[1..], id);
        assert PhysicalBelow(cfn, c, s, filter, levels, prefix, key, physical);
      }
    }
    forall id | key == prefix + id && Collectable(t, ss, filter, id) && Recorded(ss, id, physical)
      ensures PhysicalDescribed(cfn, c, stackId, t, filter, levels, prefix, key, physical)
    {
      assert Spells(key, prefix, [], id);
      assert RecordedAt(cfn, c, stackId, t, filter, levels, [], id, physical);
    }
    if c.rollup && levels > 0 {
      forall s | s in ss && IsLink(s) && PhysicalBelow(cfn, c, s, filter, levels, prefix, key, physical)
        ensures PhysicalDescribed(cfn, c, stackId, t, filter, levels, prefix, key, physical)
      {
        var path, id :| Spells(key, prefix + s.logicalId + "/", path, id)
                        && RecordedAt(cfn, c, s.physicalId, cfn[s.physicalId].template.value, filter, levels - 1,
                                      path, id, physical);
        var whole := [s.logicalId] + path;
        PathSteps(prefix, s.logicalId, path, id);
        assert whole[0] == s.logicalId && whole[1..] == path;
        assert Spells(key, prefix, whole, id);
        assert RecordedAt(cfn, c, stackId, t, filter, levels, whole, id, physical);
      }
    }
  }
}
