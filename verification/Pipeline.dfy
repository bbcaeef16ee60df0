/** From a stack's resources to its reconciled report: the nested walk makes the logical IDs
    unique, the engine makes unpriced resources free, and with these two the parts of a report
    explain the change of the total up to the bound, without further assumptions
    (src/analyzer/analyzer.py:263-300). And from a template's conditions to what is priced: only a
    condition that is false leaves a resource out (src/resolver/resolver.py:120-205). */
module Pipeline {
  import opened Templates
  import opened Snapshots
  import opened Engine
  import Diffs
  import Reconciliation
  import NestedStacks
  import Fixpoints
  import Denotation
  import Evaluator

  type Classified = seq<(ResolvedResource, Classification)>

  /** Each collected entry, resolved and classified in some way, keeps its key. */
  ghost predicate ResourcesOf(items: seq<NestedStacks.Item>, rs: Classified) {
    |rs| == |items| && forall i :: 0 <= i < |rs| ==> rs[i].0.logicalId == items[i].key
  }

  ghost predicate DifferentIds(rs: Classified) {
    forall i, j :: 0 <= i < j < |rs| ==> rs[i].0.logicalId != rs[j].0.logicalId
  }

  /** The snapshot of one analysis. */
  function SnapshotOf(catalog: Catalog, discount: real, rs: Classified, ids: map<string, string>): Snapshot {
    FromInventory(PriceInventory(catalog, discount, rs), ids)
  }

  lemma {:induction false} SnapshotUnique(catalog: Catalog, discount: real, rs: Classified, ids: map<string, string>)
    requires DifferentIds(rs)
    ensures var snapshot := SnapshotOf(catalog, discount, rs, ids);
            UniqueIds(snapshot) && forall r :: r in snapshot ==> IsIdOf(rs, r.logicalId)
  {
    if rs != [] {
      var front, last := rs[..|rs| - 1], rs[|rs| - 1];
      SnapshotUnique(catalog, discount, front, ids);
      var before := SnapshotOf(catalog, discount, front, ids);
      forall r | r in before
        ensures r.logicalId != last.0.logicalId && IsIdOf(rs, r.logicalId)
      {
        var i :| 0 <= i < |front| && front[i].0.logicalId == r.logicalId;
        assert rs[i] == front[i];
      }
      assert rs[|rs| - 1].0.logicalId == last.0.logicalId;
      SnapshotNext(catalog, discount, rs, ids);
    }
  }

  ghost predicate IsIdOf(rs: Classified, id: string) {
    exists i :: 0 <= i < |rs| && rs[i].0.logicalId == id
  }

  /** The last resource adds nothing, or one entry under its own ID. */
  lemma SnapshotNext(catalog: Catalog, discount: real, rs: Classified, ids: map<string, string>)
    requires rs != []
    ensures var before := SnapshotOf(catalog, discount, rs[..|rs| - 1], ids);
            var all := SnapshotOf(catalog, discount, rs, ids);
            || all == before
            || (exists r: Resource :: r.logicalId == rs[|rs| - 1].0.logicalId && all == before + [r])
  {
    var (r, c) := rs[|rs| - 1];
    if r.inclusion != EXCLUDED {
      var ps, p := PriceInventory(catalog, discount, rs[..|rs| - 1]), PriceResource(catalog, discount, r, c);
      assert (ps + [p])[..|ps|] == ps;
      assert FromPriced(p, ids).logicalId == r.logicalId;
    }
  }

  /** A snapshot that some earlier analysis of a well-formed stack may have stored. */
  ghost predicate Analysed(s: Snapshot) {
    exists catalog, discount, rs, ids :: DifferentIds(rs) && s == SnapshotOf(catalog, discount, rs, ids)
  }

  lemma AnalysedIsGood(s: Snapshot)
    requires Analysed(s)
    ensures UniqueIds(s) && UnpricedIsFree(s)
  {
    var catalog, discount, rs, ids :| DifferentIds(rs) && s == SnapshotOf(catalog, discount, rs, ids);
    SnapshotUnique(catalog, discount, rs, ids);
    SnapshotOfInventory(catalog, discount, rs, ids);
  }

  /** Whatever is deployed, however it resolves and whatever the prices are: two analyses of a stack
      yield a report whose parts explain the change of its total up to a cent per unchanged resource. */
  lemma ReportsReconcile(cfn: NestedStacks.Cfn, config: NestedStacks.Config, stackId: string, filter: bool,
                         rs: Classified, catalog: Catalog, discount: real, before: Snapshot, action: Diffs.Action)
    requires NestedStacks.GoodCfn(cfn) && Analysed(before) && action != Diffs.BASELINE
    requires NestedStacks.Collect(cfn, config, stackId, None, "", 0, filter).Some?
    requires ResourcesOf(NestedStacks.Collect(cfn, config, stackId, None, "", 0, filter).value.items, rs)
    ensures var ids := NestedStacks.Collect(cfn, config, stackId, None, "", 0, filter).value.physicalIds;
            Reconciliation.GapBounded(Diffs.Diff(Some(before), SnapshotOf(catalog, discount, rs, ids), action))
  {
    var collected := NestedStacks.Collect(cfn, config, stackId, None, "", 0, filter).value;
    NestedStacks.CollectDistinct(cfn, config, stackId, None, "", 0, filter);
    assert forall i :: 0 <= i < |rs| ==> rs[i].0.logicalId == collected.items[i].key;
    AnalysedIsGood(before);
    SnapshotUnique(catalog, discount, rs, collected.physicalIds);
    EngineReconciles(catalog, discount, rs, collected.physicalIds, before, action);
  }

  // -- conditions and the inventory -----------------------------------------------------------

  /** A resource as the template declares it. */
  datatype Declared = Declared(
    logicalId: string, condition: Option<Node>, properties: Node, deletionPolicy: string, updateReplacePolicy: string)

  /** Its condition is false in every solution of the template's equations. */
  ghost predicate ConditionFalse(env: Env, d: Declared) {
    && d.condition.Some? && d.condition.value.Str?
    && forall fix :: Fixpoints.IsFixpoint(env, fix) ==> Denotation.Ask(fix, d.condition.value.s) == Some(false)
  }

  ghost predicate ReachesNoCycle(env: Env, d: Declared) {
    d.condition.Some? && d.condition.value.Str? ==> Fixpoints.Grounded(env, {d.condition.value.s})
  }

  /** Excluded only under a false condition, and always then if the condition reaches no cycle. */
  ghost predicate ResolvedFrom(env: Env, d: Declared, r: ResolvedResource) {
    && r.logicalId == d.logicalId && r.deletionPolicy == d.deletionPolicy
        && r.updateReplacePolicy == d.updateReplacePolicy
    && (r.inclusion == EXCLUDED ==> ConditionFalse(env, d))
    && (ConditionFalse(env, d) && ReachesNoCycle(env, d) ==> r.inclusion == EXCLUDED)
  }

  /** Resolves every resource, in order, with one evaluator and its memo. */
  method ResolveAll(evaluator: Evaluator.ConditionEvaluator, declared: seq<Declared>)
    returns (rs: seq<ResolvedResource>, properties: seq<Resolved>)
    requires evaluator.Valid() && evaluator.inProgress == []
    modifies evaluator
    ensures evaluator.Kept(old(evaluator.cache), [])
    ensures |rs| == |properties| == |declared|
    ensures forall i :: 0 <= i < |rs| ==> ResolvedFrom(evaluator.env, declared[i], rs[i])
  {
    rs, properties := [], [];
    for i := 0 to |declared|
      invariant evaluator.Kept(old(evaluator.cache), [])
      invariant |rs| == |properties| == i
      invariant forall j :: 0 <= j < i ==> ResolvedFrom(evaluator.env, declared[j], rs[j])
    {
      var d := declared[i];
      var inclusion, condition := evaluator.DetermineInclusion(d.condition);
      assert Fixpoints.IsFixpoint(evaluator.env, Fixpoints.Least(evaluator.env));
      var value, sink := evaluator.ResolveProperties(d.properties);
      rs := rs + [ResolvedResource(d.logicalId, inclusion, d.deletionPolicy, d.updateReplacePolicy)];
      properties := properties + [value];
    }
  }

  ghost predicate HasEntry(ps: seq<PricedResource>, id: string) {
    exists p :: p in ps && p.logicalId == id
  }

  lemma {:induction false} EntryIff(catalog: Catalog, discount: real, rs: Classified, id: string)
    ensures HasEntry(PriceInventory(catalog, discount, rs), id) <==>
            exists i :: 0 <= i < |rs| && rs[i].0.logicalId == id && rs[i].0.inclusion != EXCLUDED
  {
    if rs != [] {
      var front, last := rs[..|rs| - 1], rs[|rs| - 1];
      var ps, p := PriceInventory(catalog, discount, front), PriceResource(catalog, discount, last.0, last.1);
      EntryIff(catalog, discount, front, id);
      if last.0.inclusion != EXCLUDED {
        assert forall q :: q in ps + [p] <==> q in ps || q == p;
        assert p.logicalId == last.0.logicalId;
        assert rs[|rs| - 1] == last;
      }
      if HasEntry(ps, id) {
        var i :| 0 <= i < |front| && front[i].0.logicalId == id && front[i].0.inclusion != EXCLUDED;
        assert rs[i] == front[i];
      }
      if i :| 0 <= i < |rs| && rs[i].0.logicalId == id && rs[i].0.inclusion != EXCLUDED && i < |front| {
        assert front[i] == rs[i];
      }
    }
  }

  /** A resource of the template that is missing from the priced inventory has a false condition; and
      it is missing exactly then if its condition reaches no cycle. */
  lemma LeftOutIff(env: Env, declared: seq<Declared>, rs: Classified, catalog: Catalog, discount: real, i: nat)
    requires DifferentIds(rs) && |rs| == |declared| && i < |rs|
    requires forall j :: 0 <= j < |rs| ==> ResolvedFrom(env, declared[j], rs[j].0)
    ensures var ps := PriceInventory(catalog, discount, rs);
            && (!HasEntry(ps, declared[i].logicalId) ==> ConditionFalse(env, declared[i]))
            && (ReachesNoCycle(env, declared[i]) ==>
                  (!HasEntry(ps, declared[i].logicalId) <==> ConditionFalse(env, declared[i])))
  {
    EntryIff(catalog, discount, rs, declared[i].logicalId);
    assert ResolvedFrom(env, declared[i], rs[i].0);
    if j :| 0 <= j < |rs| && rs[j].0.logicalId == declared[i].logicalId {
      assert j == i;
    }
  }
}
