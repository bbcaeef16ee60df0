/** Estimates (src/analyzer/analyzer.py:400-438): the proposed inventory of a change set, in which every
    resource that will be replaced gets a physical ID of its own, against the stored one. */
module ChangeSets {
  import opened Templates
  import opened Snapshots
  import opened Diffs
  import opened Reconciliation

  /** `neverDeployed`: the stack is still in REVIEW_IN_PROGRESS. */
  datatype ChangeSet = ChangeSet(id: string, replacements: set<string>, neverDeployed: bool)

  function PlaceholderId(c: ChangeSet, logicalId: string): string {
    "proposed-replacement:" + c.id + ":" + logicalId
  }

  function Mark(c: ChangeSet, r: Resource): Resource {
    if r.logicalId in c.replacements then r.(physicalId := PlaceholderId(c, r.logicalId)) else r
  }

  function Marked(c: ChangeSet, rs: Snapshot): Snapshot {
    seq(|rs|, i requires 0 <= i < |rs| => Mark(c, rs[i]))
  }

  function EstimateAt(before: Option<Snapshot>, c: ChangeSet, proposed: Snapshot): Delta {
    Diff(before, Marked(c, proposed), if before.None? && c.neverDeployed then CREATE else UPDATE)
  }

  method MarkReplacements(proposed: Snapshot, c: ChangeSet) returns (rs: Snapshot)
    ensures rs == Marked(c, proposed)
  {
    rs := proposed;
    for i := 0 to |rs|
      invariant |rs| == |proposed|
      invariant forall j :: 0 <= j < i ==> rs[j] == Mark(c, proposed[j])
      invariant forall j :: i <= j < |rs| ==> rs[j] == proposed[j]
    {
      if rs[i].logicalId in c.replacements {
        rs := rs[i := rs[i].(physicalId := PlaceholderId(c, rs[i].logicalId))];
      }
    }
  }

  // -- marking changes identities, not figures ------------------------------------------------

  lemma MarkedKeeps(c: ChangeSet, rs: Snapshot)
    requires UniqueIds(rs) && UnpricedIsFree(rs)
    ensures UniqueIds(Marked(c, rs)) && UnpricedIsFree(Marked(c, rs))
  {
    forall r | r in Marked(c, rs)
      ensures !r.IsPriced() ==> r.monthlyCost == 0.0
    {
      var i :| 0 <= i < |rs| && Marked(c, rs)[i] == r;
      assert rs[i] in rs;
    }
  }

  lemma {:induction false} MarkedTotal(c: ChangeSet, rs: Snapshot)
    ensures TotalOf(Marked(c, rs)) == TotalOf(rs)
  {
    if rs != [] {
      MarkedTotal(c, rs[..|rs| - 1]);
      assert Marked(c, rs)[..|rs| - 1] == Marked(c, rs[..|rs| - 1]);
    }
  }

  /** An estimate explains the proposed change up to the same bound as a report. */
  lemma EstimateReconciles(before: Snapshot, c: ChangeSet, proposed: Snapshot)
    requires UniqueIds(before) && UnpricedIsFree(before) && UniqueIds(proposed) && UnpricedIsFree(proposed)
    ensures GapBounded(EstimateAt(Some(before), c, proposed))
    ensures EstimateAt(Some(before), c, proposed).Current() == TotalOf(proposed)
  {
    MarkedKeeps(c, proposed);
    MarkedTotal(c, proposed);
    ReconciliationBound(Some(before), Marked(c, proposed), UPDATE);
  }

  // -- every replacement shows ---------------------------------------------------------------

  /** The parts list r as a replacement of its predecessor p, or as new beside the retained p. */
  ghost predicate Listed(parts: Parts, p: Resource, r: Resource) {
    Changed(p, r, true) in parts.changed || (r in parts.added && p in parts.retained)
  }

  lemma {:induction false} Collected(previous: seq<Resource>, current: seq<Resource>, i: nat)
    requires i < |current| && Lookup(previous, current[i].logicalId).Some?
    requires IsReplacement(Lookup(previous, current[i].logicalId).value, current[i])
    ensures Listed(Collect(previous, current), Lookup(previous, current[i].logicalId).value, current[i])
    decreases |current|
  {
    var front, last := current[..|current| - 1], current[|current| - 1];
    if i < |current| - 1 {
      assert front[i] == current[i];
      Collected(previous, front, i);
    }
  }

  lemma SortedListed(parts: Parts, p: Resource, r: Resource)
    requires Listed(parts, p, r)
    ensures Listed(Sorted(parts), p, r)
  {
    SortBySorts(ResourceId, parts.added);
    SortBySorts(ChangedId, parts.changed);
    SortBySorts(ResourceId, parts.retained);
    assert forall x :: x in parts.added ==> x in multiset(parts.added);
    assert forall x :: x in parts.retained ==> x in multiset(parts.retained);
    assert forall x :: x in parts.changed ==> x in multiset(parts.changed);
  }

  /** No replacement that a change set announces for a deployed resource is counted as unchanged,
      even when its price stays the same. */
  lemma ReplacementsShow(before: Snapshot, c: ChangeSet, proposed: Snapshot, i: nat, p: Resource)
    requires UniqueIds(before) && UniqueIds(proposed) && i < |proposed|
    requires proposed[i].logicalId in c.replacements && Lookup(before, proposed[i].logicalId) == Some(p)
    requires p.physicalId != "" && p.physicalId != PlaceholderId(c, proposed[i].logicalId)
    ensures Listed(EstimateAt(Some(before), c, proposed).parts, p, Marked(c, proposed)[i])
  {
    var marked := Marked(c, proposed);
    assert UniqueIds(marked);
    ByIdUnique(before);
    ByIdUnique(marked);
    assert marked[i].physicalId[0] == 'p';
    Collected(before, marked, i);
    SortedListed(Unsorted(before, marked), p, marked[i]);
  }
}
