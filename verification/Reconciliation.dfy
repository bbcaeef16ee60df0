/** How the parts of a diff explain the change of a stack's total (src/state/diff.py:169-207). */
module Reconciliation {
  import opened Templates
  import opened Money
  import opened Snapshots
  import opened Diffs

  /** Cost drift of the resources counted as unchanged: they are in no list. */
  function Drift(previous: seq<Resource>, current: seq<Resource>): real {
    if current == [] then 0.0
    else
      var r := current[|current| - 1];
      var prior := Lookup(previous, r.logicalId);
      Drift(previous, current[..|current| - 1]) + if Judge(prior, r) == Same then r.Cost() - prior.value.Cost() else 0.0
  }

  function DriftOf(d: Delta): real {
    if d.action == BASELINE then 0.0
    else Drift(ById(if d.before.Some? then d.before.value else []), ById(d.after))
  }

  /** Previous cost of the resources that have a successor. */
  function Matched(previous: seq<Resource>, current: seq<Resource>): real {
    if current == [] then 0.0
    else
      var prior := Lookup(previous, current[|current| - 1].logicalId);
      Matched(previous, current[..|current| - 1]) + if prior.Some? then prior.value.Cost() else 0.0
  }

  /** The same cost, summed over the previous snapshot. */
  function Kept(previous: seq<Resource>, current: seq<Resource>): real {
    if previous == [] then 0.0
    else
      var p := previous[|previous| - 1];
      Kept(previous[..|previous| - 1], current) + if Lookup(current, p.logicalId).Some? then p.Cost() else 0.0
  }

  // -- sums do not depend on the order of the lists --------------------------------------

  lemma {:induction false} TotalInsert(key: Resource -> string, sorted: seq<Resource>, x: Resource)
    ensures TotalOf(InsertLast(key, sorted, x)) == TotalOf(sorted) + x.Cost()
  {
    if sorted == [] || LexLeq(key(sorted[|sorted| - 1]), key(x)) {
      TotalConcat(sorted, [x]);
    } else {
      var front := sorted[..|sorted| - 1];
      TotalInsert(key, front, x);
      TotalConcat(InsertLast(key, front, x), [sorted[|sorted| - 1]]);
    }
  }

  lemma {:induction false} TotalSorted(key: Resource -> string, xs: seq<Resource>)
    ensures TotalOf(SortBy(key, xs)) == TotalOf(xs)
  {
    if xs != [] {
      TotalSorted(key, xs[..|xs| - 1]);
      TotalInsert(key, SortBy(key, xs[..|xs| - 1]), xs[|xs| - 1]);
    }
  }

  lemma {:induction false} ChangedConcat(a: seq<Changed>, b: seq<Changed>)
    ensures ChangedTotal(a + b) == ChangedTotal(a) + ChangedTotal(b)
  {
    if b == [] {
      assert a + b == a;
    } else {
      assert (a + b)[..|a + b| - 1] == a + b[..|b| - 1];
      ChangedConcat(a, b[..|b| - 1]);
    }
  }

  lemma {:induction false} ChangedInsert(key: Changed -> string, sorted: seq<Changed>, x: Changed)
    ensures ChangedTotal(InsertLast(key, sorted, x)) == ChangedTotal(sorted) + x.DeltaMonthly()
  {
    if sorted == [] || LexLeq(key(sorted[|sorted| - 1]), key(x)) {
      ChangedConcat(sorted, [x]);
    } else {
      var front := sorted[..|sorted| - 1];
      ChangedInsert(key, front, x);
      ChangedConcat(InsertLast(key, front, x), [sorted[|sorted| - 1]]);
    }
  }

  lemma {:induction false} ChangedSorted(key: Changed -> string, xs: seq<Changed>)
    ensures ChangedTotal(SortBy(key, xs)) == ChangedTotal(xs)
  {
    if xs != [] {
      ChangedSorted(key, xs[..|xs| - 1]);
      ChangedInsert(key, SortBy(key, xs[..|xs| - 1]), xs[|xs| - 1]);
    }
  }

  // -- both snapshots are split without loss -----------------------------------------------

  /** What one more current resource adds to the parts. */
  lemma ExtendTotals(p: Parts, prior: Option<Resource>, r: Resource)
    ensures var q := Extend(p, prior, r);
            && q.removed == p.removed
            && r.Cost() + TotalOf(q.retained) - TotalOf(p.retained) ==
               TotalOf(q.added) - TotalOf(p.added) + ChangedTotal(q.changed) - ChangedTotal(p.changed)
               + (if Judge(prior, r) == Same then r.Cost() - prior.value.Cost() else 0.0)
               + (if prior.Some? then prior.value.Cost() else 0.0)
  {
    match Judge(prior, r)
    case New => TotalNext(p.added, r);
    case Replaced =>
      TotalNext(p.added, r);
      TotalNext(p.retained, prior.value);
    case Moved => ChangedNext(p.changed, Changed(prior.value, r, IsReplacement(prior.value, r)));
    case Same =>
  }

  lemma TotalNext(rs: seq<Resource>, r: Resource)
    ensures TotalOf(rs + [r]) == TotalOf(rs) + r.Cost()
  {
    assert (rs + [r])[..|rs|] == rs;
  }

  lemma ChangedNext(cs: seq<Changed>, c: Changed)
    ensures ChangedTotal(cs + [c]) == ChangedTotal(cs) + c.DeltaMonthly()
  {
    assert (cs + [c])[..|cs|] == cs;
  }

  lemma {:induction false} CurrentSplit(previous: seq<Resource>, current: seq<Resource>)
    ensures var p := Collect(previous, current);
            TotalOf(current) + TotalOf(p.retained) ==
            TotalOf(p.added) + ChangedTotal(p.changed) + Drift(previous, current) + Matched(previous, current)
    ensures Collect(previous, current).removed == []
  {
    if current != [] {
      var front, r := current[..|current| - 1], current[|current| - 1];
      CurrentSplit(previous, front);
      var p, prior := Collect(previous, front), Lookup(previous, r.logicalId);
      assert Collect(previous, current) == Extend(p, prior, r);
      ExtendTotals(p, prior, r);
    }
  }

  lemma {:induction false} PreviousSplit(previous: seq<Resource>, current: seq<Resource>)
    ensures TotalOf(previous) == Kept(previous, current)
              + TotalOf(Departed(previous, current, false)) + TotalOf(Departed(previous, current, true))
  {
    if previous != [] {
      PreviousSplit(previous[..|previous| - 1], current);
    }
  }

  lemma {:induction false} LookupSnoc(rs: seq<Resource>, r: Resource, id: string)
    ensures Lookup(rs + [r], id) ==
            if Lookup(rs, id).Some? then Lookup(rs, id) else if r.logicalId == id then Some(r) else None
  {
    if rs == [] {
      assert rs + [r] == [r];
      assert [r][1..] == [];
    } else {
      assert (rs + [r])[1..] == rs[1..] + [r];
      LookupSnoc(rs[1..], r, id);
    }
  }

  lemma LookupFront(rs: seq<Resource>, id: string)
    requires rs != []
    ensures var front, last := rs[..|rs| - 1], rs[|rs| - 1];
            Lookup(rs, id) ==
            if Lookup(front, id).Some? then Lookup(front, id) else if last.logicalId == id then Some(last) else None
  {
    LookupSnoc(rs[..|rs| - 1], rs[|rs| - 1], id);
    assert rs == rs[..|rs| - 1] + [rs[|rs| - 1]];
  }

  /** One more current resource claims the previous resource of the same ID, once. */
  lemma {:induction false} KeptNext(previous: seq<Resource>, current: seq<Resource>)
    requires UniqueIds(previous) && UniqueIds(current) && current != []
    ensures var front, r := current[..|current| - 1], current[|current| - 1];
            Kept(previous, current) ==
            Kept(previous, front) + if Lookup(previous, r.logicalId).Some? then Lookup(previous,
                r.logicalId).value.Cost() else 0.0
    decreases |previous|
  {
    if previous != [] {
      var rest, p := previous[..|previous| - 1], previous[|previous| - 1];
      var r := current[|current| - 1];
      KeptNext(rest, current);
      LookupFront(current, p.logicalId);
      LookupFront(previous, r.logicalId);
      if r.logicalId == p.logicalId {
        var i, j := IndexOf(rest, r.logicalId), IndexOf(current[..|current| - 1], r.logicalId);
        assert i == |rest| && j == |current| - 1;
      }
    }
  }

  lemma {:induction false} MatchedIsKept(previous: seq<Resource>, current: seq<Resource>)
    requires UniqueIds(previous) && UniqueIds(current)
    ensures Matched(previous, current) == Kept(previous, current)
    decreases |current|
  {
    if current == [] {
      NothingKept(previous);
    } else {
      MatchedIsKept(previous, current[..|current| - 1]);
      KeptNext(previous, current);
    }
  }

  lemma {:induction false} NothingKept(previous: seq<Resource>)
    ensures Kept(previous, []) == 0.0
  {
    if previous != [] {
      NothingKept(previous[..|previous| - 1]);
    }
  }

  // -- main results ------------------------------------------------------------------------

  lemma SortedTotals(p: Parts)
    ensures TotalOf(Sorted(p).added) == TotalOf(p.added) && TotalOf(Sorted(p).removed) == TotalOf(p.removed)
    ensures TotalOf(Sorted(p).retained) == TotalOf(p.retained)
    ensures ChangedTotal(Sorted(p).changed) == ChangedTotal(p.changed)
  {
    TotalSorted(ResourceId, p.added);
    TotalSorted(ResourceId, p.removed);
    TotalSorted(ResourceId, p.retained);
    ChangedSorted(ChangedId, p.changed);
  }

  /** A stack's history, or the empty one. */
  function History(before: Option<Snapshot>): Snapshot {
    if before.Some? then before.value else []
  }

  /** The change of the total is the net change, less what is retained, plus the drift of the
      unchanged resources: nothing is lost and nothing counted twice. */
  predicate Explained(d: Delta) {
    d.Current() - d.Previous() + d.Retained() == d.Net() + DriftOf(d)
  }

  /** Every report on a known stack, and on a created one, explains the change of the total. */
  lemma Reconciliation(before: Option<Snapshot>, after: Snapshot, action: Action)
    requires UniqueIds(History(before)) && UniqueIds(after)
    requires before.Some? || action == CREATE
    requires action != BASELINE
    ensures Explained(Diff(before, after, action))
  {
    var previous := History(before);
    ByIdUnique(previous);
    ByIdUnique(after);
    CurrentSplit(previous, after);
    PreviousSplit(previous, after);
    MatchedIsKept(previous, after);
    var p := Collect(previous, after);
    TotalConcat(p.retained, Departed(previous, after, true));
    SortedTotals(Unsorted(previous, after));
  }

  /** Each unchanged resource drifts by strictly less than a cent. */
  lemma SameDrift(p: Resource, r: Resource)
    requires Judge(Some(p), r) == Same
    requires UnpricedIsFree([p]) && UnpricedIsFree([r])
    ensures Abs(r.Cost() - p.Cost()) < 0.01
  {
    assert p in [p] && r in [r];
    SameCent(p.monthlyCost, r.monthlyCost);
  }

  lemma {:induction false} DriftBound(previous: seq<Resource>, current: seq<Resource>)
    requires UnpricedIsFree(previous) && UnpricedIsFree(current)
    ensures var n := Collect(previous, current).stayed;
            if n == 0 then Drift(previous, current) == 0.0
            else Abs(Drift(previous, current)) < 0.01 * n as real
  {
    if current != [] {
      var r := current[|current| - 1];
      DriftBound(previous, current[..|current| - 1]);
      var prior := Lookup(previous, r.logicalId);
      if Judge(prior, r) == Same {
        assert prior.value in previous && r in current;
        SameDrift(prior.value, r);
      }
    }
  }

  /** What the reported parts leave unexplained. */
  function Gap(d: Delta): real {
    d.Current() - d.Previous() + d.Retained() - d.Net()
  }

  predicate GapBounded(d: Delta) {
    if d.parts.stayed == 0 then Gap(d) == 0.0 else Abs(Gap(d)) < 0.01 * d.parts.stayed as real
  }

  /** The reported parts miss the change of the total by less than a cent per unchanged resource. */
  lemma ReconciliationBound(before: Option<Snapshot>, after: Snapshot, action: Action)
    requires UniqueIds(History(before)) && UniqueIds(after)
    requires UnpricedIsFree(History(before)) && UnpricedIsFree(after)
    requires before.Some? || action == CREATE
    requires action != BASELINE
    ensures GapBounded(Diff(before, after, action))
  {
    Reconciliation(before, after, action);
    DriftOfBound(before, after, action);
    BoundedGap(Diff(before, after, action));
  }

  lemma BoundedGap(d: Delta)
    requires Explained(d) && DriftBounded(d)
    ensures GapBounded(d)
  {
  }

  predicate DriftBounded(d: Delta) {
    if d.parts.stayed == 0 then DriftOf(d) == 0.0 else Abs(DriftOf(d)) < 0.01 * d.parts.stayed as real
  }

  lemma DriftOfBound(before: Option<Snapshot>, after: Snapshot, action: Action)
    requires UniqueIds(History(before)) && UniqueIds(after)
    requires UnpricedIsFree(History(before)) && UnpricedIsFree(after)
    ensures DriftBounded(Diff(before, after, action))
  {
    ByIdUnique(History(before));
    ByIdUnique(after);
    DriftBound(History(before), after);
  }

  /** What stays billed although it is no longer part of the stack: resources that left it or were
      replaced under a policy that retains them. */
  function RetainedCost(previous: seq<Resource>, current: seq<Resource>): real {
    ReplacedCost(previous, current) + TotalOf(Departed(previous, current, true))
  }

  function ReplacedCost(previous: seq<Resource>, current: seq<Resource>): real {
    if current == [] then 0.0
    else
      var r := current[|current| - 1];
      var prior := Lookup(previous, r.logicalId);
      ReplacedCost(previous, current[..|current| - 1]) + if Judge(prior, r) == Replaced then prior.value.Cost() else 0.0
  }

  lemma {:induction false} ReplacedIsRetained(previous: seq<Resource>, current: seq<Resource>)
    ensures TotalOf(Collect(previous, current).retained) == ReplacedCost(previous, current)
  {
    if current != [] {
      var front, r := current[..|current| - 1], current[|current| - 1];
      ReplacedIsRetained(previous, front);
      var prior := Lookup(previous, r.logicalId);
      if Judge(prior, r) == Replaced {
        TotalNext(Collect(previous, front).retained, prior.value);
      }
    }
  }

  /** What the bill changes by: the totals of the two snapshots, and what stays billed besides. */
  function BillChange(previous: seq<Resource>, current: seq<Resource>): real {
    TotalOf(current) - TotalOf(previous) + RetainedCost(previous, current)
  }

  /** Leaving the drift of the unchanged resources out does not change the bill by a cent, rounded. */
  predicate DriftInvisible(previous: seq<Resource>, current: seq<Resource>) {
    Round(BillChange(previous, current)) == Round(BillChange(previous, current) - Drift(previous, current))
  }

  /** A report's figures in terms of the two snapshots. */
  predicate FiguresOf(d: Delta, previous: seq<Resource>, current: seq<Resource>) {
    && d.Current() - d.Previous() + d.Retained() == BillChange(previous, current)
    && d.Net() == BillChange(previous, current) - Drift(previous, current)
  }

  lemma ReportFigures(before: Option<Snapshot>, after: Snapshot, action: Action)
    requires UniqueIds(History(before)) && UniqueIds(after)
    requires (before.Some? || action == CREATE) && action != BASELINE
    ensures FiguresOf(Diff(before, after, action), History(before), after)
  {
    var previous, d := History(before), Diff(before, after, action);
    Reconciliation(before, after, action);
    ByIdUnique(previous);
    ByIdUnique(after);
    RetainedOf(before, after, action);
    assert DriftOf(d) == Drift(previous, after);
  }

  lemma RetainedOf(before: Option<Snapshot>, after: Snapshot, action: Action)
    requires UniqueIds(History(before)) && UniqueIds(after)
    requires (before.Some? || action == CREATE) && action != BASELINE
    ensures Diff(before, after, action).Retained() == RetainedCost(History(before), after)
  {
    var previous := History(before);
    ByIdUnique(previous);
    ByIdUnique(after);
    TotalConcat(Collect(previous, after).retained, Departed(previous, after, true));
    ReplacedIsRetained(previous, after);
    SortedTotals(Unsorted(previous, after));
  }

  /** Deleting a stack saves its whole cost, except for what its policies retain. */
  lemma DeletionSaves(before: Snapshot)
    requires UniqueIds(before)
    ensures var d := Diff(Some(before), [], DELETE);
            d.Net() == d.Retained() - TotalOf(before)
  {
    Reconciliation(Some(before), [], DELETE);
    var d := Diff(Some(before), [], DELETE);
    assert ById(d.after) == [];
    assert DriftOf(d) == 0.0;
  }

  /** When the self-check of a report passes, and when it does not. */
  lemma ReconcilesIff(before: Option<Snapshot>, after: Snapshot, action: Action)
    requires UniqueIds(History(before)) && UniqueIds(after)
    requires action != BASELINE
    ensures Diff(before, after, action).Reconciles() <==>
            (before.None? && action != CREATE) || DriftInvisible(History(before), after)
  {
    if before.Some? || action == CREATE {
      ReportFigures(before, after, action);
      FiguresReconcile(Diff(before, after, action), History(before), after);
    } else {
      BaselineReconciles(before, after, action);
    }
  }

  lemma FiguresReconcile(d: Delta, previous: seq<Resource>, current: seq<Resource>)
    requires FiguresOf(d, previous, current) && d.action != BASELINE
    ensures d.Reconciles() <==> DriftInvisible(previous, current)
  {
  }

  lemma BaselineReconciles(before: Option<Snapshot>, after: Snapshot, action: Action)
    requires before.None? && action != CREATE
    ensures Diff(before, after, action).Reconciles()
  {
  }

  predicate UnchangedCostSame(previous: seq<Resource>, current: seq<Resource>) {
    forall r :: r in current ==>
      var prior := Lookup(previous, r.logicalId);
      Judge(prior, r) == Same ==> prior.value.Cost() == r.Cost()
  }

  lemma {:induction false} NoDrift(previous: seq<Resource>, current: seq<Resource>)
    requires UnchangedCostSame(previous, current)
    ensures Drift(previous, current) == 0.0
  {
    if current != [] {
      assert current[|current| - 1] in current;
      NoDrift(previous, current[..|current| - 1]);
    }
  }

  /** The self-check passes when unchanged resources cost exactly the same; in particular for a
      creation without history, for a deletion, and for a baseline. */
  lemma ReconcilesWhenExact(before: Option<Snapshot>, after: Snapshot, action: Action)
    requires UniqueIds(History(before)) && UniqueIds(after) && action != BASELINE
    requires before.None? || after == [] || UnchangedCostSame(before.value, after)
    ensures Diff(before, after, action).Reconciles()
  {
    ReconcilesIff(before, after, action);
    if before.None? {
      NothingUnchanged(after);
    }
    NoDrift(History(before), after);
    NoDriftInvisible(History(before), after);
  }

  lemma NoDriftInvisible(previous: seq<Resource>, current: seq<Resource>)
    requires Drift(previous, current) == 0.0
    ensures DriftInvisible(previous, current)
  {
    var x := BillChange(previous, current);
    assert x - Drift(previous, current) == x;
  }

  lemma NothingUnchanged(after: seq<Resource>)
    ensures UnchangedCostSame([], after)
  {
  }

  lemma {:induction false} NobodyLeft(previous: seq<Resource>, current: seq<Resource>, retained: bool)
    requires forall p :: p in previous ==> Lookup(current, p.logicalId).Some?
    ensures Departed(previous, current, retained) == []
  {
    if previous != [] {
      NobodyLeft(previous[..|previous| - 1], current, retained);
    }
  }

  function Cheap(id: string, cost: real): Resource {
    Resource(id, DETERMINISTIC, HIGH, "", cost, [Component("k", "1")], "", "")
  }

  function Pair(cost: real): Snapshot {
    [Cheap("A", cost), Cheap("B", cost)]
  }

  lemma PairLookup(cost: real)
    ensures Lookup(Pair(cost), "A") == Some(Cheap("A", cost)) && Lookup(Pair(cost), "B") == Some(Cheap("B", cost))
    ensures UniqueIds(Pair(cost)) && UnpricedIsFree(Pair(cost)) && ById(Pair(cost)) == Pair(cost)
  {
    assert Pair(cost)[1..] == [Cheap("B", cost)];
    assert IndexOf(Pair(cost)[1..], "B") == 0;
    ByIdUnique(Pair(cost));
  }

  lemma CheapSame(id: string)
    ensures Judge(Some(Cheap(id, 0.0)), Cheap(id, 0.004)) == Same
  {
    assert Cents(0.004) == 0 && Cents(0.0) == 0;
  }

  lemma PairCollect()
    ensures Collect(Pair(0.0), Pair(0.004)) == Parts([], [], [], [], 2)
    ensures Drift(Pair(0.0), Pair(0.004)) == 0.008
  {
    PairLookup(0.0);
    CheapSame("A");
    CheapSame("B");
    var first := [Cheap("A", 0.004)];
    assert Pair(0.004)[..1] == first && first[..0] == [];
    assert Collect(Pair(0.0), first) == Parts([], [], [], [], 1);
    assert Drift(Pair(0.0), first) == 0.004;
  }

  lemma PairDiff()
    ensures Diff(Some(Pair(0.0)), Pair(0.004), UPDATE) ==
            Delta(UPDATE, Some(Pair(0.0)), Pair(0.004), Parts([], [], [], [], 2))
  {
    PairLookup(0.0);
    PairLookup(0.004);
    PairCollect();
    NobodyLeft(Pair(0.0), Pair(0.004), true);
    NobodyLeft(Pair(0.0), Pair(0.004), false);
  }

  lemma PairTotal(cost: real)
    ensures TotalOf(Pair(cost)) == cost + cost
  {
    TotalNext([], Cheap("A", cost));
    TotalNext([Cheap("A", cost)], Cheap("B", cost));
    assert [Cheap("A", cost)] + [Cheap("B", cost)] == Pair(cost);
    assert [] + [Cheap("A", cost)] == [Cheap("A", cost)];
  }

  /** Two resources going from nothing to 0.4 cents each: no part moved, the total did, and the
      report says that its own figures do not add up. */
  lemma DriftBreaksReconciles()
    ensures var d := Diff(Some(Pair(0.0)), Pair(0.004), UPDATE);
            && UniqueIds(Pair(0.0)) && UniqueIds(Pair(0.004))
            && UnpricedIsFree(Pair(0.0)) && UnpricedIsFree(Pair(0.004))
            && d.parts == Parts([], [], [], [], 2) && !d.Reconciles()
  {
    PairLookup(0.0);
    PairLookup(0.004);
    PairDiff();
    PairFails(Diff(Some(Pair(0.0)), Pair(0.004), UPDATE));
  }

  lemma PairFails(d: Delta)
    requires d == Delta(UPDATE, Some(Pair(0.0)), Pair(0.004), Parts([], [], [], [], 2))
    ensures !d.Reconciles()
  {
    PairTotal(0.0);
    PairTotal(0.004);
    assert d.Net() == 0.0 && d.Current() - d.Previous() + d.Retained() == 0.008;
    assert Cents(0.0) == 0 && Cents(0.008) == 1;
  }
}
