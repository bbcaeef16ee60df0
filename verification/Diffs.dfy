/** The diff engine (src/state/diff.py): which resources came, went, moved or stayed, and how far
    the reported parts explain the change of the total.

    The exact identity (Reconciliation) has one more term than the docstring of `reconciles`
    says: unchanged resources may drift by less than a cent each, so `reconciles` is not an
    arithmetic certainty (DriftBreaksReconciles). */
module Diffs {
  import opened Templates
  import opened Money
  import opened Snapshots

  datatype Action = CREATE | UPDATE | DELETE | ROLLBACK | BASELINE

  datatype Changed = Changed(before: Resource, after: Resource, replacement: bool) {
    function DeltaMonthly(): real {
      after.Cost() - before.Cost()
    }
  }

  /** The lists in which diff_snapshots collects, and its counter. */
  datatype Parts = Parts(
    added: seq<Resource>, removed: seq<Resource>, changed: seq<Changed>,
    retained: seq<Resource>, stayed: nat)

  datatype Delta = Delta(action: Action, before: Option<Snapshot>, after: Snapshot, parts: Parts) {
    function Net(): real {
      TotalOf(parts.added) - TotalOf(parts.removed) + ChangedTotal(parts.changed)
    }

    function Retained(): real {
      TotalOf(parts.retained)
    }

    function Previous(): real {
      if before.Some? then TotalOf(before.value) else 0.0
    }

    function Current(): real {
      TotalOf(after)
    }

    predicate Reconciles() {
      if action == BASELINE then Net() == 0.0
      else Round(Net()) == Round(Current() - Previous() + Retained())
    }
  }

  function ChangedTotal(cs: seq<Changed>): real {
    if cs == [] then 0.0 else ChangedTotal(cs[..|cs| - 1]) + cs[|cs| - 1].DeltaMonthly()
  }

  predicate IsReplacement(before: Resource, after: Resource) {
    before.physicalId != "" && after.physicalId != "" && before.physicalId != after.physicalId
  }

  datatype Verdict = New | Replaced | Moved | Same

  function Judge(prior: Option<Resource>, r: Resource): Verdict {
    if prior.None? then New
    else if IsReplacement(prior.value, r) && r.IsRetainedOnReplacement() then Replaced
    else if prior.value.Fingerprint() != r.Fingerprint()
         || Round(prior.value.monthlyCost) != Round(r.monthlyCost)
         || IsReplacement(prior.value, r) then Moved
    else Same
  }

  // -- what the two loops collect --------------------------------------------------------

  function Extend(p: Parts, prior: Option<Resource>, r: Resource): Parts {
    match Judge(prior, r)
    case New => p.(added := p.added + [r])
    case Replaced => p.(added := p.added + [r], retained := p.retained + [prior.value])
    case Moved => p.(changed := p.changed + [Changed(prior.value, r, IsReplacement(prior.value, r))])
    case Same => p.(stayed := p.stayed + 1)
  }

  function Collect(previous: seq<Resource>, current: seq<Resource>): Parts {
    if current == [] then Parts([], [], [], [], 0)
    else
      var r := current[|current| - 1];
      Extend(Collect(previous, current[..|current| - 1]), Lookup(previous, r.logicalId), r)
  }

  function Departed(previous: seq<Resource>, current: seq<Resource>, retained: bool): seq<Resource> {
    if previous == [] then []
    else
      var r := previous[|previous| - 1];
      var front := Departed(previous[..|previous| - 1], current, retained);
      if Lookup(current, r.logicalId).None? && r.IsRetained() == retained then front + [r] else front
  }

  function Unsorted(previous: seq<Resource>, current: seq<Resource>): Parts {
    var p := Collect(previous, current);
    p.(retained := p.retained + Departed(previous, current, true), removed := Departed(previous, current, false))
  }

  // -- stable sort by logical ID ----------------------------------------------------------

  predicate LexLeq(a: string, b: string) {
    a == "" || (b != "" && (a[0] < b[0] || (a[0] == b[0] && LexLeq(a[1..], b[1..]))))
  }

  lemma {:induction false} LexTotal(a: string, b: string)
    ensures LexLeq(a, b) || LexLeq(b, a)
  {
    if a != "" && b != "" && a[0] == b[0] {
      LexTotal(a[1..], b[1..]);
    }
  }

  lemma {:induction false} LexTransitive(a: string, b: string, c: string)
    requires LexLeq(a, b) && LexLeq(b, c)
    ensures LexLeq(a, c)
  {
    if a != "" && a[0] == b[0] && b[0] == c[0] {
      LexTransitive(a[1..], b[1..], c[1..]);
    }
  }

  function InsertLast<T>(key: T -> string, sorted: seq<T>, x: T): seq<T> {
    if sorted == [] || LexLeq(key(sorted[|sorted| - 1]), key(x)) then sorted + [x]
    else InsertLast(key, sorted[..|sorted| - 1], x) + [sorted[|sorted| - 1]]
  }

  /** list.sort(key=...): equal keys keep their order. */
  function SortBy<T>(key: T -> string, xs: seq<T>): seq<T> {
    if xs == [] then [] else InsertLast(key, SortBy(key, xs[..|xs| - 1]), xs[|xs| - 1])
  }

  predicate SortedBy<T>(key: T -> string, xs: seq<T>) {
    forall i, j :: 0 <= i < j < |xs| ==> LexLeq(key(xs[i]), key(xs[j]))
  }

  lemma {:induction false} InsertLastSorts<T>(key: T -> string, sorted: seq<T>, x: T)
    requires SortedBy(key, sorted)
    ensures SortedBy(key, InsertLast(key, sorted, x))
    ensures multiset(InsertLast(key, sorted, x)) == multiset(sorted) + multiset{x}
  {
    if sorted != [] {
      var front, last := sorted[..|sorted| - 1], sorted[|sorted| - 1];
      assert sorted == front + [last];
      if LexLeq(key(last), key(x)) {
        forall i | 0 <= i < |sorted|
          ensures LexLeq(key(sorted[i]), key(x))
        {
          if i < |sorted| - 1 {
            LexTransitive(key(sorted[i]), key(last), key(x));
          }
        }
      } else {
        LexTotal(key(last), key(x));
        InsertLastSorts(key, front, x);
        var inserted := InsertLast(key, front, x);
        forall i | 0 <= i < |inserted|
          ensures LexLeq(key(inserted[i]), key(last))
        {
          assert inserted[i] in multiset(inserted);
          assert inserted[i] == x || inserted[i] in front;
        }
      }
    }
  }

  lemma {:induction false} SortBySorts<T>(key: T -> string, xs: seq<T>)
    ensures SortedBy(key, SortBy(key, xs)) && multiset(SortBy(key, xs)) == multiset(xs)
  {
    if xs != [] {
      SortBySorts(key, xs[..|xs| - 1]);
      InsertLastSorts(key, SortBy(key, xs[..|xs| - 1]), xs[|xs| - 1]);
      assert xs == xs[..|xs| - 1] + [xs[|xs| - 1]];
    }
  }

  function ResourceId(r: Resource): string {
    r.logicalId
  }

  function ChangedId(c: Changed): string {
    c.after.logicalId
  }

  function Sorted(p: Parts): Parts {
    Parts(SortBy(ResourceId, p.added), SortBy(ResourceId, p.removed), SortBy(ChangedId, p.changed),
          SortBy(ResourceId, p.retained), p.stayed)
  }

  // -- diff_snapshots ------------------------------------------------------------------------

  function ActionFor(before: Option<Snapshot>, action: Action): Action {
    if before.None? && action != CREATE then BASELINE else action
  }

  function Diff(before: Option<Snapshot>, after: Snapshot, action: Action): Delta {
    var resolved := ActionFor(before, action);
    var parts :=
      if resolved == BASELINE then Parts([], [], [], [], 0)
      else Sorted(Unsorted(ById(if before.Some? then before.value else []), ById(after)));
    Delta(resolved, before, after, parts)
  }

  /** First loop of diff_snapshots: every current resource against its predecessor. */
  method CompareCurrent(previous: seq<Resource>, current: seq<Resource>)
    returns (added: seq<Resource>, changed: seq<Changed>, retained: seq<Resource>, stayed: nat)
    ensures Parts(added, [], changed, retained, stayed) == Collect(previous, current)
  {
    added, changed, retained, stayed := [], [], [], 0;
    for i := 0 to |current|
      invariant Parts(added, [], changed, retained, stayed) == Collect(previous, current[..i])
    {
      var resource := current[i];
      var prior := Lookup(previous, resource.logicalId);
      assert current[..i + 1][..i] == current[..i];
      if prior.None? {
        added := added + [resource];
        continue;
      }
      var replacement := IsReplacement(prior.value, resource);
      if replacement && resource.IsRetainedOnReplacement() {
        added := added + [resource];
        retained := retained + [prior.value];
        continue;
      }
      var costChanged := Round(prior.value.monthlyCost) != Round(resource.monthlyCost);
      if prior.value.Fingerprint() != resource.Fingerprint() || costChanged || replacement {
        changed := changed + [Changed(prior.value, resource, replacement)];
      } else {
        stayed := stayed + 1;
      }
    }
    assert current[..|current|] == current;
  }

  /** Second loop: every previous resource that is gone was removed, or retained by its policy. */
  method CompareDeparted(previous: seq<Resource>, current: seq<Resource>)
    returns (removed: seq<Resource>, retained: seq<Resource>)
    ensures removed == Departed(previous, current, false)
    ensures retained == Departed(previous, current, true)
  {
    removed, retained := [], [];
    for i := 0 to |previous|
      invariant retained == Departed(previous[..i], current, true)
      invariant removed == Departed(previous[..i], current, false)
    {
      assert previous[..i + 1][..i] == previous[..i];
      if Lookup(current, previous[i].logicalId).Some? {
        continue;
      }
      if previous[i].IsRetained() {
        retained := retained + [previous[i]];
      } else {
        removed := removed + [previous[i]];
      }
    }
    assert previous[..|previous|] == previous;
  }

  method DiffSnapshots(before: Option<Snapshot>, after: Snapshot, action: Action) returns (delta: Delta)
    ensures delta == Diff(before, after, action)
  {
    var resolved := if before.None? && action != CREATE then BASELINE else action;
    if resolved == BASELINE {
      return Delta(resolved, before, after, Parts([], [], [], [], 0));
    }
    var previous := ById(if before.Some? then before.value else []);
    var current := ById(after);
    var added, changed, replaced, stayed := CompareCurrent(previous, current);
    var removed, retained := CompareDeparted(previous, current);
    delta := Delta(resolved, before, after,
                   Sorted(Parts(added, removed, changed, replaced + retained, stayed)));
  }

  /** Everything goes: each resource is listed once, as retained when its policy says so and as removed
      otherwise, and nothing is listed as added, changed or unchanged. */
  ghost predicate AllGone(before: Snapshot, p: Parts) {
    && p.added == [] && p.changed == [] && p.stayed == 0
    && multiset(p.removed) + multiset(p.retained) == multiset(before)
    && (forall r :: r in p.removed ==> !r.IsRetained())
    && (forall r :: r in p.retained ==> r.IsRetained())
  }

  lemma {:induction false} AllDepart(previous: seq<Resource>)
    ensures multiset(Departed(previous, [], false)) + multiset(Departed(previous, [], true)) == multiset(previous)
  {
    if previous != [] {
      AllDepart(previous[..|previous| - 1]);
      assert previous == previous[..|previous| - 1] + [previous[|previous| - 1]];
    }
  }

  lemma {:induction false} DepartByPolicy(previous: seq<Resource>, current: seq<Resource>, retained: bool)
    ensures forall r :: r in Departed(previous, current, retained) ==> r.IsRetained() == retained
  {
    if previous != [] {
      DepartByPolicy(previous[..|previous| - 1], current, retained);
    }
  }

  lemma SortedGone(before: Snapshot, p: Parts)
    requires AllGone(before, p)
    ensures AllGone(before, Sorted(p))
  {
    SortBySorts(ResourceId, p.removed);
    SortBySorts(ResourceId, p.retained);
    forall r | r in Sorted(p).removed
      ensures r in p.removed
    {
      assert r in multiset(Sorted(p).removed);
    }
    forall r | r in Sorted(p).retained
      ensures r in p.retained
    {
      assert r in multiset(Sorted(p).retained);
    }
  }

  lemma DeletionTakesAll(before: Snapshot)
    requires UniqueIds(before)
    ensures AllGone(before, Diff(Some(before), [], DELETE).parts)
  {
    ByIdUnique(before);
    AllDepart(before);
    DepartByPolicy(before, [], false);
    DepartByPolicy(before, [], true);
    var p := Unsorted(before, []);
    assert p.retained == Departed(before, [], true);
    SortedGone(before, p);
  }

  /** A deleted stack leaves an empty snapshot behind. */
  method DiffDeletion(before: Snapshot) returns (delta: Delta)
    ensures delta == Diff(Some(before), [], DELETE)
    ensures delta.action == DELETE && delta.before == Some(before) && delta.after == []
    ensures UniqueIds(before) ==> AllGone(before, delta.parts)
  {
    if UniqueIds(before) {
      DeletionTakesAll(before);
    }
    delta := DiffSnapshots(Some(before), [], DELETE);
  }
}
