/** Which list of a report a resource appears in, read off the two snapshots
    (src/state/diff.py:361-442): what counts as changed, replaced, unchanged, new, removed or retained. */
module ReportLists {
  import opened Templates
  import opened Money
  import opened Snapshots
  import opened Diffs
  import opened Reconciliation
  import opened ChangeSets

  /** Both physical IDs are known, and they differ. */
  predicate IdentityChanged(p: Resource, r: Resource) {
    p.physicalId != "" && r.physicalId != "" && p.physicalId != r.physicalId
  }

  /** Another set of priced components, a cost that rounds to another cent, or another identity. */
  predicate Differs(p: Resource, r: Resource) {
    || multiset(p.components) != multiset(r.components)
    || Round(p.monthlyCost) != Round(r.monthlyCost)
    || IdentityChanged(p, r)
  }

  /** Replaced under a policy that leaves the old physical resource in place. */
  predicate LeftInPlace(p: Resource, r: Resource) {
    IdentityChanged(p, r) && IsRetainPolicy(r.updateReplacePolicy)
  }

  predicate HasId(rs: seq<Resource>, id: string) {
    exists r :: r in rs && r.logicalId == id
  }

  // -- what the loops collect, by membership -----------------------------------------------------

  lemma LookupMember(rs: seq<Resource>, r: Resource)
    requires UniqueIds(rs) && r in rs
    ensures Lookup(rs, r.logicalId) == Some(r)
  {
    var i :| 0 <= i < |rs| && rs[i] == r;
    var j := IndexOf(rs, r.logicalId);
    assert j <= i;
  }

  lemma LookupNone(rs: seq<Resource>, id: string)
    ensures Lookup(rs, id).None? <==> !HasId(rs, id)
  {
    var i := IndexOf(rs, id);
    if i < |rs| {
      assert rs[i] in rs;
    }
  }

  function VerdictOf(previous: seq<Resource>, r: Resource): Verdict {
    Judge(Lookup(previous, r.logicalId), r)
  }

  lemma {:induction false} CollectedAdded(previous: seq<Resource>, current: seq<Resource>, x: Resource)
    ensures x in Collect(previous, current).added <==>
            x in current && VerdictOf(previous, x) in {New, Replaced}
  {
    if current != [] {
      var front, last := current[..|current| - 1], current[|current| - 1];
      CollectedAdded(previous, front, x);
      assert x in current <==> x in front || x == last;
    }
  }

  lemma {:induction false} CollectedChanged(previous: seq<Resource>, current: seq<Resource>, c: Changed)
    ensures c in Collect(previous, current).changed <==>
            && c.after in current && VerdictOf(previous, c.after) == Moved
            && c == Changed(Lookup(previous, c.after.logicalId).value, c.after,
                            IsReplacement(Lookup(previous, c.after.logicalId).value, c.after))
  {
    if current != [] {
      var front, last := current[..|current| - 1], current[|current| - 1];
      CollectedChanged(previous, front, c);
      assert c.after in current <==> c.after in front || c.after == last;
    }
  }

  ghost predicate ReplacedIn(previous: seq<Resource>, current: seq<Resource>, x: Resource) {
    exists r :: r in current && VerdictOf(previous, r) == Replaced && Lookup(previous, r.logicalId) == Some(x)
  }

  lemma {:induction false} CollectedRetained(previous: seq<Resource>, current: seq<Resource>, x: Resource)
    ensures x in Collect(previous, current).retained <==> ReplacedIn(previous, current, x)
  {
    if current != [] {
      var front, last := current[..|current| - 1], current[|current| - 1];
      CollectedRetained(previous, front, x);
      assert forall r :: r in current <==> r in front || r == last;
    }
  }

  lemma {:induction false} DepartedMembers(previous: seq<Resource>, current: seq<Resource>, retained: bool, x: Resource)
    ensures x in Departed(previous, current, retained) <==>
            x in previous && !HasId(current, x.logicalId) && IsRetainPolicy(x.deletionPolicy) == retained
  {
    if previous != [] {
      var front, last := previous[..|previous| - 1], previous[|previous| - 1];
      DepartedMembers(front, current, retained, x);
      LookupNone(current, last.logicalId);
      assert x in previous <==> x in front || x == last;
    }
  }

  lemma SameMembers<T>(key: T -> string, xs: seq<T>, x: T)
    ensures x in SortBy(key, xs) <==> x in xs
  {
    SortBySorts(key, xs);
    assert x in multiset(SortBy(key, xs)) <==> x in multiset(xs);
  }

  // -- the lists of a report -------------------------------------------------------------------------

  lemma PartsOf(before: Snapshot, after: Snapshot, action: Action)
    requires UniqueIds(before) && UniqueIds(after) && action != BASELINE
    ensures Diff(Some(before), after, action).parts == Sorted(Unsorted(before, after))
  {
    ByIdUnique(before);
    ByIdUnique(after);
  }

  /** The judgement that the first loop makes, in terms of the two resources. */
  lemma VerdictIs(before: Snapshot, p: Resource, r: Resource)
    requires UniqueIds(before) && p in before && p.logicalId == r.logicalId
    ensures Lookup(before, r.logicalId) == Some(p)
    ensures VerdictOf(before, r) ==
            if LeftInPlace(p, r) then Replaced else if Differs(p, r) then Moved else Same
  {
    LookupMember(before, p);
  }

  /** A resource in both snapshots is listed as changed exactly when it differs, unless its predecessor
      is left in place; the flag says whether its identity changed. */
  lemma ChangedIff(before: Snapshot, after: Snapshot, action: Action, p: Resource, r: Resource, replacement: bool)
    requires UniqueIds(before) && UniqueIds(after) && action != BASELINE
    requires p in before && r in after && p.logicalId == r.logicalId
    ensures Changed(p, r, replacement) in Diff(Some(before), after, action).parts.changed <==>
            Differs(p, r) && !LeftInPlace(p, r) && replacement == IdentityChanged(p, r)
  {
    var c := Changed(p, r, replacement);
    PartsOf(before, after, action);
    VerdictIs(before, p, r);
    CollectedChanged(before, after, c);
    SameMembers(ChangedId, Collect(before, after).changed, c);
  }

  /** A current resource is listed as added exactly when it is new or its predecessor is left in place. */
  lemma AddedIff(before: Snapshot, after: Snapshot, action: Action, r: Resource)
    requires UniqueIds(before) && UniqueIds(after) && action != BASELINE && r in after
    ensures r in Diff(Some(before), after, action).parts.added <==>
            !HasId(before, r.logicalId) || exists p :: p in before && p.logicalId == r.logicalId && LeftInPlace(p, r)
  {
    PartsOf(before, after, action);
    CollectedAdded(before, after, r);
    SameMembers(ResourceId, Collect(before, after).added, r);
    LookupNone(before, r.logicalId);
    if HasId(before, r.logicalId) {
      var p :| p in before && p.logicalId == r.logicalId;
      VerdictIs(before, p, r);
      forall q | q in before && q.logicalId == r.logicalId
        ensures q == p
      {
        LookupMember(before, q);
        LookupMember(before, p);
      }
    }
  }

  /** A previous resource is listed as retained exactly when its policy keeps it: it left the stack under a
      retaining deletion policy, or was replaced under a retaining update policy. */
  lemma RetainedIff(before: Snapshot, after: Snapshot, action: Action, p: Resource)
    requires UniqueIds(before) && UniqueIds(after) && action != BASELINE && p in before
    ensures p in Diff(Some(before), after, action).parts.retained <==>
            || (!HasId(after, p.logicalId) && IsRetainPolicy(p.deletionPolicy))
            || exists r :: r in after && r.logicalId == p.logicalId && LeftInPlace(p, r)
  {
    PartsOf(before, after, action);
    var replaced, departed := Collect(before, after).retained, Departed(before, after, true);
    SameMembers(ResourceId, replaced + departed, p);
    CollectedRetained(before, after, p);
    DepartedMembers(before, after, true, p);
    forall r | r in after && r.logicalId == p.logicalId
      ensures VerdictOf(before, r) == Replaced <==> LeftInPlace(p, r)
      ensures Lookup(before, r.logicalId) == Some(p)
    {
      VerdictIs(before, p, r);
    }
    if ReplacedIn(before, after, p) {
      var r :| r in after && VerdictOf(before, r) == Replaced && Lookup(before, r.logicalId) == Some(p);
      assert r.logicalId == p.logicalId;
    }
  }

  /** It is listed as removed exactly when it left the stack and its policy does not keep it. */
  lemma RemovedIff(before: Snapshot, after: Snapshot, action: Action, p: Resource)
    requires UniqueIds(before) && UniqueIds(after) && action != BASELINE && p in before
    ensures p in Diff(Some(before), after, action).parts.removed <==>
            !HasId(after, p.logicalId) && !IsRetainPolicy(p.deletionPolicy)
  {
    PartsOf(before, after, action);
    DepartedMembers(before, after, false, p);
    SameMembers(ResourceId, Departed(before, after, false), p);
  }

  /** The IDs that are in both snapshots with nothing about them different. */
  function Unaltered(before: Snapshot, after: Snapshot): set<string> {
    set p, r | p in before && r in after && p.logicalId == r.logicalId && !Differs(p, r) :: r.logicalId
  }

  /** `unchanged` counts them. */
  lemma UnchangedCounts(before: Snapshot, after: Snapshot, action: Action)
    requires UniqueIds(before) && UniqueIds(after) && action != BASELINE
    ensures Diff(Some(before), after, action).parts.stayed == |Unaltered(before, after)|
  {
    PartsOf(before, after, action);
    StayedCounts(before, after);
  }

  lemma {:induction false} StayedCounts(before: Snapshot, after: Snapshot)
    requires UniqueIds(before) && UniqueIds(after)
    ensures Collect(before, after).stayed == |Unaltered(before, after)|
  {
    if after == [] {
      assert Unaltered(before, after) == {};
    } else {
      var front, last := after[..|after| - 1], after[|after| - 1];
      StayedCounts(before, front);
      OneMore(before, after);
    }
  }

  lemma OnlyOne(rs: seq<Resource>, p: Resource)
    requires UniqueIds(rs) && p in rs
    ensures forall q :: q in rs && q.logicalId == p.logicalId ==> q == p
  {
    forall q | q in rs && q.logicalId == p.logicalId
      ensures q == p
    {
      LookupMember(rs, q);
      LookupMember(rs, p);
    }
  }

  lemma OneMore(before: Snapshot, after: Snapshot)
    requires UniqueIds(before) && UniqueIds(after) && after != []
    ensures var front, last := after[..|after| - 1], after[|after| - 1];
            |Unaltered(before, after)| == |Unaltered(before, front)| + if VerdictOf(before, last) == Same then 1 else 0
  {
    var front, last := after[..|after| - 1], after[|after| - 1];
    assert forall r :: r in after <==> r in front || r == last;
    forall r | r in front
      ensures r.logicalId != last.logicalId
    {
      var i :| 0 <= i < |front| && front[i] == r;
      assert after[i] == front[i];
    }
    LookupNone(before, last.logicalId);
    if HasId(before, last.logicalId) {
      var p :| p in before && p.logicalId == last.logicalId;
      VerdictIs(before, p, last);
      OnlyOne(before, p);
      assert Unaltered(before, after) == Unaltered(before, front) + if Differs(p, last) then {} else {last.logicalId};
    } else {
      assert Unaltered(before, after) == Unaltered(before, front);
    }
  }

  /** A created stack without history reports everything as added. */
  lemma CreatedIsAdded(after: Snapshot, r: Resource)
    requires UniqueIds(after)
    ensures var parts := Diff(None, after, CREATE).parts;
            && (r in parts.added <==> r in after)
            && parts.changed == [] && parts.removed == [] && parts.retained == [] && parts.stayed == 0
  {
    ByIdUnique(after);
    AllNew(after);
    SameMembers(ResourceId, after, r);
  }

  lemma {:induction false} AllNew(after: seq<Resource>)
    ensures Collect([], after) == Parts(after, [], [], [], 0)
  {
    if after != [] {
      AllNew(after[..|after| - 1]);
      assert after == after[..|after| - 1] + [after[|after| - 1]];
    }
  }

  /** The estimate of a change set on a stack without stored history: if the stack was never deployed,
      everything is new and the change is its total; otherwise it is a baseline, which lists nothing. */
  lemma FirstEstimate(c: ChangeSet, proposed: Snapshot, r: Resource)
    requires UniqueIds(proposed) && UnpricedIsFree(proposed)
    ensures var d := EstimateAt(None, c, proposed);
            if c.neverDeployed then d.Net() == TotalOf(proposed) && (r in d.parts.added <==> r in Marked(c, proposed))
            else d.action == BASELINE && d.parts == Parts([], [], [], [], 0)
  {
    if c.neverDeployed {
      MarkedKeeps(c, proposed);
      MarkedTotal(c, proposed);
      CreatedIsAdded(Marked(c, proposed), r);
      ReconciliationBound(None, Marked(c, proposed), CREATE);
    }
  }

  // -- what a retaining policy is ---------------------------------------------------------------

  predicate AllSpace(s: string) {
    forall c :: c in s ==> IsSpace(c)
  }

  /** A policy retains when, without the white space around it and in lower case, it reads "retain". */
  lemma RetainPolicies(left: string, word: string, right: string)
    requires AllSpace(left) && AllSpace(right)
    requires word != "" && !IsSpace(word[0]) && !IsSpace(word[|word| - 1])
    ensures IsRetainPolicy(left + word + right) <==> Lower(word) == "retain"
  {
    assert left + word + right == left + (word + right);
    StripsLeft(left, word + right);
    StripsRight(word, right);
  }

  lemma {:induction false} StripsLeft(left: string, rest: string)
    requires AllSpace(left) && rest != "" && !IsSpace(rest[0])
    ensures StripLeft(left + rest) == rest
  {
    if left == "" {
      assert left + rest == rest;
    } else {
      assert (left + rest)[0] == left[0] && left[0] in left && (left + rest)[1..] == left[1..] + rest;
      StripsLeft(left[1..], rest);
    }
  }

  lemma {:induction false} StripsRight(word: string, right: string)
    requires AllSpace(right) && word != "" && !IsSpace(word[|word| - 1])
    ensures StripRight(word + right) == word
    decreases |right|
  {
    var s, n := word + right, |right|;
    if right == "" {
      assert s == word;
    } else {
      assert s[|s| - 1] == right[n - 1] && right[n - 1] in right && s[..|s| - 1] == word + right[..n - 1];
      StripsRight(word, right[..n - 1]);
    }
  }
}
