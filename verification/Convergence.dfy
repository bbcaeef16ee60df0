/** Stack events delivered in any order (src/analyzer/analyzer.py:166-349 on src/state/store.py:116-249):
    when the row ends as the latest event leaves it, and when it does not.

    The analyzer retires nothing when it finds no row. So a deletion that overtakes every deployment of
    its stack is lost, and the stack ends as a live one; in all other cases the latest event wins. Rows
    are kept after a deletion here (a positive retention), and events have times. */
module Convergence {
  import opened Templates
  import opened Snapshots
  import opened Diffs
  import opened StateStore
  import opened Analysis

  function OpTime(op: Operation): string {
    if op.Deployed? then op.after.eventTime else op.eventTime
  }

  predicate TimedOps(ops: seq<Operation>) {
    forall op :: op in ops ==> OpTime(op) != "" && (op.Deployed? ==> op.after.fits)
  }

  /** Operation i is later than all others. */
  predicate Latest(ops: seq<Operation>, i: nat) {
    i < |ops| && forall j :: 0 <= j < |ops| && j != i ==> Earlier(ops[j], ops[i])
  }

  predicate Earlier(a: Operation, b: Operation) {
    LexLeq(OpTime(a), OpTime(b)) && OpTime(a) != OpTime(b)
  }

  predicate AnyDeployed(ops: seq<Operation>) {
    exists op :: op in ops && op.Deployed?
  }

  /** The row is the outcome of this operation: its time, its flag and, for a deployment, its inventory. */
  predicate Shows(row: Row, op: Operation) {
    && row.Some? && row.value.time == At(OpTime(op)) && row.value.retired == op.Deleted?
    && (op.Deployed? ==> row.value == ItemOf(op.after))
  }

  // -- staleness by instant, guard by string ------------------------------------------------------

  /** Among these timestamps an earlier instant has a smaller string; StampOrder says so of timestamps
      of one fixed format. */
  predicate SortAsInstants(instants: Instants, times: set<string>) {
    forall a, b :: a in times && b in times && Before(instants, a, b) ==> !LexLeq(b, a)
  }

  /** The row after the operations as they are handled: a stale one changes nothing. */
  function HandledRow(instants: Instants, retentionDays: int, row: Row, ops: seq<Operation>): Row {
    if ops == [] then row
    else
      var before, op := HandledRow(instants, retentionDays, row, ops[..|ops| - 1]), ops[|ops| - 1];
      if IsStaleFor(instants, before, op) then before else NextRow(retentionDays, before, op)
  }

  predicate TimeAmong(row: Row, times: set<string>) {
    row.Some? && row.value.time.At? ==> row.value.time.stamp in times
  }

  /** The analyzer's own staleness test then skips only what the guard of the table would refuse. */
  lemma {:induction false} HandledIsFinal(instants: Instants, times: set<string>, retentionDays: int, row: Row,
                                          ops: seq<Operation>)
    requires SortAsInstants(instants, times) && TimeAmong(row, times) && retentionDays > 0
    requires TimedOps(ops) && forall op :: op in ops ==> OpTime(op) in times
    ensures HandledRow(instants, retentionDays, row, ops) == FinalRow(retentionDays, row, ops)
    ensures TimeAmong(FinalRow(retentionDays, row, ops), times)
  {
    if ops != [] {
      var front, last := ops[..|ops| - 1], ops[|ops| - 1];
      assert last in ops;
      HandledIsFinal(instants, times, retentionDays, row, front);
      FinalSnoc(retentionDays, row, ops);
    }
  }

  lemma {:induction false} FinalSnoc(retentionDays: int, row: Row, ops: seq<Operation>)
    requires ops != []
    ensures FinalRow(retentionDays, row, ops) ==
            NextRow(retentionDays, FinalRow(retentionDays, row, ops[..|ops| - 1]), ops[|ops| - 1])
    decreases |ops|
  {
    if |ops| == 1 {
      assert ops[..0] == [] && ops[1..] == [];
    } else {
      var next, front := NextRow(retentionDays, row, ops[0]), ops[..|ops| - 1];
      FinalSnoc(retentionDays, next, ops[1..]);
      assert front[1..] == ops[1..][..|ops[1..]| - 1] && front[0] == ops[0];
    }
  }

  // -- any order of delivery -----------------------------------------------------------------------

  lemma {:induction false} FinalNotAfter(retentionDays: int, row: Row, ops: seq<Operation>, t: string)
    requires retentionDays > 0 && TimedOps(ops) && NotAfter(row, t)
    requires forall op :: op in ops ==> LexLeq(OpTime(op), t)
    ensures NotAfter(FinalRow(retentionDays, row, ops), t)
  {
    if ops != [] {
      assert ops[|ops| - 1] in ops;
      FinalNotAfter(retentionDays, row, ops[..|ops| - 1], t);
      FinalSnoc(retentionDays, row, ops);
    }
  }

  lemma {:induction false} FinalExists(retentionDays: int, row: Row, ops: seq<Operation>)
    requires retentionDays > 0 && TimedOps(ops)
    ensures FinalRow(retentionDays, row, ops).Some? <==> row.Some? || AnyDeployed(ops)
  {
    if ops != [] {
      var front, last := ops[..|ops| - 1], ops[|ops| - 1];
      assert last in ops && forall op :: op in ops <==> op in front || op == last;
      FinalExists(retentionDays, row, front);
      FinalSnoc(retentionDays, row, ops);
    }
  }

  lemma LatestInFront(ops: seq<Operation>, i: nat)
    requires Latest(ops, i) && i < |ops| - 1
    ensures Latest(ops[..|ops| - 1], i) && ops[..|ops| - 1][..i] == ops[..i]
  {
  }

  /** Whatever the order of delivery, the row ends as the latest operation leaves it, unless that is a
      deletion that found no row: none to begin with, and no deployment delivered before it. */
  lemma {:induction false} LatestShowsIff(retentionDays: int, row: Row, ops: seq<Operation>, i: nat)
    requires retentionDays > 0 && TimedOps(ops) && Latest(ops, i) && NotAfter(row, OpTime(ops[i]))
    ensures Shows(FinalRow(retentionDays, row, ops), ops[i]) <==>
            row.Some? || ops[i].Deployed? || AnyDeployed(ops[..i])
    decreases |ops|
  {
    var front, last := ops[..|ops| - 1], ops[|ops| - 1];
    var before := FinalRow(retentionDays, row, front);
    assert last in ops && ops[i] in ops;
    FinalSnoc(retentionDays, row, ops);
    if i == |ops| - 1 {
      forall op | op in front
        ensures LexLeq(OpTime(op), OpTime(last))
      {
        var j :| 0 <= j < |front| && front[j] == op;
        assert ops[j] == op;
      }
      FinalNotAfter(retentionDays, row, front, OpTime(last));
      FinalExists(retentionDays, row, front);
    } else {
      LatestInFront(ops, i);
      LatestShowsIff(retentionDays, row, front, i);
      EarlierChangesNot(retentionDays, before, last, ops[i]);
    }
  }

  /** An earlier operation, delivered later, neither undoes the latest one nor makes up for its loss. */
  lemma EarlierChangesNot(retentionDays: int, before: Row, op: Operation, latest: Operation)
    requires retentionDays > 0 && Earlier(op, latest) && OpTime(op) != "" && (op.Deployed? ==> op.after.fits)
    ensures Shows(NextRow(retentionDays, before, op), latest) <==> Shows(before, latest)
    ensures Shows(before, latest) ==> NextRow(retentionDays, before, op) == before
  {
    if Shows(before, latest) && LexLeq(OpTime(latest), OpTime(op)) {
      LexAntisymmetric(OpTime(op), OpTime(latest));
      assert false;
    }
  }

  /** Two deliveries of the same operations both end as the latest leaves the row when the row exists
      or the latest is a deployment, in which case they end in the same row. */
  lemma {:induction false} DeliveriesConverge(retentionDays: int, row: Row, ops: seq<Operation>, ops': seq<Operation>,
      i: nat)
    requires retentionDays > 0 && multiset(ops) == multiset(ops') && TimedOps(ops) && Latest(ops, i)
    requires NotAfter(row, OpTime(ops[i])) && (row.Some? || ops[i].Deployed?)
    ensures Shows(FinalRow(retentionDays, row, ops), ops[i]) && Shows(FinalRow(retentionDays, row, ops'), ops[i])
    ensures ops[i].Deployed? ==> FinalRow(retentionDays, row, ops) == FinalRow(retentionDays, row, ops')
  {
    LatestShowsIff(retentionDays, row, ops, i);
    forall op | op in ops'
      ensures op in ops
    {
      assert op in multiset(ops');
    }
    var i' := LatestAgain(ops, ops', i);
    LatestShowsIff(retentionDays, row, ops', i');
  }

  lemma LatestAgain(ops: seq<Operation>, ops': seq<Operation>, i: nat) returns (i': nat)
    requires multiset(ops) == multiset(ops') && Latest(ops, i)
    ensures Latest(ops', i') && ops'[i'] == ops[i]
  {
    assert ops[i] in multiset(ops');
    i' :| i' < |ops'| && ops'[i'] == ops[i];
    forall j | 0 <= j < |ops'| && j != i'
      ensures Earlier(ops'[j], ops'[i'])
    {
      if ops'[j] == ops'[i'] {
        OnceOnly(ops, i);
        TwiceCounted(ops', i', j);
        assert false;
      }
      assert ops'[j] in multiset(ops);
      var h :| 0 <= h < |ops| && ops[h] == ops'[j];
    }
  }

  lemma OnceOnly(ops: seq<Operation>, i: nat)
    requires i < |ops| && forall j :: 0 <= j < |ops| && j != i ==> ops[j] != ops[i]
    ensures multiset(ops)[ops[i]] == 1
  {
    assert ops == ops[..i] + [ops[i]] + ops[i + 1..];
    assert ops[i] !in ops[..i] && ops[i] !in ops[i + 1..];
  }

  lemma TwiceCounted(ops: seq<Operation>, i: nat, j: nat)
    requires i < |ops| && j < |ops| && i != j && ops[i] == ops[j]
    ensures multiset(ops)[ops[i]] >= 2
  {
    var a, b := if i < j then i else j, if i < j then j else i;
    assert ops == ops[..a] + [ops[a]] + ops[a + 1..b] + [ops[b]] + ops[b + 1..];
  }

  /** The failing input: the deletion of a stack that arrives before its only deployment. Nothing is
      retired, and the late deployment then leaves the row of a live stack. */
  lemma EarlyDeletionIsLost(retentionDays: int, after: Save, action: Action, t: string)
    requires retentionDays > 0 && after.fits && after.eventTime != "" && Earlier(Deployed(after, action), Deleted(t))
    ensures FinalRow(retentionDays, None, [Deleted(t), Deployed(after, action)]) == Some(ItemOf(after))
    ensures FinalRow(retentionDays, None, [Deployed(after, action), Deleted(t)]) ==
            Some(Item(after.content, At(t), after.token, true))
  {
    var deployed, deleted := Deployed(after, action), Deleted(t);
    assert [deleted, deployed][1..] == [deployed] && [deployed, deleted][1..] == [deleted];
    assert [deployed][1..] == [] && [deleted][1..] == [];
    assert FinalRow(retentionDays, None, [deployed]) == Some(ItemOf(after));
    assert t != "";
    assert FinalRow(retentionDays, Some(ItemOf(after)), [deleted]) ==
        NextRow(retentionDays, Some(ItemOf(after)), deleted);
  }

  // -- the inventory under a retirement -----------------------------------------------------------

  /** A retired row keeps the inventory that the deletion found. */
  lemma {:induction false} RetirementKeeps(retentionDays: int, row: Row, ops: seq<Operation>, i: nat)
    requires retentionDays > 0 && TimedOps(ops) && Latest(ops, i) && ops[i].Deleted?
    requires row.Some? && NotAfter(row, OpTime(ops[i]))
    ensures FinalRow(retentionDays, row, ops).Some? && FinalRow(retentionDays, row, ops[..i]).Some?
    ensures FinalRow(retentionDays, row, ops).value.content == FinalRow(retentionDays, row, ops[..i]).value.content
    decreases |ops|
  {
    var front, last := ops[..|ops| - 1], ops[|ops| - 1];
    assert last in ops && ops[i] in ops;
    FinalSnoc(retentionDays, row, ops);
    FinalExists(retentionDays, row, ops[..i]);
    LatestShowsIff(retentionDays, row, ops, i);
    if i < |ops| - 1 {
      LatestInFront(ops, i);
      RetirementKeeps(retentionDays, row, front, i);
      LatestShowsIff(retentionDays, row, front, i);
      EarlierChangesNot(retentionDays, FinalRow(retentionDays, row, front), last, ops[i]);
    }
  }

  /** Of an existing stack's events, let i be its deletion and j the latest before that, a deployment.
      What is kept under the retirement is the inventory of j exactly when j was delivered before i, or
      the row the deletion found happened to hold the same inventory. */
  lemma {:induction false} LatestInventoryKeptIff(retentionDays: int, row: Row, ops: seq<Operation>, i: nat, j: nat)
    requires retentionDays > 0 && TimedOps(ops) && Latest(ops, i) && ops[i].Deleted?
    requires j < |ops| && j != i && ops[j].Deployed?
    requires forall m :: 0 <= m < |ops| && m != i && m != j ==> Earlier(ops[m], ops[j])
    requires row.Some? && NotAfter(row, OpTime(ops[j]))
    ensures var final, found := FinalRow(retentionDays, row, ops), FinalRow(retentionDays, row, ops[..i]);
            && final.Some? && found.Some?
            && (final.value.content == ops[j].after.content <==> j < i || found.value.content == ops[j].after.content)
  {
    assert Earlier(ops[j], ops[i]);
    if row.value.time.At? {
      LexTransitive(row.value.time.stamp, OpTime(ops[j]), OpTime(ops[i]));
    }
    RetirementKeeps(retentionDays, row, ops, i);
    if j < i {
      assert Latest(ops[..i], j);
      LatestShowsIff(retentionDays, row, ops[..i], j);
    }
  }

  /** So with one deployment and the deletion, the two orders keep the same inventory exactly when the
      deployment did not change it. */
  lemma InventoryDependsOnOrder(retentionDays: int, row: Row, after: Save, action: Action, t: string)
    requires retentionDays > 0 && after.fits && after.eventTime != "" && Earlier(Deployed(after, action), Deleted(t))
    requires row.Some? && NotAfter(row, after.eventTime)
    ensures var inOrder := FinalRow(retentionDays, row, [Deployed(after, action), Deleted(t)]);
            var overtaken := FinalRow(retentionDays, row, [Deleted(t), Deployed(after, action)]);
            && inOrder.Some? && overtaken.Some?
            && (inOrder.value.content == overtaken.value.content <==> row.value.content == after.content)
  {
    var deployed, deleted := Deployed(after, action), Deleted(t);
    var a, b := [deployed, deleted], [deleted, deployed];
    assert t != "";
    assert TimedOps(a) && TimedOps(b);
    assert Latest(a, 1) && Latest(b, 0);
    LatestInventoryKeptIff(retentionDays, row, a, 1, 0);
    LatestInventoryKeptIff(retentionDays, row, b, 0, 1);
    assert b[..0] == [];
    if row.value.time.At? {
      LexTransitive(row.value.time.stamp, after.eventTime, t);
    }
    RetirementKeeps(retentionDays, row, b, 0);
  }
}
