/** Which events are reported, and how much a history of reports leaves out (src/analyzer/analyzer.py:166-349,
    src/state/diff.py:266-300). */
module Reports {
  import opened Templates
  import opened Money
  import opened Snapshots
  import opened Diffs
  import opened Reconciliation
  import opened StateStore
  import opened Analysis
  import opened Convergence

  // -- events that came too late -----------------------------------------------------------------

  /** Some deployment was delivered at or before i, so there was a row for operation i to work on. */
  ghost predicate Effective(ops: seq<Operation>, i: nat) {
    i < |ops| && exists h: nat :: h <= i && ops[h].Deployed?
  }

  ghost predicate Dated(instants: Instants, ops: seq<Operation>) {
    && TimedOps(ops)
    && (forall op :: op in ops ==> instants(OpTime(op)).Some?)
    && SortAsInstants(instants, set op | op in ops :: OpTime(op))
  }

  /** The row carries the time of an operation that no effective one is later than. */
  ghost predicate LatestTime(instants: Instants, row: Row, ops: seq<Operation>) {
    && (row.None? ==> forall i: nat :: !Effective(ops, i))
    && (row.Some? ==>
          && row.value.time.At?
          && (exists i: nat :: Effective(ops, i) && OpTime(ops[i]) == row.value.time.stamp)
          && (forall i: nat :: Effective(ops, i) ==> !Before(instants, row.value.time.stamp, OpTime(ops[i]))))
  }

  lemma EffectiveNext(front: seq<Operation>, last: Operation)
    ensures forall i: nat :: i < |front| ==> (Effective(front + [last], i) <==> Effective(front, i))
    ensures Effective(front + [last], |front|) <==> last.Deployed? || exists i: nat :: Effective(front, i)
  {
    var ops := front + [last];
    forall i: nat | i < |front|
      ensures Effective(ops, i) <==> Effective(front, i)
    {
      assert forall h: nat :: h <= i ==> ops[h] == front[h];
    }
    if Effective(ops, |front|) && !last.Deployed? {
      var h: nat :| h <= |front| && ops[h].Deployed?;
      assert front[h].Deployed?;
      assert Effective(front, h);
    }
    if i: nat :| Effective(front, i) {
      var h: nat :| h <= i && front[h].Deployed?;
      assert ops[h].Deployed?;
    }
    assert ops[|front|] == last;
  }

  lemma {:induction false} HandledTime(instants: Instants, retentionDays: int, ops: seq<Operation>)
    requires retentionDays > 0 && Dated(instants, ops)
    ensures LatestTime(instants, HandledRow(instants, retentionDays, None, ops), ops)
  {
    if ops != [] {
      var front, last := ops[..|ops| - 1], ops[|ops| - 1];
      assert ops == front + [last] && last in ops;
      HandledTime(instants, retentionDays, front);
      EffectiveNext(front, last);
      HandledTimeNext(instants, retentionDays, HandledRow(instants, retentionDays, None, front), front, last);
    }
  }

  lemma HandledTimeNext(instants: Instants, retentionDays: int, row: Row, front: seq<Operation>, last: Operation)
    requires retentionDays > 0 && Dated(instants, front + [last]) && LatestTime(instants, row, front)
    ensures LatestTime(instants, if IsStaleFor(instants, row, last) then row else NextRow(retentionDays, row, last),
                       front + [last])
  {
    var ops := front + [last];
    var next := if IsStaleFor(instants, row, last) then row else NextRow(retentionDays, row, last);
    assert ops[|front|] == last && last in ops;
    EffectiveNext(front, last);
    if row.None? {
      assert next.Some? <==> last.Deployed?;
      assert next.Some? ==> Effective(ops, |front|) && next.value.time == At(OpTime(last));
    } else {
      var i: nat :| Effective(front, i) && OpTime(front[i]) == row.value.time.stamp;
      assert front[i] in ops && ops[i] == front[i] && Effective(ops, i) && Effective(ops, |front|);
      RowTimeNext(instants, retentionDays, row, last, set op | op in ops :: OpTime(op));
      forall k: nat | Effective(ops, k)
        ensures !Before(instants, next.value.time.stamp, OpTime(ops[k]))
      {
        assert ops[k] in ops && (k < |front| ==> ops[k] == front[k] && Effective(front, k));
      }
    }
  }

  /** The row keeps its time or takes the operation's, whichever denotes the later instant. */
  lemma RowTimeNext(instants: Instants, retentionDays: int, row: Row, op: Operation, times: set<string>)
    requires retentionDays > 0 && row.Some? && row.value.time.At? && OpTime(op) != ""
    requires op.Deployed? ==> op.after.fits
    requires SortAsInstants(instants, times) && OpTime(op) in times && row.value.time.stamp in times
    ensures var next := if IsStaleFor(instants, row, op) then row else NextRow(retentionDays, row, op);
            && next.Some? && next.value.time.At?
            && next.value.time.stamp in {row.value.time.stamp, OpTime(op)}
            && !Before(instants, next.value.time.stamp, row.value.time.stamp)
            && !Before(instants, next.value.time.stamp, OpTime(op))
  {
    LexTotal(row.value.time.stamp, OpTime(op));
  }

  /** An event is passed over exactly when one that denotes a later instant was delivered before it and
      had a row to work on, which every deployment has and a deletion has after some deployment. */
  lemma PassedOverIff(instants: Instants, retentionDays: int, ops: seq<Operation>, j: nat)
    requires retentionDays > 0 && Dated(instants, ops) && j < |ops|
    ensures IsStaleFor(instants, HandledRow(instants, retentionDays, None, ops[..j]), ops[j]) <==>
            exists i: nat :: i < j && Effective(ops, i) && Before(instants, OpTime(ops[j]), OpTime(ops[i]))
  {
    DatedPrefix(instants, ops, j);
    HandledTime(instants, retentionDays, ops[..j]);
    StaleIff(instants, HandledRow(instants, retentionDays, None, ops[..j]), ops, j);
  }

  lemma DatedPrefix(instants: Instants, ops: seq<Operation>, j: nat)
    requires Dated(instants, ops) && j <= |ops|
    ensures Dated(instants, ops[..j])
  {
    var all, some := set op | op in ops :: OpTime(op), set op | op in ops[..j] :: OpTime(op);
    assert some <= all;
  }

  lemma EffectivePrefix(ops: seq<Operation>, i: nat, j: nat)
    requires i < j <= |ops|
    ensures Effective(ops, i) <==> Effective(ops[..j], i)
    ensures ops[..j][i] == ops[i] && ops[i] in ops
  {
    assert forall h: nat :: h <= i ==> ops[..j][h] == ops[h];
  }

  lemma StaleIff(instants: Instants, row: Row, ops: seq<Operation>, j: nat)
    requires Dated(instants, ops) && j < |ops| && LatestTime(instants, row, ops[..j])
    ensures IsStaleFor(instants, row, ops[j]) <==>
            exists i: nat :: i < j && Effective(ops, i) && Before(instants, OpTime(ops[j]), OpTime(ops[i]))
  {
    if IsStaleFor(instants, row, ops[j]) {
      var i: nat :| Effective(ops[..j], i) && OpTime(ops[..j][i]) == row.value.time.stamp;
      EffectivePrefix(ops, i, j);
    }
    if i: nat :| i < j && Effective(ops, i) && Before(instants, OpTime(ops[j]), OpTime(ops[i])) {
      EffectivePrefix(ops, i, j);
      LaterMakesStale(instants, row, ops, i, j);
    }
  }

  lemma LaterMakesStale(instants: Instants, row: Row, ops: seq<Operation>, i: nat, j: nat)
    requires Dated(instants, ops) && i < j < |ops| && LatestTime(instants, row, ops[..j])
    requires Effective(ops[..j], i) && Before(instants, OpTime(ops[j]), OpTime(ops[i]))
    ensures IsStaleFor(instants, row, ops[j])
  {
    var h: nat :| Effective(ops[..j], h) && OpTime(ops[..j][h]) == row.value.time.stamp;
    assert ops[..j][h] == ops[h] && ops[h] in ops && ops[..j][i] == ops[i];
    assert !Before(instants, row.value.time.stamp, OpTime(ops[..j][i]));
  }

  // -- what is reported ----------------------------------------------------------------------------

  /** An event that is not passed over goes unreported exactly when it is a deployment on a known stack,
      or a creation, that moved the bill by less than a positive threshold and adds up to the cent. */
  lemma UnreportedIff(instants: Instants, row: Row, op: Operation, threshold: real)
    requires !IsStaleFor(instants, row, op)
    ensures !IsReported(instants, row, op, threshold) <==>
            && op.Deployed? && op.action != BASELINE && (row.Some? || op.action == CREATE)
            && -threshold < DeltaAt(row, op).Net() < threshold
            && DeltaAt(row, op).Reconciles()
  {
  }

  /** Which operations of a history are reported. */
  function Flags(instants: Instants, retentionDays: int, row: Row, ops: seq<Operation>, threshold: real): seq<bool>
    decreases |ops|
  {
    if ops == [] then []
    else
      [IsReported(instants, row, ops[0], threshold)]
      + Flags(instants, retentionDays, NextRow(retentionDays, row, ops[0]), ops[1..], threshold)
  }

  /** What the reports say in sum. */
  function ReportedNet(ds: seq<Delta>, flags: seq<bool>): real
    requires |ds| == |flags|
  {
    if ds == [] then 0.0 else (if flags[0] then ds[0].Net() else 0.0) + ReportedNet(ds[1..], flags[1..])
  }

  function UnreportedCount(flags: seq<bool>): nat {
    if flags == [] then 0 else (if flags[0] then 0 else 1) + UnreportedCount(flags[1..])
  }

  /** Only small changes go unreported. */
  predicate SmallHidden(ds: seq<Delta>, flags: seq<bool>, threshold: real)
    requires |ds| == |flags|
  {
    forall i :: 0 <= i < |ds| && !flags[i] ==> -threshold < ds[i].Net() < threshold
  }

  lemma {:induction false} FlagsFit(instants: Instants, retentionDays: int, row: Row, ops: seq<Operation>,
                                    threshold: real)
    requires InOrder(instants, retentionDays, row, ops)
    ensures |Deltas(retentionDays, row, ops)| == |Flags(instants, retentionDays, row, ops, threshold)| == |ops|
    ensures SmallHidden(Deltas(retentionDays, row, ops), Flags(instants, retentionDays, row, ops, threshold), threshold)
    decreases |ops|
  {
    if ops != [] {
      var next := NextRow(retentionDays, row, ops[0]);
      HeadBounded(instants, retentionDays, row, ops, threshold);
      FlagsFit(instants, retentionDays, next, ops[1..], threshold);
      ConsHidden(DeltaAt(row, ops[0]), IsReported(instants, row, ops[0], threshold),
                 Deltas(retentionDays, next, ops[1..]),
                 Flags(instants, retentionDays, next, ops[1..], threshold), threshold);
    }
  }

  lemma ConsHidden(d: Delta, flag: bool, ds: seq<Delta>, flags: seq<bool>, threshold: real)
    requires |ds| == |flags| && SmallHidden(ds, flags, threshold)
    requires !flag ==> -threshold < d.Net() < threshold
    ensures SmallHidden([d] + ds, [flag] + flags, threshold)
  {
  }

  lemma HeadBounded(instants: Instants, retentionDays: int, row: Row, ops: seq<Operation>, threshold: real)
    requires ops != [] && InOrder(instants, retentionDays, row, ops)
    ensures InOrder(instants, retentionDays, NextRow(retentionDays, row, ops[0]), ops[1..])
    ensures !IsReported(instants, row, ops[0], threshold) ==> -threshold < DeltaAt(row, ops[0]).Net() < threshold
  {
    UnreportedIff(instants, row, ops[0], threshold);
  }

  /** a and b are no further apart than n thresholds. */
  predicate Within(a: real, b: real, threshold: real, n: nat) {
    Abs(a - b) <= threshold * n as real
  }

  lemma WithinNext(a: real, b: real, threshold: real, n: nat, net: real)
    requires Within(a, b, threshold, n)
    ensures Within(net + a, net + b, threshold, 0 + n)
    ensures -threshold < net < threshold ==> Within(net + a, 0.0 + b, threshold, 1 + n)
  {
    assert threshold * (1 + n) as real == threshold + threshold * n as real;
  }

  lemma {:induction false} Hidden(ds: seq<Delta>, flags: seq<bool>, threshold: real)
    requires |ds| == |flags| && SmallHidden(ds, flags, threshold)
    ensures Within(NetSum(ds), ReportedNet(ds, flags), threshold, UnreportedCount(flags))
  {
    if ds != [] {
      Hidden(ds[1..], flags[1..], threshold);
      WithinNext(NetSum(ds[1..]), ReportedNet(ds[1..], flags[1..]), threshold, UnreportedCount(flags[1..]),
                 ds[0].Net());
    }
  }

  /** a and b are no further apart than n times x plus m times y. */
  predicate WithinBoth(a: real, b: real, x: real, n: nat, y: real, m: nat) {
    Abs(a - b) <= x * n as real + y * m as real
  }

  lemma Triangle(a: real, b: real, c: real, n: nat, threshold: real, m: nat)
    requires Within(b, a, threshold, m) && Within(b, c, 0.01, n)
    ensures WithinBoth(a, c, 0.01, n, threshold, m)
  {
  }

  /** What was published over a whole history adds up to the change of the total plus everything
      retained, within a cent per unchanged resource per step and the threshold per unreported step. */
  lemma ReportsExplain(instants: Instants, retentionDays: int, row: Row, ops: seq<Operation>, threshold: real)
    requires row.Some? && !row.value.retired && GoodSnapshot(row.value.content)
        && InOrder(instants, retentionDays, row, ops)
    ensures var ds, flags := Deltas(retentionDays, row, ops), Flags(instants, retentionDays, row, ops, threshold);
            var change := TotalIn(FinalRow(retentionDays, row, ops)) - TotalIn(row) + RetainedSum(ds);
            && |ds| == |flags| == |ops|
            && WithinBoth(ReportedNet(ds, flags), change, 0.01, UnchangedSum(ds), threshold, UnreportedCount(flags))
  {
    var ds, flags := Deltas(retentionDays, row, ops), Flags(instants, retentionDays, row, ops, threshold);
    FlagsFit(instants, retentionDays, row, ops, threshold);
    HistoryConserves(instants, retentionDays, row, ops);
    Hidden(ds, flags, threshold);
    Triangle(ReportedNet(ds, flags), NetSum(ds),
             TotalIn(FinalRow(retentionDays, row, ops)) - TotalIn(row) + RetainedSum(ds), UnchangedSum(ds),
             threshold, UnreportedCount(flags));
  }
}
