/** One stack event or change set from claim to completion (src/runtime/handlers.py:277-382), on the
    real analyzer and state store: when the snapshot row may change, and what a retry reports. */
module Delivery {
  import opened Templates
  import opened Snapshots
  import opened Diffs
  import opened StateStore
  import opened Analysis
  import opened ChangeSets
  import Handler

  /** Every destination accepted the report. */
  ghost predicate AllAccepted(i: Handler.Invocation)
    reads i
  {
    forall d :: 0 <= d < i.destinations ==> Handler.Accepted(i.calls, d)
  }

  /** Skipped outcomes only commit; reported ones are published first, and a rejected report leaves
      the rows as they were. */
  method Deliver(invocation: Handler.Invocation, analyzer: Analyzer, stackId: string, outcome: AnalysisOutcome)
    returns (raised: bool)
    requires !outcome.applied && (outcome.reported ==> Handler.WasReported(invocation.calls))
    requires invocation.At(if outcome.reported && invocation.destinations > 0 then Handler.Publishing(0, false)
                           else Handler.Committing)
    modifies invocation, outcome, analyzer.store
    ensures invocation.At(if raised then Handler.Releasing else Handler.Completing)
    ensures outcome.reported && !AllAccepted(invocation) ==> raised && analyzer.store.table == old(analyzer.store.table)
    ensures !outcome.reported || AllAccepted(invocation) ==>
              Transition(analyzer.store.retentionDays, outcome.pending,
                         old(analyzer.store.RowOf(stackId)), analyzer.store.RowOf(stackId), raised)
    ensures outcome.pending.NoMutation? ==> analyzer.store.table == old(analyzer.store.table)
    ensures forall k :: k != stackId ==> analyzer.store.RowOf(k) == old(analyzer.store.RowOf(k))
  {
    if outcome.reported {
      raised := invocation.Publish();
      Handler.PhaseHistory(invocation.destinations, invocation.calls);
      if raised {
        return;
      }
    }
    raised := analyzer.Commit(stackId, outcome);
    ghost var calls := invocation.calls;
    invocation.Record(Handler.Commit(!raised));
    assert forall d :: Handler.Accepted(calls, d) ==> Handler.Accepted(invocation.calls, d);
  }

  /** From the analysis, which raised when there is no outcome, to the end of the claim. */
  method Finish(invocation: Handler.Invocation, analyzer: Analyzer, stackId: string, outcome: AnalysisOutcome?)
    returns (report: Option<Delta>, raised: bool)
    requires invocation.At(Handler.Working) && (outcome != null ==> !outcome.applied)
    modifies invocation, outcome, analyzer.store
    ensures invocation.At(Handler.Done(!raised))
    ensures report == if outcome != null && outcome.reported then outcome.delta else None
    ensures analyzer.store.RowOf(stackId) == old(analyzer.store.RowOf(stackId))
            || (outcome != null && (outcome.reported ==> AllAccepted(invocation))
                && Transition(analyzer.store.retentionDays, outcome.pending,
                              old(analyzer.store.RowOf(stackId)), analyzer.store.RowOf(stackId), raised))
    ensures !raised ==> outcome != null
                        && Transition(analyzer.store.retentionDays, outcome.pending,
                                      old(analyzer.store.RowOf(stackId)), analyzer.store.RowOf(stackId), false)
    ensures outcome == null || outcome.pending.NoMutation? ==> analyzer.store.table == old(analyzer.store.table)
    ensures forall k :: k != stackId ==> analyzer.store.RowOf(k) == old(analyzer.store.RowOf(k))
  {
    report := None;
    if outcome == null {
      invocation.Record(Handler.Analyze(Handler.Raised));
      raised := true;
    } else {
      if outcome.reported {
        report := outcome.delta;
      }
      invocation.Record(Handler.Analyze(if outcome.reported then Handler.Reported else Handler.Skipped));
      raised := Deliver(invocation, analyzer, stackId, outcome);
    }
    ghost var calls := invocation.calls;
    invocation.Record(if raised then Handler.DeleteRow else Handler.CompleteRow);
    assert forall d :: Handler.Accepted(calls, d) ==> Handler.Accepted(invocation.calls, d);
  }

  /** A stack event. `op` is None when there is nothing to report on: a nested stack counted with its
      root, or a stack or template that cannot be read. The row of the stack changes only after every
      destination accepted the report, or when there was no report to publish; and what is reported
      depends on the row found and on the event alone, so a retry after a rejected report makes the
      same report. */
  method HandleStackEvent(invocation: Handler.Invocation, analyzer: Analyzer, stackId: string, op: Option<Operation>)
    returns (report: Option<Delta>, acquired: bool, raised: bool)
    requires invocation.At(Handler.Ready)
    modifies invocation, analyzer.store
    ensures invocation.At(Handler.Done(!raised))
    ensures !acquired ==> report.None? && analyzer.store.table == old(analyzer.store.table)
    ensures acquired && !raised && op.Some? ==>
              var before := old(analyzer.store.RowOf(stackId));
              && (report.Some? <==> IsReported(analyzer.instants, before, op.value, analyzer.threshold))
              && Transition(analyzer.store.retentionDays, PendingFor(analyzer.instants, before, op.value),
                            before, analyzer.store.RowOf(stackId), false)
    ensures report.Some? ==> op.Some? && report.value == DeltaAt(old(analyzer.store.RowOf(stackId)), op.value)
    ensures var before, after := old(analyzer.store.RowOf(stackId)), analyzer.store.RowOf(stackId);
            after != before ==> op.Some? && (report.None? || AllAccepted(invocation))
                                && after == NextRow(analyzer.store.retentionDays, before, op.value)
    ensures report.None? && analyzer.store.RowOf(stackId) != old(analyzer.store.RowOf(stackId)) ==>
              Suppressed(DeltaAt(old(analyzer.store.RowOf(stackId)), op.value), analyzer.threshold)
    ensures forall k :: k != stackId ==> analyzer.store.RowOf(k) == old(analyzer.store.RowOf(k))
  {
    var claim := invocation.Claim();
    if claim != Handler.ACQUIRED {
      return None, false, claim == Handler.BUSY;
    }
    acquired := true;
    var outcome, failed := analyzer.Analyze(stackId, op);
    report, raised := Finish(invocation, analyzer, stackId, outcome);
  }

  /** A change set. `found` is None when it is unusable, cannot be read, or belongs to a nested stack;
      the analysis raises while the change set is still being computed. Estimates change no row. */
  method HandleChangeSet(invocation: Handler.Invocation, analyzer: Analyzer, stackId: string, pending: bool,
                         found: Option<(ChangeSet, Snapshot)>)
    returns (report: Option<Delta>, raised: bool)
    requires invocation.At(Handler.Ready)
    modifies invocation, analyzer.store
    ensures invocation.At(Handler.Done(!raised))
    ensures analyzer.store.table == old(analyzer.store.table)
    ensures report.Some? ==>
              !pending && found.Some?
              && report.value == EstimateAt(ContentOf(analyzer.store.RowOf(stackId)), found.value.0, found.value.1)
  {
    var claim := invocation.Claim();
    if claim != Handler.ACQUIRED {
      return None, claim == Handler.BUSY;
    }
    var outcome: AnalysisOutcome? := null;
    if !pending {
      if found.None? {
        outcome := new AnalysisOutcome(None, false, NoMutation);
      } else {
        var failed;
        outcome, failed := analyzer.AnalyzeChangeSet(stackId, found.value.0, found.value.1);
      }
    }
    report, raised := Finish(invocation, analyzer, stackId, outcome);
  }
}
