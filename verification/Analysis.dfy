/** From a stack event to a report and a pending state transition (src/analyzer/analyzer.py), and
    what the reports of a whole history add up to. */
module Analysis {
  import opened Templates
  import opened Money
  import opened Snapshots
  import opened Diffs
  import opened Reconciliation
  import opened StateStore
  import opened ChangeSets

  datatype Pending = NoMutation | PendingSnapshot(save: Save) | PendingRetirement(eventTime: string)

  /** A decision, and the state mutation to apply once its report was accepted. */
  class AnalysisOutcome {
    const delta: Option<Delta>
    const reported: bool
    const pending: Pending
    var applied: bool

    constructor (delta: Option<Delta>, reported: bool, pending: Pending)
      ensures this.delta == delta && this.reported == reported && this.pending == pending && !applied
    {
      this.delta, this.reported, this.pending := delta, reported, pending;
      applied := false;
    }
  }

  function ContentOf(row: Row): Option<Snapshot> {
    if row.Some? then Some(row.value.content) else None
  }

  /** The point in time that a timestamp denotes, if it can be parsed. */
  type Instants = string -> Option<int>

  predicate Before(instants: Instants, a: string, b: string) {
    a != "" && b != "" && instants(a).Some? && instants(b).Some? && instants(a).value < instants(b).value
  }

  /** An event older than the snapshot already stored; an absent or unreadable time is never stale. */
  predicate IsStale(instants: Instants, eventTime: string, row: Row) {
    row.Some? && row.value.time.At? && Before(instants, eventTime, row.value.time.stamp)
  }

  predicate Suppressed(d: Delta, threshold: real) {
    threshold > 0.0 && Abs(d.Net()) < threshold && d.action != BASELINE && d.Reconciles()
  }

  /** What committing a pending transition does to the row: all of it, or nothing; when it returns
      normally the transition took effect, or for a snapshot, the row is as recent already. */
  predicate Transition(retentionDays: int, p: Pending, before: Row, after: Row, raised: bool) {
    match p
    case NoMutation => after == before
    case PendingSnapshot(save) =>
      && (after == before || after == ApplySave(before, save))
      && (!raised ==> after == ApplySave(before, save) || NotBefore(after, save.eventTime))
    case PendingRetirement(t) =>
      && (after == before || after == Retired(retentionDays, before, t))
      && (!raised ==> after == Retired(retentionDays, before, t))
  }

  /** One operation on the stack: a deployment with the inventory found after it, or its deletion. */
  datatype Operation = Deployed(after: Save, action: Action) | Deleted(eventTime: string)

  /** What the operation is reported as, against the row it finds. */
  function DeltaAt(row: Row, op: Operation): Delta {
    match op
    case Deployed(after, action) => Diff(ContentOf(row), after.content, action)
    case Deleted(_) => Diff(Some(if row.Some? then row.value.content else []), [], DELETE)
  }

  /** The row it leaves once committed. */
  function NextRow(retentionDays: int, row: Row, op: Operation): Row {
    match op
    case Deployed(after, _) => ApplySave(row, after)
    case Deleted(t) => if row.None? then row else Retired(retentionDays, row, t)
  }

  predicate IsStaleFor(instants: Instants, row: Row, op: Operation) {
    match op
    case Deployed(after, _) => IsStale(instants, after.eventTime, row)
    case Deleted(t) => IsStale(instants, t, row)
  }

  /** The transition to commit after the report: none for a stale event or an unknown deleted stack. */
  function PendingFor(instants: Instants, row: Row, op: Operation): Pending {
    if IsStaleFor(instants, row, op) then NoMutation
    else match op
      case Deployed(after, _) => PendingSnapshot(after)
      case Deleted(t) => if row.None? then NoMutation else PendingRetirement(t)
  }

  /** A stale event is never reported, a deletion otherwise always, a deployment unless it is below
      the threshold. */
  predicate IsReported(instants: Instants, row: Row, op: Operation, threshold: real) {
    !IsStaleFor(instants, row, op) && (op.Deployed? ==> !Suppressed(DeltaAt(row, op), threshold))
  }

  class Analyzer {
    const store: DynamoStateStore
    const threshold: real
    const instants: Instants

    constructor (store: DynamoStateStore, threshold: real, instants: Instants)
      ensures this.store == store && this.threshold == threshold && this.instants == instants
    {
      this.store, this.threshold, this.instants := store, threshold, instants;
    }

    /** Reported or suppressed, the snapshot left pending is the one the delta was computed with;
        the analysis itself changes no row. */
    method AnalyzeCurrentState(stackId: string, after: Save, action: Action)
      returns (outcome: AnalysisOutcome?, raised: bool)
      modifies store`loadFailures
      ensures raised <==> outcome == null
      ensures outcome != null ==> fresh(outcome) && !outcome.applied
      ensures outcome != null ==>
                if IsStale(instants, after.eventTime, store.RowOf(stackId)) then
                  outcome.delta == None && !outcome.reported && outcome.pending == NoMutation
                else
                  && outcome.delta == Some(Diff(ContentOf(store.RowOf(stackId)), after.content, action))
                  && outcome.pending == PendingSnapshot(after)
                  && outcome.reported == !Suppressed(outcome.delta.value, threshold)
    {
      var row: Row;
      row, raised := store.Load(stackId);
      if raised {
        return null, true;
      }
      if IsStale(instants, after.eventTime, row) {
        outcome := new AnalysisOutcome(None, false, NoMutation);
        return outcome, false;
      }
      var delta := DiffSnapshots(ContentOf(row), after.content, action);
      var belowThreshold := threshold > 0.0 && Abs(delta.Net()) < threshold;
      var skipped := belowThreshold && delta.action != BASELINE && delta.Reconciles();
      outcome := new AnalysisOutcome(Some(delta), !skipped, PendingSnapshot(after));
    }

    /** A deletion is reported against the stored inventory; without history it is reported with an
        unknown prior cost and changes nothing. */
    method AnalyzeDeletion(stackId: string, eventTime: string)
      returns (outcome: AnalysisOutcome?, raised: bool)
      modifies store`loadFailures
      ensures raised <==> outcome == null
      ensures outcome != null ==> fresh(outcome) && !outcome.applied
      ensures outcome != null ==>
                var row := store.RowOf(stackId);
                if row.None? then
                  outcome.delta == Some(Diff(Some([]), [], DELETE)) && outcome.reported && outcome.pending == NoMutation
                else if IsStale(instants, eventTime, row) then
                  outcome.delta == None && !outcome.reported && outcome.pending == NoMutation
                else
                  && outcome.delta == Some(Diff(Some(row.value.content), [], DELETE))
                  && outcome.reported && outcome.pending == PendingRetirement(eventTime)
    {
      var row: Row;
      row, raised := store.Load(stackId);
      if raised {
        return null, true;
      }
      if row.None? {
        var nothing := DiffSnapshots(Some([]), [], DELETE);
        outcome := new AnalysisOutcome(Some(nothing), true, NoMutation);
        return outcome, false;
      }
      if IsStale(instants, eventTime, row) {
        outcome := new AnalysisOutcome(None, false, NoMutation);
        return outcome, false;
      }
      var delta := DiffDeletion(row.value.content);
      outcome := new AnalysisOutcome(Some(delta), true, PendingRetirement(eventTime));
    }

    /** `op` is None for a nested stack that is counted with its root, and for a stack or template
        that cannot be read. */
    method Analyze(stackId: string, op: Option<Operation>) returns (outcome: AnalysisOutcome?, raised: bool)
      modifies store`loadFailures
      ensures raised <==> outcome == null
      ensures outcome != null ==> fresh(outcome) && !outcome.applied
      ensures outcome != null && op.None? ==> !outcome.reported && outcome.pending == NoMutation
      ensures outcome != null && op.Some? ==>
                var row := store.RowOf(stackId);
                && outcome.reported == IsReported(instants, row, op.value, threshold)
                && outcome.pending == PendingFor(instants, row, op.value)
                && (outcome.reported ==> outcome.delta == Some(DeltaAt(row, op.value)))
    {
      match op {
        case None =>
          outcome := new AnalysisOutcome(None, false, NoMutation);
          raised := false;
        case Some(Deployed(after, action)) =>
          outcome, raised := AnalyzeCurrentState(stackId, after, action);
        case Some(Deleted(eventTime)) =>
          outcome, raised := AnalyzeDeletion(stackId, eventTime);
      }
    }

    /** An estimate of a change set: diffed against the stored inventory, or as a creation when the
        stack was never deployed, and never a reason to change a row. */
    method AnalyzeChangeSet(stackId: string, changeSet: ChangeSet, proposed: Snapshot)
      returns (outcome: AnalysisOutcome?, raised: bool)
      modifies store`loadFailures
      ensures raised <==> outcome == null
      ensures outcome != null ==> fresh(outcome) && !outcome.applied
      ensures outcome != null ==>
                && outcome.delta == Some(EstimateAt(ContentOf(store.RowOf(stackId)), changeSet, proposed))
                && outcome.reported && outcome.pending == NoMutation
    {
      var marked := MarkReplacements(proposed, changeSet);
      var row: Row;
      row, raised := store.Load(stackId);
      if raised {
        return null, true;
      }
      var action := if row.None? && changeSet.neverDeployed then CREATE else UPDATE;
      var delta := DiffSnapshots(ContentOf(row), marked, action);
      outcome := new AnalysisOutcome(Some(delta), true, NoMutation);
    }

    /** Applies the pending transition once: a second commit of the same outcome does nothing, and
        a commit that raised can be repeated. Nobody else writes the row meanwhile. */
    method Commit(stackId: string, outcome: AnalysisOutcome) returns (raised: bool)
      modifies outcome, store
      ensures old(outcome.applied) || outcome.pending.NoMutation? ==> !raised && store.table == old(store.table)
      ensures outcome.applied == (old(outcome.applied) || (!raised && !outcome.pending.NoMutation?))
      ensures forall k :: k != stackId ==> store.RowOf(k) == old(store.RowOf(k))
      ensures Transition(store.retentionDays, if old(outcome.applied) then NoMutation else outcome.pending,
                         old(store.RowOf(stackId)), store.RowOf(stackId), raised)
    {
      raised := false;
      if outcome.pending.PendingSnapshot? && !outcome.applied {
        raised := store.Save(stackId, outcome.pending.save, []);
        outcome.applied := !raised;
      } else if outcome.pending.PendingRetirement? && !outcome.applied {
        raised := store.Delete(stackId, outcome.pending.eventTime);
        outcome.applied := !raised;
      }
    }
  }

  // -- a whole history -----------------------------------------------------------------------

  /** Operations that do not overlap: each is analysed against the row its predecessor committed. */
  function FinalRow(retentionDays: int, row: Row, ops: seq<Operation>): Row
    decreases |ops|
  {
    if ops == [] then row else FinalRow(retentionDays, NextRow(retentionDays, row, ops[0]), ops[1..])
  }

  /** The deltas of the history, one report or suppressed report each. */
  function Deltas(retentionDays: int, row: Row, ops: seq<Operation>): seq<Delta>
    decreases |ops|
  {
    if ops == [] then []
    else [DeltaAt(row, ops[0])] + Deltas(retentionDays, NextRow(retentionDays, row, ops[0]), ops[1..])
  }

  function NetSum(ds: seq<Delta>): real {
    if ds == [] then 0.0 else ds[0].Net() + NetSum(ds[1..])
  }

  function RetainedSum(ds: seq<Delta>): real {
    if ds == [] then 0.0 else ds[0].Retained() + RetainedSum(ds[1..])
  }

  function UnchangedSum(ds: seq<Delta>): nat {
    if ds == [] then 0 else ds[0].parts.stayed + UnchangedSum(ds[1..])
  }

  ghost predicate GoodSnapshot(s: Snapshot) {
    UniqueIds(s) && UnpricedIsFree(s)
  }

  /** Events in order, none stale, on snapshots as the engine makes them. A deleted stack never
      comes back: a new one gets a new ID. */
  ghost predicate InOrder(instants: Instants, retentionDays: int, row: Row, ops: seq<Operation>)
    decreases |ops|
  {
    ops != [] ==>
      && !IsStaleFor(instants, row, ops[0])
      && match ops[0] {
           case Deployed(after, action) =>
             GoodSnapshot(after.content) && action != BASELINE && after.fits && Guarded(row, after.eventTime)
           case Deleted(t) => Guarded(row, t) && |ops| == 1
         }
      && InOrder(instants, retentionDays, NextRow(retentionDays, row, ops[0]), ops[1..])
  }

  /** What the stack costs according to its row: nothing once it was deleted. */
  function TotalIn(row: Row): real {
    if row.Some? && !row.value.retired then TotalOf(row.value.content) else 0.0
  }

  /** Each delta starts from the total the one before ended with, and explains its change up to
      the bound. */
  predicate Linked(ds: seq<Delta>, start: real) {
    ds != [] ==> ds[0].Previous() == start && GapBounded(ds[0]) && Linked(ds[1..], ds[0].Current())
  }

  function EndTotal(ds: seq<Delta>, start: real): real {
    if ds == [] then start else EndTotal(ds[1..], ds[0].Current())
  }

  /** The net changes add up to the change of the total plus what is retained, within a cent per
      unchanged resource per step. */
  predicate Conserved(ds: seq<Delta>, start: real, end: real) {
    Abs(NetSum(ds) - (end - start + RetainedSum(ds))) <= 0.01 * UnchangedSum(ds) as real
  }

  lemma {:induction false} Telescope(ds: seq<Delta>, start: real)
    requires Linked(ds, start)
    ensures Conserved(ds, start, EndTotal(ds, start))
  {
    if ds != [] {
      Telescope(ds[1..], ds[0].Current());
    }
  }

  lemma {:induction false} DeltasLinked(instants: Instants, retentionDays: int, row: Row, ops: seq<Operation>)
    requires row.Some? && !row.value.retired && GoodSnapshot(row.value.content)
        && InOrder(instants, retentionDays, row, ops)
    ensures Linked(Deltas(retentionDays, row, ops), TotalIn(row))
    ensures EndTotal(Deltas(retentionDays, row, ops), TotalIn(row)) == TotalIn(FinalRow(retentionDays, row, ops))
    decreases |ops|
  {
    if ops != [] {
      var next := NextRow(retentionDays, row, ops[0]);
      StepLinked(instants, retentionDays, row, ops[0]);
      var rest := Deltas(retentionDays, next, ops[1..]);
      assert Deltas(retentionDays, row, ops)[1..] == rest;
      if ops[0].Deployed? {
        DeltasLinked(instants, retentionDays, next, ops[1..]);
      } else {
        assert ops[1..] == [] && rest == [];
      }
    }
  }

  lemma StepLinked(instants: Instants, retentionDays: int, row: Row, op: Operation)
    requires row.Some? && !row.value.retired && GoodSnapshot(row.value.content)
    requires InOrder(instants, retentionDays, row, [op])
    ensures var d := DeltaAt(row, op);
            d.Previous() == TotalIn(row) && d.Current() == TotalIn(NextRow(retentionDays, row, op)) && GapBounded(d)
  {
    match op
    case Deployed(after, action) => ReconciliationBound(Some(row.value.content), after.content, action);
    case Deleted(_) => ReconciliationBound(Some(row.value.content), [], DELETE);
  }

  /** Over a whole history after its baseline, deletion included, reported or suppressed: the net
      changes add up to the change of the stack's total plus everything retained, within one cent
      per unchanged resource per step. */
  lemma HistoryConserves(instants: Instants, retentionDays: int, row: Row, ops: seq<Operation>)
    requires row.Some? && !row.value.retired && GoodSnapshot(row.value.content)
        && InOrder(instants, retentionDays, row, ops)
    ensures Conserved(Deltas(retentionDays, row, ops), TotalIn(row), TotalIn(FinalRow(retentionDays, row, ops)))
  {
    DeltasLinked(instants, retentionDays, row, ops);
    Telescope(Deltas(retentionDays, row, ops), TotalIn(row));
  }

  /** A stack seen from its creation to its deletion: its net changes add up to what was retained. */
  lemma LifeCycleConserves(instants: Instants, retentionDays: int, first: Save, ops: seq<Operation>)
    requires GoodSnapshot(first.content) && first.fits && ops != [] && ops[|ops| - 1].Deleted?
    requires InOrder(instants, retentionDays, None, [Deployed(first, CREATE)] + ops)
    ensures Conserved(Deltas(retentionDays, None, [Deployed(first, CREATE)] + ops), 0.0, 0.0)
  {
    var all, row := [Deployed(first, CREATE)] + ops, ApplySave(None, first);
    assert all[1..] == ops && NextRow(retentionDays, None, all[0]) == row;
    DeltasLinked(instants, retentionDays, row, ops);
    ReconciliationBound(None, first.content, CREATE);
    var ds := Deltas(retentionDays, None, all);
    assert ds[0] == DeltaAt(None, all[0]) && ds[1..] == Deltas(retentionDays, row, ops);
    assert Linked(ds, 0.0);
    Telescope(ds, 0.0);
    DeletedEndsFree(instants, retentionDays, row, ops);
  }

  lemma {:induction false} DeletedEndsFree(instants: Instants, retentionDays: int, row: Row, ops: seq<Operation>)
    requires row.Some? && InOrder(instants, retentionDays, row, ops) && ops != [] && ops[|ops| - 1].Deleted?
    ensures TotalIn(FinalRow(retentionDays, row, ops)) == 0.0
    decreases |ops|
  {
    if |ops| > 1 {
      DeletedEndsFree(instants, retentionDays, NextRow(retentionDays, row, ops[0]), ops[1..]);
    } else {
      assert ops[1..] == [];
    }
  }

  /** A stack first seen after it was deployed: the baseline counts as no change, and from its total
      on everything adds up. */
  lemma BaselineConserves(instants: Instants, retentionDays: int, first: Save, action: Action, ops: seq<Operation>)
    requires GoodSnapshot(first.content) && action != CREATE
    requires InOrder(instants, retentionDays, None, [Deployed(first, action)] + ops)
    ensures var all := [Deployed(first, action)] + ops;
            Conserved(Deltas(retentionDays, None, all), TotalOf(first.content),
                TotalIn(FinalRow(retentionDays, None, all)))
  {
    var all, row := [Deployed(first, action)] + ops, ApplySave(None, first);
    assert all[1..] == ops && NextRow(retentionDays, None, all[0]) == row;
    var ds := Deltas(retentionDays, None, all);
    assert ds[0] == DeltaAt(None, all[0]) && ds[1..] == Deltas(retentionDays, row, ops);
    BaselineCounts(first, action);
    HistoryConserves(instants, retentionDays, row, ops);
    assert Conserved(ds[1..], TotalOf(first.content), TotalIn(FinalRow(retentionDays, row, ops)));
  }

  lemma BaselineCounts(first: Save, action: Action)
    requires action != CREATE
    ensures var d := DeltaAt(None, Deployed(first, action));
            d.Net() == 0.0 && d.Retained() == 0.0 && d.parts.stayed == 0
  {
  }
}
