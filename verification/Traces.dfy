/** Every complete handling of a message, written out call by call (src/runtime/handlers.py:189-312,
    src/runtime/idempotency.py:103-196): what is called, in which order, after which replies, and
    when the handler returns normally. */
module Traces {
  import opened Templates
  import opened Handler

  /** The claim was refused, and the row that was there decides: a row that is gone, has no status or
      is completed ends the handling well; one in progress, or an unreadable one, brings it back. */
  predicate Refused(calls: seq<Call>, ok: bool) {
    && |calls| == 3 && calls[0].ReadClock? && calls[1] == PutClaim(PutConditionalFailed) && calls[2].GetRow?
    && ok == (calls[2].get in {NoRow, NoStatus, StatusCompleted})
  }

  /** The claim was written, or the store could not be reached; either way the event is analysed. */
  predicate Analysed(calls: seq<Call>, a: Analysis) {
    && |calls| >= 3 && calls[0].ReadClock? && calls[1] in {PutClaim(PutOk), PutClaim(PutError)}
    && calls[2] == Analyze(a)
  }

  /** The report goes to the first m destinations, one after another, whatever they answer. */
  predicate Tried(calls: seq<Call>, m: nat) {
    |calls| >= 3 + m && forall i :: 3 <= i < 3 + m ==> calls[i] in {PublishTo(i - 3, true), PublishTo(i - 3, false)}
  }

  predicate Rejected(calls: seq<Call>, m: nat)
    requires |calls| >= 3 + m
  {
    exists i :: 3 <= i < 3 + m && calls[i] == PublishTo(i - 3, false)
  }

  /** The state is committed at position i: then the claim is completed if that worked and given up
      if not. */
  predicate Closed(calls: seq<Call>, i: nat, ok: bool) {
    |calls| == i + 2 && calls[i] == Commit(ok) && calls[i + 1] == if ok then CompleteRow else DeleteRow
  }

  /** The claim is given up at position i. */
  predicate GivenUp(calls: seq<Call>, i: nat, ok: bool) {
    |calls| == i + 1 && calls[i] == DeleteRow && !ok
  }

  predicate Finished(n: nat, calls: seq<Call>, ok: bool) {
    || Refused(calls, ok)
    || (Analysed(calls, Raised) && GivenUp(calls, 3, ok))
    || (Analysed(calls, Skipped) && Closed(calls, 3, ok))
    || (Analysed(calls, Reported) && Tried(calls, n)
        && if Rejected(calls, n) then GivenUp(calls, 3 + n, ok) else Closed(calls, 3 + n, ok))
  }

  // -- the phases on the way -------------------------------------------------------------------

  predicate ToCommit(n: nat, calls: seq<Call>) {
    || (Analysed(calls, Skipped) && |calls| == 3)
    || (Analysed(calls, Reported) && Tried(calls, n) && |calls| == 3 + n && !Rejected(calls, n))
  }

  predicate ToRelease(n: nat, calls: seq<Call>) {
    || (Analysed(calls, Raised) && |calls| == 3)
    || (Analysed(calls, Reported) && Tried(calls, n) && |calls| == 3 + n && Rejected(calls, n))
    || (calls != [] && calls[|calls| - 1] == Commit(false) && ToCommit(n, calls[..|calls| - 1]))
  }

  predicate ToComplete(n: nat, calls: seq<Call>) {
    calls != [] && calls[|calls| - 1] == Commit(true) && ToCommit(n, calls[..|calls| - 1])
  }

  predicate Shape(n: nat, calls: seq<Call>, p: Phase) {
    match p
    case Ready => calls == []
    case Claiming(now) => calls == [ReadClock(now)]
    case Inspecting => |calls| == 2 && calls[0].ReadClock? && calls[1] == PutClaim(PutConditionalFailed)
    case Working => |calls| == 2 && calls[0].ReadClock? && calls[1] in {PutClaim(PutOk), PutClaim(PutError)}
    case Publishing(next, failed) =>
      && next < n && Analysed(calls, Reported) && Tried(calls, next) && |calls| == 3 + next
      && failed == Rejected(calls, next)
    case Committing => ToCommit(n, calls)
    case Completing => ToComplete(n, calls)
    case Releasing => ToRelease(n, calls)
    case Done(ok) =>
      || Refused(calls, ok)
      || (calls != []
          && if ok then calls[|calls| - 1] == CompleteRow && ToComplete(n, calls[..|calls| - 1])
             else calls[|calls| - 1] == DeleteRow && ToRelease(n, calls[..|calls| - 1]))
  }

  lemma RejectedNext(front: seq<Call>, last: Call, m: nat)
    requires |front| == 3 + m && Tried(front, m) && last in {PublishTo(m, true), PublishTo(m, false)}
    ensures Tried(front + [last], m + 1)
    ensures Rejected(front + [last], m + 1) <==> Rejected(front, m) || last == PublishTo(m, false)
  {
    var calls := front + [last];
    if i :| 3 <= i < 3 + m && front[i] == PublishTo(i - 3, false) {
      assert calls[i] == PublishTo(i - 3, false);
    }
    assert calls[3 + m] == last;
  }

  lemma ShapeNext(n: nat, front: seq<Call>, last: Call, q: Phase)
    requires Shape(n, front, q) && Advance(n, q, last).Some?
    ensures Shape(n, front + [last], Advance(n, q, last).value)
  {
    var calls := front + [last];
    assert calls[..|calls| - 1] == front && calls[|calls| - 1] == last;
    match q
    case Ready => assert calls == [last];
    case Claiming(_) =>
    case Inspecting =>
    case Working => AnalysedNext(n, front, last);
    case Publishing(next, _) => RejectedNext(front, last, next);
    case Committing =>
    case Completing =>
    case Releasing =>
  }

  lemma AnalysedNext(n: nat, front: seq<Call>, last: Call)
    requires Shape(n, front, Working) && last.Analyze?
    ensures Shape(n, front + [last], Advance(n, Working, last).value)
  {
    var calls := front + [last];
    assert Analysed(calls, last.analysis) && |calls| == 3;
  }

  lemma ShapeBack(n: nat, front: seq<Call>, last: Call, p: Phase) returns (q: Phase)
    requires Shape(n, front + [last], p)
    ensures Shape(n, front, q) && Advance(n, q, last) == Some(p)
  {
    var calls := front + [last];
    assert calls[..|calls| - 1] == front && calls[|front|] == last;
    match p
    case Claiming(now) => q := Ready;
    case Inspecting => q := Claiming(front[0].now);
    case Working => q := Claiming(front[0].now);
    case Publishing(next, failed) => q := BeforePublish(n, front, last, next);
    case Committing =>
      if Analysed(calls, Skipped) || n == 0 {
        q := Working;
      } else {
        q := BeforePublish(n, front, last, n);
      }
    case Completing => q := Committing;
    case Releasing =>
      if last.Commit? {
        q := Committing;
      } else if Analysed(calls, Raised) {
        q := Working;
      } else {
        q := BeforePublish(n, front, last, n);
      }
    case Done(ok) => q := if last.GetRow? then Inspecting else if ok then Completing else Releasing;
  }

  /** After the report was given to m destinations: before the last of them, or before the analysis. */
  lemma BeforePublish(n: nat, front: seq<Call>, last: Call, m: nat) returns (q: Phase)
    requires m <= n && 0 < n && |front| == 2 + m
    requires Analysed(front + [last], Reported) && Tried(front + [last], m)
    ensures Shape(n, front, q)
    ensures m == 0 ==> q == Working && last == Analyze(Reported)
    ensures m > 0 ==> last in {PublishTo(m - 1, true), PublishTo(m - 1, false)}
    ensures m > 0 ==> q == Publishing(m - 1, Rejected(front, m - 1))
    ensures m > 0 ==> (Rejected(front + [last], m) <==> Rejected(front, m - 1) || last == PublishTo(m - 1, false))
  {
    var calls := front + [last];
    if m == 0 {
      q := Working;
    } else {
      assert calls[3 + (m - 1)] == last;
      assert forall i :: 0 <= i < |front| ==> front[i] == calls[i];
      RejectedNext(front, last, m - 1);
      q := Publishing(m - 1, Rejected(front, m - 1));
    }
  }

  lemma {:induction false} FollowIff(n: nat, calls: seq<Call>, p: Phase)
    ensures Follow(n, calls) == Some(p) <==> Shape(n, calls, p)
  {
    if calls != [] {
      var front, last := calls[..|calls| - 1], calls[|calls| - 1];
      assert calls == front + [last];
      if Follow(n, calls) == Some(p) {
        FollowIff(n, front, Follow(n, front).value);
        ShapeNext(n, front, last, Follow(n, front).value);
      }
      if Shape(n, calls, p) {
        var q := ShapeBack(n, front, last, p);
        FollowIff(n, front, q);
      }
    }
  }

  /** The handler finishes with exactly these calls. */
  lemma FinishedIff(n: nat, calls: seq<Call>, ok: bool)
    ensures Follow(n, calls) == Some(Done(ok)) <==> Finished(n, calls, ok)
  {
    FollowIff(n, calls, Done(ok));
    if |calls| > 0 {
      var front := calls[..|calls| - 1];
      if |front| > 0 {
        FrontSame(n, front[..|front| - 1], front);
      }
      FrontSame(n, front, calls);
    }
  }

  lemma FrontSame(n: nat, front: seq<Call>, calls: seq<Call>)
    requires front <= calls
    ensures forall a :: |front| >= 3 ==> (Analysed(front, a) <==> Analysed(calls, a))
    ensures |front| >= 3 + n ==> (Tried(front, n) <==> Tried(calls, n)) && (Rejected(front, n) <==> Rejected(calls, n))
  {
    assert front == calls[..|front|];
  }

  // -- the batch --------------------------------------------------------------------------------

  /** The positions of the records whose handling raised. */
  function Raisers(ok: seq<bool>): set<nat> {
    set i: nat | i < |ok| && !ok[i]
  }

  lemma RaisersNext(ok: seq<bool>, last: bool)
    ensures Raisers(ok + [last]) == Raisers(ok) + if last then {} else {|ok|}
    ensures |Raisers(ok + [last])| == |Raisers(ok)| + if last then 0 else 1
  {
    var all := ok + [last];
    assert forall i: nat :: i < |all| ==> all[i] == if i < |ok| then ok[i] else last;
  }

  /** The batch reports the records that raised and no others, each once, in the order of the batch. */
  lemma {:induction false} FailuresAre(ids: seq<string>, ok: seq<bool>)
    requires |ids| == |ok|
    ensures |FailuresOf(ids, ok)| == |Raisers(ok)|
    ensures forall i: nat :: i in Raisers(ok) ==>
        |Raisers(ok[..i])| < |Raisers(ok)| && FailuresOf(ids, ok)[|Raisers(ok[..i])|] == ids[i]
  {
    if ids != [] {
      var n := |ids| - 1;
      FailuresAre(ids[..n], ok[..n]);
      assert ok == ok[..n] + [ok[n]];
      RaisersNext(ok[..n], ok[n]);
      assert forall i: nat :: i < n ==> ok[..n][..i] == ok[..i];
    }
  }
}
