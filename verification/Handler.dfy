/** How one message is handled (src/runtime/handlers.py:277-392, idempotency.py:103-196): which
    call to the outside may follow which, and the handler code that makes them.

    `Advance` is the handler as an automaton over its calls and their replies. The methods of
    `Invocation` are the code, proved to follow it; Protocol.dfy runs many of them against one
    table and one queue. */
module Handler {
  import opened Templates

  datatype PutReply = PutOk | PutConditionalFailed | PutError
  datatype GetReply = GetError | NoRow | NoStatus | StatusCompleted | StatusProcessing

  /** What the analysis returned: it raised (change set not ready included), it skipped, or it
      produced a report. */
  datatype Analysis = Raised | Skipped | Reported

  datatype Call =
    | ReadClock(now: int)
    | PutClaim(put: PutReply)
    | GetRow(get: GetReply)
    | Analyze(analysis: Analysis)
    | PublishTo(destination: nat, accepted: bool)
    | Commit(committed: bool)
    | CompleteRow
    | DeleteRow

  /** Where the handling of one message stands. `Done(true)` returns normally, `Done(false)` raises. */
  datatype Phase =
    | Ready
    | Claiming(now: int)
    | Inspecting
    | Working
    | Publishing(next: nat, failed: bool)
    | Committing
    | Completing
    | Releasing
    | Done(ok: bool)

  /** The phases between an ACQUIRED claim and the end of its handling. */
  predicate Owns(p: Phase) {
    p.Working? || p.Publishing? || p.Committing? || p.Completing? || p.Releasing?
  }

  /** `n` is the number of publish destinations; each is tried even if an earlier one failed. */
  function Advance(n: nat, p: Phase, c: Call): Option<Phase> {
    match (p, c)
    case (Ready, ReadClock(now)) => Some(Claiming(now))
    case (Claiming(_), PutClaim(put)) => Some(if put.PutConditionalFailed? then Inspecting else Working)
    case (Inspecting, GetRow(get)) => Some(Done(get.NoRow? || get.NoStatus? || get.StatusCompleted?))
    case (Working, Analyze(a)) =>
      Some(if a.Raised? then Releasing else if a.Reported? && n > 0 then Publishing(0, false) else Committing)
    case (Publishing(next, failed), PublishTo(d, accepted)) =>
      if d != next || next >= n then None
      else if next + 1 < n then Some(Publishing(next + 1, failed || !accepted))
      else Some(if failed || !accepted then Releasing else Committing)
    case (Committing, Commit(committed)) => Some(if committed then Completing else Releasing)
    case (Completing, CompleteRow) => Some(Done(true))
    case (Releasing, DeleteRow) => Some(Done(false))
    case _ => None
  }

  /** The phase a sequence of calls leads to, or None when the handler cannot make those calls. */
  function Follow(n: nat, calls: seq<Call>): Option<Phase> {
    if calls == [] then Some(Ready)
    else
      var before := Follow(n, calls[..|calls| - 1]);
      if before.None? then None else Advance(n, before.value, calls[|calls| - 1])
  }

  lemma FollowNext(n: nat, calls: seq<Call>, c: Call)
    requires Follow(n, calls).Some?
    ensures Follow(n, calls + [c]) == Advance(n, Follow(n, calls).value, c)
  {
    assert (calls + [c])[..|calls|] == calls;
  }

  // -- publish before commit ----------------------------------------------------------

  ghost predicate Accepted(calls: seq<Call>, d: nat) {
    PublishTo(d, true) in calls
  }

  ghost predicate WasReported(calls: seq<Call>) {
    Analyze(Reported) in calls
  }

  /** What a phase says about the calls behind it. */
  lemma {:induction false} PhaseHistory(n: nat, calls: seq<Call>)
    requires Follow(n, calls).Some?
    ensures var p := Follow(n, calls).value;
            && (p.Ready? || p.Claiming? || p.Inspecting? || p.Working? ==> !WasReported(calls))
            && (p.Publishing? && !p.failed ==> forall d :: 0 <= d < p.next ==> Accepted(calls, d))
            && (p.Publishing? ==> p.next < n)
            && (p.Committing? || p.Completing? ==> WasReported(calls) ==> forall d :: 0 <= d < n ==> Accepted(calls, d))
            && (p.Ready? || p.Claiming? || p.Inspecting? || p.Working? || p.Publishing? || p.Committing? ==>
                  forall b :: Commit(b) !in calls)
  {
    if calls != [] {
      var front, last := calls[..|calls| - 1], calls[|calls| - 1];
      assert calls == front + [last];
      PhaseHistory(n, front);
      assert forall d :: Accepted(front, d) ==> Accepted(calls, d);
    }
  }

  /** The state table is only written after every destination accepted the report, or when the
      analysis decided there was nothing to report. */
  lemma PublishBeforeCommit(n: nat, calls: seq<Call>, i: nat, d: nat, b: bool)
    requires Follow(n, calls).Some? && i < |calls| && calls[i] == Commit(b) && d < n
    requires WasReported(calls[..i])
    ensures Accepted(calls[..i], d)
  {
    FollowPrefix(n, calls, i + 1);
    assert calls[..i + 1][..i] == calls[..i] && calls[..i + 1][i] == Commit(b);
    PhaseHistory(n, calls[..i]);
  }

  lemma {:induction false} FollowPrefix(n: nat, calls: seq<Call>, i: nat)
    requires Follow(n, calls).Some? && i <= |calls|
    ensures Follow(n, calls[..i]).Some?
    decreases |calls|
  {
    if i == |calls| {
      assert calls[..i] == calls;
    } else {
      FollowPrefix(n, calls[..|calls| - 1], i);
      assert calls[..|calls| - 1][..i] == calls[..i];
    }
  }

  // -- the code ------------------------------------------------------------------------

  datatype ClaimResult = ACQUIRED | COMPLETE | BUSY

  /** The outside world of one handled message. Replies are arbitrary; every call is recorded. */
  class Invocation {
    const destinations: nat
    var calls: seq<Call>

    ghost predicate At(p: Phase)
      reads this
    {
      Follow(destinations, calls) == Some(p)
    }

    constructor (destinations: nat)
      ensures this.destinations == destinations && At(Ready)
    {
      this.destinations := destinations;
      calls := [];
    }

    method Record(c: Call)
      requires Follow(destinations, calls).Some?
      modifies this
      ensures calls == old(calls) + [c]
      ensures Follow(destinations, calls) == Advance(destinations, old(Follow(destinations, calls).value), c)
    {
      FollowNext(destinations, calls, c);
      calls := calls + [c];
    }

    method Claim() returns (r: ClaimResult)
      requires At(Ready)
      modifies this
      ensures r == ACQUIRED ==> At(Working)
      ensures r == COMPLETE ==> At(Done(true))
      ensures r == BUSY ==> At(Done(false))
    {
      var now: int := *;
      Record(ReadClock(now));
      var put: PutReply := *;
      Record(PutClaim(put));
      if put.PutConditionalFailed? {
        r := ExistingClaim();
      } else {
        // Created, or the store is unavailable: the work goes ahead either way.
        r := ACQUIRED;
      }
    }

    method ExistingClaim() returns (r: ClaimResult)
      requires At(Inspecting)
      modifies this
      ensures (r == COMPLETE && At(Done(true))) || (r == BUSY && At(Done(false)))
    {
      var get: GetReply := *;
      Record(GetRow(get));
      if get.GetError? || get.StatusProcessing? {
        r := BUSY;
      } else {
        r := COMPLETE;
      }
    }

    /** Tries every destination, then raises if any of them failed. */
    method Publish() returns (raised: bool)
      requires At(if destinations > 0 then Publishing(0, false) else Committing)
      modifies this
      ensures At(if raised then Releasing else Committing) && old(calls) <= calls
    {
      raised := false;
      for d := 0 to destinations
        invariant old(calls) <= calls
        invariant d < destinations ==> At(Publishing(d, raised))
        invariant d == destinations ==> At(if raised then Releasing else Committing)
      {
        var accepted: bool := *;
        Record(PublishTo(d, accepted));
        if !accepted {
          raised := true;
        }
      }
    }

    method CommitOutcome() returns (raised: bool)
      requires At(Committing)
      modifies this
      ensures At(if raised then Releasing else Completing)
    {
      var committed: bool := *;
      Record(Commit(committed));
      raised := !committed;
    }

    /** Skipped outcomes commit without publishing; reported ones publish first. */
    method Deliver(reported: bool) returns (raised: bool)
      requires At(if reported && destinations > 0 then Publishing(0, false) else Committing)
      modifies this
      ensures At(if raised then Releasing else Completing)
    {
      if reported {
        raised := Publish();
        if raised {
          return;
        }
      }
      raised := CommitOutcome();
    }

    /** Handles one stack event or change set; false means an exception left the handler. */
    method Handle() returns (ok: bool)
      requires At(Ready)
      modifies this
      ensures At(Done(ok))
    {
      var claim := Claim();
      if claim == COMPLETE {
        return true;
      }
      if claim == BUSY {
        return false;
      }
      var analysis: Analysis := *;
      Record(Analyze(analysis));
      var raised := analysis.Raised?;
      if !raised {
        raised := Deliver(analysis.Reported?);
      }
      if raised {
        Record(DeleteRow);
      } else {
        Record(CompleteRow);
      }
      ok := !raised;
    }
  }

  /** The identifiers of the records whose handling failed, in order. */
  function FailuresOf(ids: seq<string>, ok: seq<bool>): seq<string>
    requires |ids| == |ok|
  {
    if ids == [] then []
    else FailuresOf(ids[..|ids| - 1], ok[..|ids| - 1]) + (if ok[|ids| - 1] then [] else [ids[|ids| - 1]])
  }

  /** The batch reports exactly the records whose handling raised, so only those return to the
      queue: `traces[i]` is the whole handling of record i, and `ok[i]` how it ended. */
  method AnalyzerHandler(ids: seq<string>, destinations: nat)
    returns (failures: seq<string>, ok: seq<bool>, traces: seq<seq<Call>>)
    ensures |ok| == |traces| == |ids| && failures == FailuresOf(ids, ok)
    ensures forall i :: 0 <= i < |ids| ==> Follow(destinations, traces[i]) == Some(Done(ok[i]))
  {
    failures, ok, traces := [], [], [];
    for i := 0 to |ids|
      invariant |ok| == |traces| == i && failures == FailuresOf(ids[..i], ok)
      invariant forall j :: 0 <= j < i ==> Follow(destinations, traces[j]) == Some(Done(ok[j]))
    {
      var invocation := new Invocation(destinations);
      var handled := invocation.Handle();
      if !handled {
        failures := failures + [ids[i]];
      }
      ok, traces := ok + [handled], traces + [invocation.calls];
      assert ids[..i + 1][..i] == ids[..i] && ok[..i] == ok[..|ok| - 1];
    }
    assert ids[..|ids|] == ids;
  }
}
