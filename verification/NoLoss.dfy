/** No report is lost: in every run, with crashes anywhere, redelivery and a store that may fail
    at any call, a key that was ever sent has had its outcome delivered or some message for it
    is still on the queue and will not be deleted by any invocation at work.

    The one assumption is that a message is in the hands of at most one live invocation
    (Receive). It is needed because a claim that finds no row reads as completed: what saves the
    report is that whoever removed that row is about to fail another message of the same key. */
module NoLoss {
  import opened Templates
  import opened Handler
  import opened Protocol

  /** Bookkeeping of one worker: its messages are on the queue and sorted into disjoint sets. */
  predicate WorkerOk(s: State, w: Worker) {
    && Held(w) <= s.queue.Keys
    && w.todo !! w.ok && w.todo !! w.failed && w.ok !! w.failed
    && InHand(w) !! w.todo && InHand(w) !! w.ok && InHand(w) !! w.failed
    && (w.current.None? <==> w.phase.Ready?)
    && !w.phase.Done?
    && (w.current.Some? ==> s.queue[w.current.value] == w.key)
    && (w.phase.Completing? ==> w.key in s.settled)
  }

  predicate Structure(s: State) {
    && (forall w :: w in s.workers && s.workers[w].live ==> WorkerOk(s, s.workers[w]))
    && (forall v, w :: v in s.workers && w in s.workers && v != w && s.workers[v].live && s.workers[w].live ==>
          Held(s.workers[v]) !! Held(s.workers[w]))
    && (forall k :: k in s.rows && s.rows[k].status != Processing ==> k in s.settled)
    && (forall m :: m in s.queue ==> s.queue[m] in s.sent)
  }

  /** A message for k that no live invocation has marked for deletion. */
  ghost predicate Pending(s: State, k: Key, m: Msg) {
    && m in s.queue && s.queue[m] == k
    && forall w :: w in s.workers && s.workers[w].live ==> m !in s.workers[w].ok
  }

  /** Some invocation is past the failed put of this message and has not read the row yet. */
  ghost predicate UnderInspection(s: State, m: Msg) {
    exists w :: Live(s, w) && s.workers[w].phase.Inspecting? && s.workers[w].current == Some(m)
  }

  ghost predicate Safe(s: State, k: Key) {
    if k in s.rows then exists m :: Pending(s, k, m)
    else exists m :: Pending(s, k, m) && !UnderInspection(s, m)
  }

  ghost predicate Invariant(s: State) {
    && Structure(s)
    && forall k :: k in s.sent ==> k in s.settled || Safe(s, k)
  }

  // -- every step keeps the bookkeeping ------------------------------------------------

  predicate RowsSettled(s: State) {
    forall k :: k in s.rows && s.rows[k].status != Processing ==> k in s.settled
  }

  /** A step that changes one worker, and no message on the queue. */
  predicate ChangesOnly(s: State, s': State, w: WorkerId) {
    && w in s.workers && w in s'.workers && s.workers[w].live
    && s'.workers == s.workers[w := s'.workers[w]]
    && s'.queue == s.queue && s'.sent == s.sent && s.settled <= s'.settled
  }

  lemma WorkerStep(s: State, s': State, w: WorkerId)
    requires Structure(s) && ChangesOnly(s, s', w) && RowsSettled(s')
    requires s'.workers[w].live ==> WorkerOk(s', s'.workers[w]) && Held(s'.workers[w]) <= Held(s.workers[w])
    ensures Structure(s')
  {
    forall v | v in s'.workers && v != w && s'.workers[v].live
      ensures WorkerOk(s', s'.workers[v])
    {
      assert WorkerOk(s, s.workers[v]);
    }
  }

  /** The worker's own step, without its effect on the row. */
  lemma ProgressOk(s: State, s': State, w: Worker, p: Phase)
    requires WorkerOk(s, w) && w.current.Some? && !p.Ready?
    requires s'.queue == s.queue && s.settled <= s'.settled
    requires p.Completing? ==> w.key in s'.settled
    ensures WorkerOk(s', Progress(w, p)) && Held(Progress(w, p)) == Held(w)
  {
  }

  lemma StepStructure(c: Config, s: State, e: Event)
    requires Structure(s) && Enabled(c, s, e)
    ensures Structure(Step(c, s, e))
  {
    var s' := Step(c, s, e);
    match e
    case Send(m, k) =>
      forall w | w in s'.workers && s'.workers[w].live
        ensures WorkerOk(s', s'.workers[w])
      {
        assert WorkerOk(s, s.workers[w]);
        assert s.workers[w].current.Some? ==> s.workers[w].current.value in Held(s.workers[w]);
      }
    case Receive(w, batch) =>
      forall v | v in s'.workers && s'.workers[v].live
        ensures WorkerOk(s', s'.workers[v])
      {
        assert v != w ==> WorkerOk(s, s.workers[v]);
      }
      forall v | v in s.workers && s.workers[v].live
        ensures Held(s'.workers[v]) !! Held(s'.workers[w])
      {
        assert Held(s'.workers[w]) == batch;
      }
    case Begin(w, m, now) =>
      assert WorkerOk(s, s.workers[w]);
      WorkerStep(s, s', w);
    case Put(w, applied, reply) => ClaimStructure(c, s, e);
    case Get(w, answered) => ClaimStructure(c, s, e);
    case Work(w, call) =>
      assert WorkerOk(s, s.workers[w]);
      ProgressOk(s, s', s.workers[w], NextPhase(c, s, e).value);
      WorkerStep(s, s', w);
    case Complete(w, applied) => ClaimStructure(c, s, e);
    case Release(w, applied) => ClaimStructure(c, s, e);
    case Crash(w) => WorkerStep(s, s', w);
    case Return(w) => ReturnStructure(c, s, e);
    case Tick(to) =>
      forall w | w in s'.workers && s'.workers[w].live
        ensures WorkerOk(s', s'.workers[w])
      {
        assert WorkerOk(s, s.workers[w]);
      }
  }

  lemma ClaimStructure(c: Config, s: State, e: Event)
    requires e.Put? || e.Get? || e.Complete? || e.Release?
    requires Structure(s) && Enabled(c, s, e)
    ensures Structure(Step(c, s, e))
  {
    var s' := Step(c, s, e);
    assert WorkerOk(s, s.workers[e.w]);
    ProgressOk(s, s', s.workers[e.w], NextPhase(c, s, e).value);
    WorkerStep(s, s', e.w);
  }

  lemma ReturnStructure(c: Config, s: State, e: Event)
    requires e.Return? && Structure(s) && Enabled(c, s, e)
    ensures Structure(Step(c, s, e))
  {
    var s' := Step(c, s, e);
    forall w | w in s'.workers && s'.workers[w].live
      ensures WorkerOk(s', s'.workers[w])
    {
      assert WorkerOk(s, s.workers[w]) && Held(s.workers[w]) !! Held(s.workers[e.w]);
      forall m | m in Held(s.workers[w])
        ensures m in s'.queue
      {
        assert m !in s.workers[e.w].ok;
      }
    }
  }

  // -- every step keeps a message for each unsettled key --------------------------------

  lemma StepSafe(c: Config, s: State, e: Event, k: Key)
    requires Invariant(s) && Enabled(c, s, e)
    requires k in s.sent && k !in s.settled
    ensures var s' := Step(c, s, e); k in s'.settled || Safe(s', k)
  {
    var s' := Step(c, s, e);
    assert Safe(s, k);
    match e
    case Send(_, _) => StillSafe(s, s', k);
    case Receive(_, _) => StillSafe(s, s', k);
    case Begin(w, m, now) => StillSafe(s, s', k);
    case Put(w, applied, reply) => PutSafe(c, s, e, k);
    case Get(w, answered) => GetSafe(c, s, e, k);
    case Work(w, call) => WorkSafe(c, s, e, k);
    case Complete(w, applied) => FinishSafe(c, s, e, k);
    case Release(w, applied) => FinishSafe(c, s, e, k);
    case Crash(w) => StillSafe(s, s', k);
    case Return(w) => StillSafe(s, s', k);
    case Tick(to) => StillSafe(s, s', k);
  }

  /** Steps that mark no message for deletion, put none under inspection and leave the row alone. */
  lemma StillSafe(s: State, s': State, k: Key)
    requires Safe(s, k) && s'.rows == s.rows
    requires forall m :: Pending(s, k, m) ==> Pending(s', k, m)
    requires forall m :: Pending(s, k, m) && UnderInspection(s', m) ==> UnderInspection(s, m)
    ensures Safe(s', k)
  {
  }

  /** The message in a live invocation's hand is never marked for deletion. */
  lemma InHandPending(s: State, w: WorkerId, m: Msg)
    requires Structure(s) && Live(s, w) && s.workers[w].current == Some(m)
    ensures Pending(s, s.workers[w].key, m)
    ensures UnderInspection(s, m) ==> s.workers[w].phase.Inspecting?
    ensures forall v :: v in s.workers && s.workers[v].live && v != w ==> s.workers[v].current != Some(m)
  {
    assert WorkerOk(s, s.workers[w]) && m in Held(s.workers[w]);
    forall v | v in s.workers && s.workers[v].live && v != w
      ensures m !in s.workers[v].ok && s.workers[v].current != Some(m)
    {
      assert m !in Held(s.workers[v]);
    }
  }

  /** A message other than the one in hand is as pending, and as inspected, as before. */
  lemma OthersKept(s: State, s': State, w: WorkerId, k: Key, m: Msg)
    requires ChangesOnly(s, s', w) && Pending(s, k, m)
    requires s'.workers[w].live ==> s'.workers[w].ok <= s.workers[w].ok + InHand(s.workers[w])
    requires s'.workers[w].phase.Inspecting? ==> s'.workers[w].current == s.workers[w].current
    requires s.workers[w].current != Some(m)
    ensures Pending(s', k, m)
    ensures UnderInspection(s', m) ==> UnderInspection(s, m)
  {
    if UnderInspection(s', m) {
      var v :| Live(s', v) && s'.workers[v].phase.Inspecting? && s'.workers[v].current == Some(m);
      assert v != w;
      assert Live(s, v) && s.workers[v] == s'.workers[v];
    }
  }

  /** A worker's step leaves the other keys as safe as they were. */
  lemma OtherKeySafe(s: State, s': State, w: WorkerId, k: Key)
    requires Structure(s) && ChangesOnly(s, s', w) && Safe(s, k)
    requires s'.workers[w].live ==> s'.workers[w].ok <= s.workers[w].ok + InHand(s.workers[w])
    requires s'.workers[w].phase.Inspecting? ==> s'.workers[w].current == s.workers[w].current
    requires s.workers[w].current.Some? ==> s.workers[w].key != k
    requires k in s.rows <==> k in s'.rows
    ensures Safe(s', k)
  {
    var m :| Pending(s, k, m) && (k !in s.rows ==> !UnderInspection(s, m));
    assert WorkerOk(s, s.workers[w]);
    OthersKept(s, s', w, k, m);
  }

  lemma PutSafe(c: Config, s: State, e: Event, k: Key)
    requires e.Put? && Invariant(s) && Enabled(c, s, e) && k in s.sent && k !in s.settled
    ensures Safe(Step(c, s, e), k)
  {
    var s' := Step(c, s, e);
    var x := s.workers[e.w];
    assert WorkerOk(s, x);
    if x.key == k {
      StepStructure(c, s, e);
      InHandPending(s', e.w, x.current.value);
    } else {
      OtherKeySafe(s, s', e.w, k);
    }
  }

  lemma GetSafe(c: Config, s: State, e: Event, k: Key)
    requires e.Get? && Invariant(s) && Enabled(c, s, e) && k in s.sent && k !in s.settled
    ensures Safe(Step(c, s, e), k)
  {
    var s' := Step(c, s, e);
    var x := s.workers[e.w];
    assert WorkerOk(s, x);
    if x.key != k {
      OtherKeySafe(s, s', e.w, k);
    } else {
      var m0 := x.current.value;
      InHandPending(s, e.w, m0);
      assert Live(s, e.w) && UnderInspection(s, m0);
      if s'.workers[e.w].ok == x.ok {
        FailedStaysPending(s, s', e.w, m0);
      } else {
        // Acknowledged on a vanished row: another message is left, and nobody inspects it.
        assert k !in s.rows;
        var m :| Pending(s, k, m) && !UnderInspection(s, m);
        OthersKept(s, s', e.w, k, m);
      }
    }
  }

  /** A message whose handling raised goes back to the queue. */
  lemma FailedStaysPending(s: State, s': State, w: WorkerId, m: Msg)
    requires Structure(s) && ChangesOnly(s, s', w) && s.workers[w].current == Some(m)
    requires s'.workers[w].ok == s.workers[w].ok && !s'.workers[w].phase.Inspecting?
    ensures Pending(s', s.workers[w].key, m) && !UnderInspection(s', m)
  {
    InHandPending(s, w, m);
    assert forall v :: v in s'.workers && v != w ==> s'.workers[v] == s.workers[v];
  }

  lemma WorkSafe(c: Config, s: State, e: Event, k: Key)
    requires e.Work? && Invariant(s) && Enabled(c, s, e) && k in s.sent && k !in s.settled
    ensures Safe(Step(c, s, e), k)
  {
    var s' := Step(c, s, e);
    var x := s.workers[e.w];
    assert WorkerOk(s, x);
    if x.key == k {
      FailedStaysPending(s, s', e.w, x.current.value);
    } else {
      OtherKeySafe(s, s', e.w, k);
    }
  }

  lemma FinishSafe(c: Config, s: State, e: Event, k: Key)
    requires e.Complete? || e.Release?
    requires Invariant(s) && Enabled(c, s, e) && k in s.sent && k !in s.settled
    ensures Safe(Step(c, s, e), k)
  {
    var s' := Step(c, s, e);
    var x := s.workers[e.w];
    assert WorkerOk(s, x);
    if x.key == k {
      FailedStaysPending(s, s', e.w, x.current.value);
    } else {
      OtherKeySafe(s, s', e.w, k);
    }
  }

  lemma SentSafe(s: State, m: Msg, k: Key)
    requires Structure(s) && m !in s.queue
    ensures var s' := s.(queue := s.queue[m := k], sent := s.sent + {k});
            Pending(s', k, m) && !UnderInspection(s', m)
  {
    forall w | w in s.workers && s.workers[w].live
      ensures m !in Held(s.workers[w])
    {
      assert WorkerOk(s, s.workers[w]);
    }
  }

  // -- the theorem ------------------------------------------------------------------------

  lemma StepInvariant(c: Config, s: State, e: Event)
    requires Invariant(s) && Enabled(c, s, e)
    ensures Invariant(Step(c, s, e))
  {
    var s' := Step(c, s, e);
    StepStructure(c, s, e);
    forall k | k in s'.sent
      ensures k in s'.settled || Safe(s', k)
    {
      if e.Send? && e.k == k {
        SentSafe(s, e.m, k);
      } else if k !in s.settled {
        StepSafe(c, s, e, k);
      }
    }
  }

  lemma {:induction false} RunInvariant(c: Config, s: State, es: seq<Event>)
    requires Init(s) && Run(c, s, es).Some?
    ensures Invariant(Run(c, s, es).value)
  {
    if es != [] {
      RunInvariant(c, s, es[..|es| - 1]);
      StepInvariant(c, Run(c, s, es[..|es| - 1]).value, es[|es| - 1]);
    }
  }

  /** In every run, a key that was ever sent was delivered, or keeps a message on the queue that
      no live invocation will delete when it returns. */
  lemma NoReportIsLost(c: Config, s: State, es: seq<Event>, k: Key)
    requires Init(s) && Run(c, s, es).Some? && k in Run(c, s, es).value.sent
    ensures var s' := Run(c, s, es).value; k in s'.settled || exists m :: Pending(s', k, m)
  {
    RunInvariant(c, s, es);
  }
}
