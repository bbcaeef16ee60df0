/** The claim protocol has no dead end (src/runtime/idempotency.py:103-196, handlers.py:189-312): from
    every state that any run reaches, each message on the queue can still be handled to the end, once
    the lease of a crashed invocation is over. And a delivered outcome is a published one: a key is
    only settled after every destination accepted its report, unless there was nothing to report. */
module Recovery {
  import opened Templates
  import opened Handler
  import opened Protocol
  import NoLoss

  ghost predicate Leads(c: Config, s: State, es: seq<Event>, s': State) {
    Run(c, s, es) == Some(s')
  }

  lemma LeadsNext(c: Config, s: State, es: seq<Event>, s': State, e: Event)
    requires Leads(c, s, es, s') && Enabled(c, s', e)
    ensures Leads(c, s, es + [e], Step(c, s', e))
  {
    assert (es + [e])[..|es|] == es;
  }

  lemma {:induction false} LeadsOn(c: Config, s: State, es: seq<Event>, s': State, more: seq<Event>, s'': State)
    requires Leads(c, s, es, s') && Leads(c, s', more, s'')
    ensures Leads(c, s, es + more, s'')
  {
    if more == [] {
      assert es + more == es;
    } else {
      var n := |more| - 1;
      var before := Run(c, s', more[..n]).value;
      LeadsOn(c, s, es, s', more[..n], before);
      LeadsNext(c, s, es + more[..n], before, more[n]);
      assert es + more == es + more[..n] + [more[n]];
    }
  }

  // -- leases end -------------------------------------------------------------------------------

  /** No lease reaches further into the future than its length, give or take the clocks. */
  predicate LeasesEnd(c: Config, s: State) {
    && (forall k :: k in s.rows && s.rows[k].status == Processing ==>
          s.rows[k].leaseUntil as real <= s.clock + c.skew + 330.0)
    && (forall w :: w in s.workers && s.workers[w].phase.Claiming? ==>
          s.workers[w].phase.now as real <= s.clock + c.skew)
  }

  lemma StepLeasesEnd(c: Config, s: State, e: Event)
    requires LeasesEnd(c, s) && Enabled(c, s, e)
    ensures LeasesEnd(c, Step(c, s, e))
  {
  }

  lemma {:induction false} RunLeasesEnd(c: Config, s: State, es: seq<Event>)
    requires Init(s) && Run(c, s, es).Some?
    ensures LeasesEnd(c, Run(c, s, es).value)
  {
    if es != [] {
      RunLeasesEnd(c, s, es[..|es| - 1]);
      StepLeasesEnd(c, Run(c, s, es[..|es| - 1]).value, es[|es| - 1]);
    }
  }

  // -- one message, from the queue to its end -----------------------------------------------------

  /** Invocation w holds this message and nothing else, in phase p. */
  ghost predicate Serving(s: State, w: WorkerId, m: Msg, k: Key, p: Phase) {
    && Live(s, w) && m in s.queue && s.queue[m] == k
    && var x := s.workers[w];
       x.todo == {} && x.ok == {} && x.failed == {} && x.current == Some(m) && x.key == k && x.phase == p
  }

  /** What is left to compare with the state before. */
  ghost predicate SameBooks(s: State, s': State) {
    s'.rows == s.rows && s'.settled == s.settled && s'.published == s.published && s'.clock == s.clock
  }

  lemma {:induction false} FreshId(ids: set<WorkerId>) returns (w: WorkerId)
    ensures forall v :: v in ids ==> v < w
    ensures w !in ids
  {
    if ids == {} {
      w := 0;
    } else {
      var v :| v in ids;
      w := FreshId(ids - {v});
      if w <= v {
        w := v + 1;
      }
      assert forall u :: u in ids ==> u in ids - {v} || u == v;
    }
  }

  /** Whoever holds the message may crash. */
  lemma FreedByCrash(c: Config, s: State, m: Msg) returns (more: seq<Event>, s': State)
    requires NoLoss.Structure(s) && m in s.queue
    ensures Leads(c, s, more, s') && SameBooks(s, s') && s'.queue == s.queue
    ensures forall v :: v in s'.workers && s'.workers[v].live ==> m !in Held(s'.workers[v])
  {
    more, s' := [], s;
    if v :| v in s.workers && s.workers[v].live && m in Held(s.workers[v]) {
      more, s' := [Crash(v)], Step(c, s, Crash(v));
      LeadsNext(c, s, [], s, Crash(v));
      assert [] + [Crash(v)] == more;
      forall u | u in s'.workers && s'.workers[u].live
        ensures m !in Held(s'.workers[u])
      {
        assert u != v && s.workers[u] == s'.workers[u];
        assert Held(s.workers[v]) !! Held(s.workers[u]);
      }
    }
  }

  /** The time at which no lease on the key is left. */
  lemma LeaseOver(c: Config, s: State, k: Key) returns (now: int)
    requires LeasesEnd(c, s) && c.skew >= 0.0
    ensures s.clock <= now as real <= s.clock + c.skew + 331.0
    ensures k in s.rows && s.rows[k].status == Processing ==> s.rows[k].leaseUntil < now
  {
    now := s.clock.Floor + 1;
    if k in s.rows && s.rows[k].status == Processing && s.rows[k].leaseUntil >= now {
      now := s.rows[k].leaseUntil + 1;
    }
  }

  /** Then another invocation receives the message. */
  lemma Receives(c: Config, s: State, m: Msg, now: int) returns (more: seq<Event>, s': State, w: WorkerId)
    requires m in s.queue && c.skew >= 0.0 && s.clock <= now as real
    requires forall v :: v in s.workers && s.workers[v].live ==> m !in Held(s.workers[v])
    ensures Leads(c, s, more, s') && Serving(s', w, m, s.queue[m], Claiming(now))
    ensures SameBooks(s.(clock := now as real), s')
  {
    w := FreshId(s.workers.Keys);
    var tick, receive, begin := Tick(now as real), Receive(w, {m}), Begin(w, m, now);
    var s1 := Step(c, s, tick);
    LeadsNext(c, s, [], s, tick);
    var s2 := Step(c, s1, receive);
    LeadsNext(c, s, [] + [tick], s1, receive);
    s' := Step(c, s2, begin);
    LeadsNext(c, s, [] + [tick] + [receive], s2, begin);
    more := [] + [tick] + [receive] + [begin];
  }

  lemma Take(c: Config, s: State, m: Msg) returns (more: seq<Event>, s': State, w: WorkerId, now: int)
    requires NoLoss.Structure(s) && LeasesEnd(c, s) && m in s.queue && c.skew >= 0.0
    ensures Leads(c, s, more, s') && Serving(s', w, m, s.queue[m], Claiming(now))
    ensures SameBooks(s.(clock := s'.clock), s') && s.clock <= s'.clock <= s.clock + c.skew + 331.0
    ensures s.queue[m] in s.rows && s.rows[s.queue[m]].status == Processing ==> s.rows[s.queue[m]].leaseUntil < now
  {
    now := LeaseOver(c, s, s.queue[m]);
    var freed, s0 := FreedByCrash(c, s, m);
    var rest;
    rest, s', w := Receives(c, s0, m, now);
    LeadsOn(c, s, freed, s0, rest, s');
    more := freed + rest;
  }

  /** The report goes out to the destinations that are left, and each accepts it. */
  lemma {:induction false} PublishRest(c: Config, s: State, w: WorkerId, m: Msg, k: Key, d: nat)
    returns (more: seq<Event>, s': State)
    requires d < c.destinations && Serving(s, w, m, k, Publishing(d, false))
    ensures Leads(c, s, more, s') && Serving(s', w, m, k, Committing)
    ensures SameBooks(s.(published := s'.published), s')
    ensures forall i :: d <= i < c.destinations ==> s'.published[(k, i)] > s.published[(k, i)]
    ensures s.published <= s'.published
    decreases c.destinations - d
  {
    var e := Work(w, PublishTo(d, true));
    var next := Step(c, s, e);
    LeadsNext(c, s, [], s, e);
    assert [] + [e] == [e];
    if d + 1 < c.destinations {
      var rest;
      rest, s' := PublishRest(c, next, w, m, k, d + 1);
      LeadsOn(c, s, [e], next, rest, s');
      more := [e] + rest;
    } else {
      more, s' := [e], next;
    }
  }

  /** A claim that succeeds can be worked through to the end. */
  lemma Won(c: Config, s: State, w: WorkerId, m: Msg, k: Key, now: int) returns (more: seq<Event>, s': State)
    requires Serving(s, w, m, k, Claiming(now)) && Claimable(s, k, now)
    ensures Leads(c, s, more, s') && Ended(c, s, s', k, m)
    ensures forall d :: 0 <= d < c.destinations ==> s'.published[(k, d)] > s.published[(k, d)]
  {
    var put, analyze := Put(w, true, PutOk), Work(w, Analyze(Reported));
    var s1 := Step(c, s, put);
    LeadsNext(c, s, [], s, put);
    var s2 := Step(c, s1, analyze);
    LeadsNext(c, s, [] + [put], s1, analyze);
    var start := [] + [put] + [analyze];
    var out: seq<Event>, s3 := [], s2;
    if c.destinations > 0 {
      out, s3 := PublishRest(c, s2, w, m, k, 0);
    }
    LeadsOn(c, s, start, s2, out, s3);
    var tail;
    tail, s' := Close(c, s3, w, m, k);
    LeadsOn(c, s, start + out, s3, tail, s');
    more := start + out + tail;
  }

  /** The outcome is committed, the claim completed, and the batch acknowledged. */
  lemma Close(c: Config, s: State, w: WorkerId, m: Msg, k: Key) returns (more: seq<Event>, s': State)
    requires Serving(s, w, m, k, Committing)
    ensures Leads(c, s, more, s') && Ended(c, s, s', k, m) && s'.published == s.published
  {
    var commit, complete := Work(w, Commit(true)), Complete(w, true);
    var s1 := Step(c, s, commit);
    LeadsNext(c, s, [], s, commit);
    var s2 := Step(c, s1, complete);
    LeadsNext(c, s, [] + [commit], s1, complete);
    s' := Step(c, s2, Return(w));
    LeadsNext(c, s, [] + [commit] + [complete], s2, Return(w));
    more := [] + [commit] + [complete] + [Return(w)];
  }

  ghost predicate Ended(c: Config, s: State, s': State, k: Key, m: Msg) {
    m !in s'.queue && s'.settled == s.settled + {k} && s'.clock == s.clock
  }

  /** A claim on completed work is refused, and the message acknowledged. */
  lemma Refused(c: Config, s: State, w: WorkerId, m: Msg, k: Key, now: int) returns (more: seq<Event>, s': State)
    requires Serving(s, w, m, k, Claiming(now)) && k in s.rows && s.rows[k].status != Processing
    ensures Leads(c, s, more, s') && m !in s'.queue && SameBooks(s, s')
  {
    var put := Put(w, false, PutConditionalFailed);
    var s1 := Step(c, s, put);
    LeadsNext(c, s, [], s, put);
    var s2 := Step(c, s1, Get(w, true));
    LeadsNext(c, s, [] + [put], s1, Get(w, true));
    s' := Step(c, s2, Return(w));
    LeadsNext(c, s, [] + [put] + [Get(w, true)], s2, Return(w));
    more := [] + [put] + [Get(w, true)] + [Return(w)];
  }

  /** Whatever happened so far, a message on the queue can be brought to its end: within the length of
      a lease it leaves the queue with its outcome delivered, and if that was still open, accepted by
      every destination. */
  lemma EveryMessageCanEnd(c: Config, s: State, es: seq<Event>, m: Msg) returns (more: seq<Event>)
    requires Init(s) && Run(c, s, es).Some? && m in Run(c, s, es).value.queue && c.skew >= 0.0
    ensures Run(c, s, es + more).Some?
    ensures var before, after := Run(c, s, es).value, Run(c, s, es + more).value;
            var k := before.queue[m];
            && m !in after.queue && k in after.settled
            && after.clock <= before.clock + c.skew + 331.0
            && (k !in before.settled ==>
                  forall d :: 0 <= d < c.destinations ==> after.published[(k, d)] > before.published[(k, d)])
  {
    NoLoss.RunInvariant(c, s, es);
    RunLeasesEnd(c, s, es);
    var after;
    more, after := Ending(c, Run(c, s, es).value, m);
    LeadsOn(c, s, es, Run(c, s, es).value, more, after);
  }

  lemma Ending(c: Config, s: State, m: Msg) returns (more: seq<Event>, s': State)
    requires NoLoss.Structure(s) && LeasesEnd(c, s) && m in s.queue && c.skew >= 0.0
    ensures Leads(c, s, more, s') && m !in s'.queue && s.queue[m] in s'.settled
    ensures s'.clock <= s.clock + c.skew + 331.0
    ensures s.queue[m] !in s.settled ==>
              forall d :: 0 <= d < c.destinations ==> s'.published[(s.queue[m], d)] > s.published[(s.queue[m], d)]
  {
    var k := s.queue[m];
    var taken, s1, w, now := Take(c, s, m);
    var rest;
    if k in s.rows && s.rows[k].status != Processing {
      rest, s' := Refused(c, s1, w, m, k, now);
    } else {
      rest, s' := Won(c, s1, w, m, k, now);
    }
    LeadsOn(c, s, taken, s1, rest, s');
    more := taken + rest;
  }

  // -- delivered means published ----------------------------------------------------------------

  /** The analysis of this key found nothing to report. */
  predicate Skips(s: State, e: Event, k: Key) {
    e.Work? && e.call == Analyze(Skipped) && e.w in s.workers && s.workers[e.w].key == k
  }

  predicate NeverSkipped(c: Config, s: State, es: seq<Event>, k: Key)
    requires Run(c, s, es).Some?
  {
    es != [] ==>
      var front := es[..|es| - 1];
      NeverSkipped(c, s, front, k) && !Skips(Run(c, s, front).value, es[|es| - 1], k)
  }

  /** All destinations below n accepted a report of k. */
  ghost predicate Out(s: State, k: Key, n: nat) {
    forall d :: 0 <= d < n ==> (k, d) in s.published
  }

  /** A worker on this key has the approval its phase implies. */
  ghost predicate Approved(c: Config, s: State, x: Worker) {
    match x.phase
    case Publishing(next, failed) => failed || Out(s, x.key, next)
    case Committing => Out(s, x.key, c.destinations)
    case _ => true
  }

  ghost predicate OnTheWay(c: Config, s: State, k: Key) {
    && (forall w :: w in s.workers && s.workers[w].key == k ==> Approved(c, s, s.workers[w]))
    && (k in s.settled ==> Out(s, k, c.destinations))
  }

  lemma OutStays(s: State, s': State, k: Key, n: nat)
    requires Out(s, k, n) && s.published <= s'.published
    ensures Out(s', k, n)
  {
  }

  lemma WorkOnTheWay(c: Config, s: State, e: Event, k: Key)
    requires e.Work? && OnTheWay(c, s, k) && Enabled(c, s, e) && !Skips(s, e, k)
    requires s.workers[e.w].key == k
    ensures var s' := Step(c, s, e);
            Approved(c, s', s'.workers[e.w]) && (k in s'.settled ==> Out(s', k, c.destinations))
  {
    assert Approved(c, s, s.workers[e.w]);
  }

  lemma StepOnTheWay(c: Config, s: State, e: Event, k: Key)
    requires OnTheWay(c, s, k) && Enabled(c, s, e) && !Skips(s, e, k)
    ensures OnTheWay(c, Step(c, s, e), k)
  {
    var s' := Step(c, s, e);
    forall n: nat | Out(s, k, n)
      ensures Out(s', k, n)
    {
      OutStays(s, s', k, n);
    }
    if e.Work? && s.workers[e.w].key == k {
      WorkOnTheWay(c, s, e, k);
    }
    forall w | w in s'.workers && s'.workers[w].key == k && !(e.Work? && e.w == w)
      ensures Approved(c, s', s'.workers[w])
    {
      if w in s.workers && s.workers[w].key == k {
        assert Approved(c, s, s.workers[w]);
      }
    }
  }

  /** A key whose events always had something to report is only settled with its report accepted by
      every destination. */
  lemma {:induction false} SettledMeansPublished(c: Config, s: State, es: seq<Event>, k: Key)
    requires Init(s) && Run(c, s, es).Some? && NeverSkipped(c, s, es, k) && k !in s.settled
    ensures OnTheWay(c, Run(c, s, es).value, k)
    ensures k in Run(c, s, es).value.settled ==> Out(Run(c, s, es).value, k, c.destinations)
  {
    if es != [] {
      SettledMeansPublished(c, s, es[..|es| - 1], k);
      StepOnTheWay(c, Run(c, s, es[..|es| - 1]).value, es[|es| - 1], k);
    }
  }
}
