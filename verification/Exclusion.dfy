/** What the lease gives: as long as the store answers and every invocation ends within its
    timeout, one invocation at a time handles a key, it never touches another's row, a completed
    row stays completed, and each destination gets a key's report at most once unless an attempt
    on that key failed or crashed.

    The lease (330 s) outlives the timeout (300 s) by enough to absorb clock skew up to 14.5 s
    in either direction on both sides. */
module Exclusion {
  import opened Templates
  import opened Handler
  import opened Protocol

  const MAX_SKEW := 14.5

  predicate Synchronised(c: Config) {
    0.0 <= c.skew <= MAX_SKEW
  }

  /** The store applies every write and answers every read, and no invocation outlives its timeout. */
  predicate Reliable(s: State, e: Event) {
    match e
    case Put(_, applied, reply) => if applied then reply.PutOk? else reply.PutConditionalFailed?
    case Get(_, answered) => answered
    case Complete(_, applied) => applied
    case Release(_, applied) => applied
    case Tick(to) => forall w :: w in s.workers && s.workers[w].live ==> to <= s.workers[w].deadline
    case _ => true
  }

  predicate Owner(s: State, w: WorkerId, k: Key) {
    Live(s, w) && Owns(s.workers[w].phase) && s.workers[w].key == k
  }

  /** An invocation is within its timeout, and its clock readings are within the skew. */
  predicate InTime(c: Config, s: State, x: Worker) {
    && s.clock <= x.deadline <= s.clock + TIMEOUT_SECONDS
    && (x.phase.Claiming? ==>
          x.deadline - TIMEOUT_SECONDS - c.skew - 1.0 < x.phase.now as real <= s.clock + c.skew)
  }

  /** Its row is in place and cannot expire before the invocation has ended. */
  predicate HoldsRow(c: Config, s: State, w: WorkerId, x: Worker) {
    && x.key in s.rows
    && s.rows[x.key].status == Processing && s.rows[x.key].owner == w
    && s.rows[x.key].leaseUntil as real > x.deadline + 29.0 - c.skew
  }

  /** How many times destination d can have accepted the report of k so far. */
  function Bound(s: State, k: Key, d: nat): nat {
    if k !in s.rows then 0
    else if s.rows[k].status != Processing || s.rows[k].owner !in s.workers then 1
    else match s.workers[s.rows[k].owner].phase
      case Working => 0
      case Publishing(next, _) => if d < next then 1 else 0
      case _ => 1
  }

  predicate Exclusive(c: Config, s: State, w: WorkerId, x: Worker) {
    && InTime(c, s, x) && !x.phase.Done?
    && (Owns(x.phase) ==> HoldsRow(c, s, w, x))
    && (x.phase.Releasing? ==> x.key in s.troubled)
  }

  predicate WorkersExclusive(c: Config, s: State) {
    forall w :: w in s.workers && s.workers[w].live ==>
      Exclusive(c, s, w, s.workers[w])
  }

  predicate RowsOwned(s: State) {
    forall k :: k in s.rows && s.rows[k].status == Processing && k !in s.troubled ==> Owner(s, s.rows[k].owner, k)
  }

  ghost predicate PublishedBounded(s: State) {
    forall k, d: nat :: k !in s.troubled ==> s.published[(k, d)] <= Bound(s, k, d)
  }

  ghost predicate Invariant(c: Config, s: State) {
    WorkersExclusive(c, s) && RowsOwned(s) && PublishedBounded(s)
  }

  // -- steps ----------------------------------------------------------------------------

  /** While an invocation holds its row, nobody else's claim on the key can succeed. */
  lemma LeaseOutlives(c: Config, s: State, w: WorkerId, now: int)
    requires Synchronised(c) && WorkersExclusive(c, s) && Live(s, w) && Owns(s.workers[w].phase)
    requires now as real <= s.clock + c.skew
    ensures !Claimable(s, s.workers[w].key, now)
  {
    assert HoldsRow(c, s, w, s.workers[w]) && InTime(c, s, s.workers[w]);
  }

  lemma OthersKeepRows(c: Config, s: State, e: Event, v: WorkerId)
    requires Synchronised(c) && WorkersExclusive(c, s) && Enabled(c, s, e) && Reliable(s, e)
    requires Live(s, v) && (e.Send? || e.Tick? || e.w != v)
    ensures var s' := Step(c, s, e);
            && v in s'.workers && s'.workers[v] == s.workers[v]
            && InTime(c, s', s.workers[v])
            && (Owns(s.workers[v].phase) ==> HoldsRow(c, s', v, s.workers[v]))
  {
    var x := s.workers[v];
    assert InTime(c, s, x);
    if Owns(x.phase) {
      assert HoldsRow(c, s, v, x);
      if e.Put? {
        assert InTime(c, s, s.workers[e.w]);
        LeaseOutlives(c, s, v, s.workers[e.w].phase.now);
      } else if e.Complete? || e.Release? {
        assert HoldsRow(c, s, e.w, s.workers[e.w]);
      }
    }
  }

  lemma MoverExclusive(c: Config, s: State, e: Event)
    requires Synchronised(c) && WorkersExclusive(c, s) && Enabled(c, s, e) && Reliable(s, e)
    requires !e.Send? && !e.Tick?
    ensures var s' := Step(c, s, e); s'.workers[e.w].live ==> Exclusive(c, s', e.w, s'.workers[e.w])
  {
    if e.Put? {
      PutExclusive(c, s, e);
    } else if e.Work? {
      WorkExclusive(c, s, e);
    } else if e.w in s.workers {
      assert InTime(c, s, s.workers[e.w]);
    }
  }

  lemma PutExclusive(c: Config, s: State, e: Event)
    requires Synchronised(c) && WorkersExclusive(c, s) && Enabled(c, s, e) && Reliable(s, e) && e.Put?
    ensures var s' := Step(c, s, e); Exclusive(c, s', e.w, s'.workers[e.w])
  {
    assert InTime(c, s, s.workers[e.w]);
  }

  lemma WorkExclusive(c: Config, s: State, e: Event)
    requires Synchronised(c) && WorkersExclusive(c, s) && Enabled(c, s, e) && Reliable(s, e) && e.Work?
    ensures var s' := Step(c, s, e); Exclusive(c, s', e.w, s'.workers[e.w])
  {
    assert HoldsRow(c, s, e.w, s.workers[e.w]);
  }

  lemma StepWorkers(c: Config, s: State, e: Event)
    requires Synchronised(c) && WorkersExclusive(c, s) && Enabled(c, s, e) && Reliable(s, e)
    ensures WorkersExclusive(c, Step(c, s, e))
  {
    var s' := Step(c, s, e);
    forall w | w in s'.workers && s'.workers[w].live
      ensures Exclusive(c, s', w, s'.workers[w])
    {
      if e.Send? || e.Tick? || e.w != w {
        OthersKeepRows(c, s, e, w);
      } else {
        MoverExclusive(c, s, e);
      }
    }
  }

  lemma StepRows(c: Config, s: State, e: Event)
    requires Synchronised(c) && Invariant(c, s) && Enabled(c, s, e) && Reliable(s, e)
    ensures RowsOwned(Step(c, s, e))
  {
  }

  lemma StepPublished(c: Config, s: State, e: Event)
    requires Synchronised(c) && Invariant(c, s) && Enabled(c, s, e) && Reliable(s, e)
    ensures PublishedBounded(Step(c, s, e))
  {
  }

  // -- runs -----------------------------------------------------------------------------

  /** A run in which every step is reliable. */
  predicate ReliableRun(c: Config, s: State, es: seq<Event>) {
    es != [] ==>
      var front, last := es[..|es| - 1], es[|es| - 1];
      && ReliableRun(c, s, front)
      && Run(c, s, front).Some? && Enabled(c, Run(c, s, front).value, last)
      && Reliable(Run(c, s, front).value, last)
  }

  lemma {:induction false} RunInvariant(c: Config, s: State, es: seq<Event>)
    requires Synchronised(c) && Init(s) && ReliableRun(c, s, es)
    ensures Run(c, s, es).Some? && Invariant(c, Run(c, s, es).value)
  {
    if es != [] {
      RunInvariant(c, s, es[..|es| - 1]);
      var before, e := Run(c, s, es[..|es| - 1]).value, es[|es| - 1];
      StepWorkers(c, before, e);
      StepRows(c, before, e);
      StepPublished(c, before, e);
    }
  }

  /** At most one invocation at a time handles a key. */
  lemma {:induction false} MutualExclusion(c: Config, s: State, es: seq<Event>, v: WorkerId, w: WorkerId, k: Key)
    requires Synchronised(c) && Init(s) && ReliableRun(c, s, es)
    requires Run(c, s, es).Some? && Owner(Run(c, s, es).value, v, k) && Owner(Run(c, s, es).value, w, k)
    ensures v == w
  {
    RunInvariant(c, s, es);
  }

  /** An invocation only ever deletes or completes the row it wrote itself. */
  lemma {:induction false} OnlyOwnRow(c: Config, s: State, es: seq<Event>, e: Event)
    requires Synchronised(c) && Init(s) && ReliableRun(c, s, es)
    requires Run(c, s, es).Some? && Enabled(c, Run(c, s, es).value, e) && (e.Complete? || e.Release?)
    ensures var s' := Run(c, s, es).value; var k := s'.workers[e.w].key;
            k in s'.rows && s'.rows[k].status == Processing && s'.rows[k].owner == e.w
  {
    RunInvariant(c, s, es);
    var s' := Run(c, s, es).value;
    assert Exclusive(c, s', e.w, s'.workers[e.w]);
  }

  predicate IsCompleted(s: State, k: Key) {
    k in s.rows && s.rows[k].status == Completed
  }

  /** A completed row stays completed, and no claim on it is acquired. */
  lemma {:induction false} CompletedIsTerminal(c: Config, s: State, es: seq<Event>, e: Event, k: Key)
    requires Synchronised(c) && Init(s) && ReliableRun(c, s, es + [e])
    requires Run(c, s, es).Some? && IsCompleted(Run(c, s, es).value, k)
    ensures Run(c, s, es + [e]).Some? && IsCompleted(Run(c, s, es + [e]).value, k)
    ensures var s' := Run(c, s, es).value; e.Put? && s'.workers[e.w].key == k ==> e.reply != PutOk
  {
    assert (es + [e])[..|es + [e]| - 1] == es && (es + [e])[|es|] == e;
    RunInvariant(c, s, es);
    var s' := Run(c, s, es).value;
    if e.Complete? || e.Release? {
      assert Exclusive(c, s', e.w, s'.workers[e.w]);
    }
  }

  /** Unless an attempt on the key failed or crashed, each destination accepts its report at most once. */
  lemma {:induction false} AtMostOnce(c: Config, s: State, es: seq<Event>, k: Key, d: nat)
    requires Synchronised(c) && Init(s) && ReliableRun(c, s, es)
    ensures Run(c, s, es).Some?
    ensures var s' := Run(c, s, es).value; k !in s'.troubled ==> s'.published[(k, d)] <= 1
  {
    RunInvariant(c, s, es);
  }
}
