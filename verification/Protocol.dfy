/** Any number of analyzer invocations against one claim table and one queue, with redelivery,
    crashes, a store that may be unreachable or answer ambiguously, and skewed clocks
    (src/runtime/idempotency.py, handlers.py:189-312).

    The steps are the calls of Handler.Advance, each with its effect on the shared state. A row
    remembers which invocation wrote it (`owner`); no step reads that, it only serves to say
    whose row is deleted or completed. */
module Protocol {
  import opened Templates
  import opened Handler

  type Key = string
  type Msg = nat
  type WorkerId = nat

  const LEASE_SECONDS := 330
  const TIMEOUT_SECONDS := 300.0

  /** Publish destinations, and how far any worker's clock may be from the common one. */
  datatype Config = Config(destinations: nat, skew: real)

  datatype Status = Processing | Completed | Legacy

  datatype Row = Row(status: Status, leaseUntil: int, owner: WorkerId)

  /** One invocation of the analyzer with its batch: messages still to do, handled without an
      exception, failed, and the one in hand with the phase of its handling. */
  datatype Worker = Worker(
    live: bool, deadline: real,
    todo: set<Msg>, ok: set<Msg>, failed: set<Msg>,
    current: Option<Msg>, key: Key, phase: Phase)

  /** `queue` holds the messages not yet deleted. The last four fields are history: keys ever
      sent, keys whose outcome was delivered, keys an attempt failed on, and accepted reports. */
  datatype State = State(
    clock: real,
    rows: map<Key, Row>,
    queue: map<Msg, Key>,
    workers: map<WorkerId, Worker>,
    sent: set<Key>,
    settled: set<Key>,
    troubled: set<Key>,
    published: multiset<(Key, nat)>)

  datatype Event =
    | Send(m: Msg, k: Key)
    | Receive(w: WorkerId, batch: set<Msg>)
    | Begin(w: WorkerId, m: Msg, now: int)
    | Put(w: WorkerId, applied: bool, reply: PutReply)
    | Get(w: WorkerId, answered: bool)
    | Work(w: WorkerId, call: Call)
    | Complete(w: WorkerId, applied: bool)
    | Release(w: WorkerId, applied: bool)
    | Crash(w: WorkerId)
    | Return(w: WorkerId)
    | Tick(to: real)

  function InHand(w: Worker): set<Msg> {
    if w.current.Some? then {w.current.value} else {}
  }

  function Held(w: Worker): set<Msg> {
    w.todo + w.ok + w.failed + InHand(w)
  }

  predicate Live(s: State, w: WorkerId) {
    w in s.workers && s.workers[w].live
  }

  /** The condition of the claim's put: no row, or an expired lease. */
  predicate Claimable(s: State, k: Key, now: int) {
    k !in s.rows || (s.rows[k].status == Processing && s.rows[k].leaseUntil < now)
  }

  function StatusOf(s: State, k: Key): GetReply {
    if k !in s.rows then NoRow
    else match s.rows[k].status
      case Processing => StatusProcessing
      case Completed => StatusCompleted
      case Legacy => NoStatus
  }

  /** The call a step of a worker makes. */
  function CallOf(s: State, e: Event): Call
    requires e.Begin? || e.Put? || (e.Get? && e.w in s.workers) || e.Work? || e.Complete? || e.Release?
  {
    match e
    case Begin(_, _, now) => ReadClock(now)
    case Put(_, _, reply) => PutClaim(reply)
    case Get(w, answered) => GetRow(if answered then StatusOf(s, s.workers[w].key) else GetError)
    case Work(_, call) => call
    case Complete(_, _) => CompleteRow
    case Release(_, _) => DeleteRow
  }

  function NextPhase(c: Config, s: State, e: Event): Option<Phase>
    requires e.Put? || e.Get? || e.Work? || e.Complete? || e.Release?
    requires e.w in s.workers
  {
    Advance(c.destinations, s.workers[e.w].phase, CallOf(s, e))
  }

  /** Which steps are possible. Anything the store may do is: a put can be applied and still be
      reported as an error, or as a conditional failure when the client library retried it. */
  predicate Enabled(c: Config, s: State, e: Event) {
    match e
    case Send(m, _) => m !in s.queue
    case Receive(w, batch) =>
      && w !in s.workers && batch <= s.queue.Keys
      && forall v :: v in s.workers && s.workers[v].live ==> Held(s.workers[v]) !! batch
    case Begin(w, m, now) =>
      && Live(s, w) && s.workers[w].phase.Ready? && m in s.workers[w].todo && m in s.queue
      && s.clock - c.skew - 1.0 < now as real <= s.clock + c.skew
    case Put(w, applied, reply) =>
      && Live(s, w) && s.workers[w].phase.Claiming?
      && var can := Claimable(s, s.workers[w].key, s.workers[w].phase.now);
         (applied ==> can) && (reply.PutOk? ==> applied) && (reply.PutConditionalFailed? ==> applied || !can)
    case Get(w, _) => Live(s, w) && s.workers[w].phase.Inspecting?
    case Work(w, call) =>
      && Live(s, w) && (call.Analyze? || call.PublishTo? || call.Commit?)
      && NextPhase(c, s, e).Some?
    case Complete(w, _) => Live(s, w) && s.workers[w].phase.Completing?
    case Release(w, _) => Live(s, w) && s.workers[w].phase.Releasing?
    case Crash(w) => Live(s, w)
    case Return(w) => Live(s, w) && s.workers[w].phase.Ready? && s.workers[w].todo == {}
    case Tick(to) => s.clock <= to
  }

  /** The worker after its handling reached phase p. */
  function Progress(w: Worker, p: Phase): Worker {
    if !p.Done? then w.(phase := p)
    else if p.ok then w.(phase := Ready, current := None, ok := w.ok + InHand(w))
    else w.(phase := Ready, current := None, failed := w.failed + InHand(w))
  }

  function WithRow(s: State, k: Key, row: Row): State {
    s.(rows := s.rows[k := row])
  }

  function Step(c: Config, s: State, e: Event): State
    requires Enabled(c, s, e)
  {
    match e
    case Send(m, k) => s.(queue := s.queue[m := k], sent := s.sent + {k})
    case Receive(w, batch) =>
      s.(workers := s.workers[w := Worker(true, s.clock + TIMEOUT_SECONDS, batch, {}, {}, None, "", Ready)])
    case Begin(w, m, now) =>
      var x := s.workers[w];
      s.(workers := s.workers[w := x.(todo := x.todo - {m}, current := Some(m), key := s.queue[m],
                                      phase := Claiming(now))])
    case Put(w, applied, reply) =>
      var x := s.workers[w];
      var s' := s.(workers := s.workers[w := Progress(x, NextPhase(c, s, e).value)]);
      if applied then WithRow(s', x.key, Row(Processing, x.phase.now + LEASE_SECONDS, w)) else s'
    case Get(w, _) =>
      s.(workers := s.workers[w := Progress(s.workers[w], NextPhase(c, s, e).value)])
    case Work(w, call) =>
      var x := s.workers[w];
      var p := NextPhase(c, s, e).value;
      s.(workers := s.workers[w := Progress(x, p)],
         settled := if call == Commit(true) then s.settled + {x.key} else s.settled,
         troubled := if p.Releasing? then s.troubled + {x.key} else s.troubled,
         published := if call.PublishTo? && call.accepted
                      then s.published + multiset{(x.key, call.destination)} else s.published)
    case Complete(w, applied) =>
      var x := s.workers[w];
      var s' := s.(workers := s.workers[w := Progress(x, NextPhase(c, s, e).value)]);
      // update_item creates the row when it is missing
      if applied then WithRow(s', x.key, Row(Completed, 0, if x.key in s.rows then s.rows[x.key].owner else w)) else s'
    case Release(w, applied) =>
      var x := s.workers[w];
      s.(workers := s.workers[w := Progress(x, NextPhase(c, s, e).value)],
         rows := if applied then s.rows - {x.key} else s.rows)
    case Crash(w) =>
      var x := s.workers[w];
      s.(workers := s.workers[w := x.(live := false)],
         troubled := if Owns(x.phase) then s.troubled + {x.key} else s.troubled)
    case Return(w) =>
      var x := s.workers[w];
      s.(workers := s.workers[w := x.(live := false)], queue := s.queue - x.ok)
    case Tick(to) => s.(clock := to)
  }

  /** A fresh deployment, or one whose table holds rows that older releases wrote for completed work. */
  predicate Init(s: State) {
    && s.queue == map[] && s.workers == map[] && s.sent == {} && s.troubled == {} && s.published == multiset{}
    && forall k :: k in s.rows ==> s.rows[k].status == Legacy && k in s.settled
  }

  /** The state a sequence of events leads to, or None if some event was not possible. */
  function Run(c: Config, s: State, es: seq<Event>): Option<State> {
    if es == [] then Some(s)
    else
      var before := Run(c, s, es[..|es| - 1]);
      if before.None? || !Enabled(c, before.value, es[|es| - 1]) then None
      else Some(Step(c, before.value, es[|es| - 1]))
  }
}
