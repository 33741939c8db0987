/** The event queue of a proxy, in every interleaving: references, order and wake-ups. */
module ProxyQueue {
  import opened Counting
  import opened Sequences
  import opened Wrappers
  import opened ProxyProtocol
  import opened ProxyInvariants

  // ---------------------------------------------------------------------------------------------
  // References
  // ---------------------------------------------------------------------------------------------

  /** The references the proxy holds beyond those of its queued events. */
  ghost function Surplus(q: Queue, e: Event): int {
    q.refs(e) - Occurrences(q.events, e)
  }

  lemma InsertSurplus(q: Queue, x: Event, e: Event)
    ensures Surplus(Insert(q, x), e) == Surplus(q, e)
  {
    OccurrencesAppend(q.events, [x], e);
  }

  lemma TakeSurplus(q: Queue, e: Event)
    requires q.events != []
    ensures Surplus(Take(q), e) == Surplus(q, e) + One(q.events[0] == e)
    ensures Surplus(Drop(Take(q), q.events[0]), e) == Surplus(q, e)
  {
  }

  /** Outside the queue, a thread's step gives it or takes from it exactly the reference of its event. */
  ghost predicate Balanced(s: State, s': State, t: Tid, e: Event) {
    Surplus(s'.queue, e) - Surplus(s.queue, e)
      == One(Meets(IsCarrying(e), s'.threads(t))) - One(Meets(IsCarrying(e), s.threads(t)))
  }

  lemma LoopBalances(s: State, t: Tid, op: Op, go: bool, e: Event)
    requires !s.threads(t).Calling?
    ensures Balanced(s, LoopTop(s, t, op, go), t, e)
  {
  }

  lemma BodyBalances(s: State, t: Tid, go: bool, w: Tid, e: Event)
    requires Holding(s.threads(t))
    ensures Balanced(s, BodyStep(s, t, go, w), t, e)
  {
    if s.queue.events != [] {
      TakeSurplus(s.queue, e);
    }
    match s.threads(t)
    case Entered(op) =>
      if op.AddEvent? {
        InsertSurplus(s.queue, op.event, e);
      }
      LoopBalances(s, t, op, go, e);
    case Resumed(op) => LoopBalances(s, t, op, go, e);
    case Returned(op, worked) =>
    case Checking(upcall) =>
    case Cleaning =>
  }

  lemma StepBalances(s: State, a: Action, e: Event)
    requires Enabled(s, a) && (a.Body? ==> Holding(s.threads(a.tid)))
    ensures Balanced(s, Step(s, a), a.tid, e)
  {
    match a
    case Enter(t, op) =>
    case Body(t, go, w) => BodyBalances(s, t, go, w, e);
    case Finish(t, worked) =>
    case Reacquire(t) =>
    case Spurious(t) =>
  }

  /** The references held are the queued occurrences plus the pushes in flight. */
  ghost predicate RefsOk(s: State) {
    forall e :: s.queue.refs(e) == Occurrences(s.queue.events, e) + Count(s.env.tids, s.threads, IsCarrying(e))
  }

  lemma KeepsRefs(s: State, a: Action)
    requires RefsOk(s) && Enabled(s, a) && (a.Body? ==> Holding(s.threads(a.tid))) && Moves(s, Step(s, a), a.tid)
    ensures RefsOk(Step(s, a))
  {
    var s' := Step(s, a);
    forall e
      ensures s'.queue.refs(e) == Occurrences(s'.queue.events, e) + Count(s'.env.tids, s'.threads, IsCarrying(e))
    {
      StepBalances(s, a, e);
      CountChange(s.env.tids, s.threads, s'.threads, a.tid, IsCarrying(e));
    }
  }

  // ---------------------------------------------------------------------------------------------
  // Order
  // ---------------------------------------------------------------------------------------------

  predicate Queues(kind: Kind) {
    kind.PushSupplier? || kind.PullSupplier?
  }

  /** What was taken, followed by the queue, is what was accepted, until the queue is cleared, as it is when an
      outcall fails. Only suppliers queue anything. */
  ghost predicate FifoOk(s: State) {
    && (!s.queue.cleared ==> s.queue.taken + s.queue.events == s.queue.accepted)
    && (s.queue.cleared ==> s.queue.events == [] && s.queue.taken <= s.queue.accepted
                            && (s.px == Exception || s.px == Disconnected))
    && (s.px == NotConnected ==> s.queue.accepted == [])
    && (!Queues(s.env.kind) || s.px == Exception ==> s.queue.events == [])
    && (!Queues(s.env.kind) ==> s.queue.accepted == [])
  }

  /** Every event taken or accepted so far stays so. */
  ghost predicate Extends(q: Queue, q': Queue) {
    q.taken <= q'.taken && q.accepted <= q'.accepted
  }

  lemma LoopKeepsFifo(s: State, t: Tid, op: Op, go: bool)
    requires FifoOk(s)
    ensures FifoOk(LoopTop(s, t, op, go)) && Extends(s.queue, LoopTop(s, t, op, go).queue)
  {
  }

  lemma TakeKeepsFifo(q: Queue)
    ensures q.events != [] && q.taken + q.events == q.accepted ==>
              Take(q).taken + Take(q).events == q.accepted
  {
  }

  lemma PlainKeepsFifo(s: State, t: Tid, op: Op, w: Tid)
    requires FifoOk(s) && Offers(s.env.kind, op) && !Bumping(op)
    ensures FifoOk(PlainBody(s, t, op, w)) && Extends(s.queue, PlainBody(s, t, op, w).queue)
  {
    TakeKeepsFifo(s.queue);
  }

  lemma BumpKeepsFifo(s: State, t: Tid, op: Op, go: bool)
    requires FifoOk(s) && Offers(s.env.kind, op) && Bumping(op)
    ensures FifoOk(BumpBody(s, t, op, go)) && Extends(s.queue, BumpBody(s, t, op, go).queue)
  {
    match op
    case PushEvent => TakeKeepsFifo(s.queue);
    case PullEvent =>
    case Dispose(why) =>
    case _ => LoopKeepsFifo(s, t, op, go);
  }

  lemma BodyKeepsFifo(s: State, t: Tid, go: bool, w: Tid)
    requires FifoOk(s) && (s.threads(t).Cleaning? ==> s.px == Disconnected) && Placed(s.env.kind, s.threads(t))
    ensures FifoOk(BodyStep(s, t, go, w)) && Extends(s.queue, BodyStep(s, t, go, w).queue)
  {
    match s.threads(t)
    case Entered(op) =>
      if Bumping(op) {
        BumpKeepsFifo(s, t, op, go);
      } else {
        PlainKeepsFifo(s, t, op, w);
      }
    case Resumed(op) => LoopKeepsFifo(s, t, op, go);
    case _ =>
  }

  lemma KeepsFifo(s: State, a: Action)
    requires FifoOk(s) && DisposerOk(s) && PlacedOk(s) && Enabled(s, a)
    ensures FifoOk(Step(s, a)) && Extends(s.queue, Step(s, a).queue)
  {
    match a
    case Enter(t, op) =>
    case Body(t, go, w) => BodyKeepsFifo(s, t, go, w);
    case Finish(t, worked) =>
    case Reacquire(t) =>
    case Spurious(t) =>
  }

  // ---------------------------------------------------------------------------------------------
  // Wake-ups
  // ---------------------------------------------------------------------------------------------

  predicate SleepingTaker(pc: Pc) {
    pc.Sleeping? && (pc.op.Pull? || pc.op.PushWorker?)
  }

  /** While a thread sleeps for events, there are at least as many woken takers as queued events. */
  ghost predicate StrandOk(s: State) {
    s.px == Connected ==>
      forall t {:trigger s.threads(t)} | t in s.env.tids && SleepingTaker(s.threads(t)) ::
        |s.queue.events| <= Count(s.env.tids, s.threads, IsWaking)
  }

  lemma CountSignal(tids: set<Tid>, before: Tid -> Pc, after: Tid -> Pc, w: Tid, test: Test)
    requires w in tids && !Meets(test, before(w)) && Meets(test, after(w))
    requires forall u | u in tids && Meets(test, before(u)) :: Meets(test, after(u))
    ensures Count(tids, before, test) + 1 <= Count(tids, after, test)
  {
    var b := Those(tids, before, test);
    assert |b + {w}| == |b| + 1;
    SubsetSize(b + {w}, Those(tids, after, test));
  }

  /** What the step of one thread does to the queue of a connected proxy. */
  ghost predicate Serves(s: State, s': State, t: Tid) {
    var p, q := s.threads(t), s'.threads(t);
    && (s'.px == Connected && s.px != Connected ==> s.px == NotConnected && s'.queue.events == s.queue.events)
    && (s'.px == Connected && s.px == Connected ==>
          || (s'.queue.events == s.queue.events && (Taker(p) ==> Taker(q) || s.queue.events == []))
          || (s.queue.events != [] && s'.queue.events == s.queue.events[1..])
          || (p.Entered? && p.op.AddEvent?))
    && (SleepingTaker(q) && q != p && s'.px == Connected ==> s'.queue.events == [])
  }

  lemma LoopServes(s: State, t: Tid, op: Op, go: bool)
    requires s.threads(t) == Entered(op) || s.threads(t) == Resumed(op)
    ensures Serves(s, LoopTop(s, t, op, go), t)
  {
  }

  lemma BodyServes(s: State, t: Tid, go: bool, w: Tid)
    requires Holding(s.threads(t)) && (s.threads(t).Cleaning? ==> s.px == Disconnected)
    ensures Serves(s, BodyStep(s, t, go, w), t)
  {
    match s.threads(t)
    case Entered(op) => LoopServes(s, t, op, go);
    case Resumed(op) => LoopServes(s, t, op, go);
    case _ =>
  }

  lemma StepServes(s: State, a: Action)
    requires Enabled(s, a) && (a.Body? ==> Holding(s.threads(a.tid))) && DisposerOk(s)
    ensures Serves(s, Step(s, a), a.tid)
  {
    match a
    case Enter(t, op) =>
    case Body(t, go, w) => BodyServes(s, t, go, w);
    case Finish(t, worked) =>
    case Reacquire(t) =>
    case Spurious(t) =>
  }

  /** An event that is added while threads sleep wakes one of them. */
  lemma AddingWakes(s: State, a: Action)
    requires Enabled(s, a) && a.Body? && s.threads(a.tid).Entered? && s.threads(a.tid).op.AddEvent? && s.px == Connected
    requires PlacedOk(s) && (exists t :: t in s.env.tids && SleepingTaker(s.threads(t)))
    ensures var s' := Step(s, a);
            && |s'.queue.events| == |s.queue.events| + 1
            && Count(s.env.tids, s'.threads, IsWaking) >= Count(s.env.tids, s.threads, IsWaking) + 1
  {
    var t :| t in s.env.tids && SleepingTaker(s.threads(t));
    assert Placed(s.env.kind, s.threads(t));
    var w := a.sleeper;
    assert w in s.env.tids && s.threads(w).Sleeping? && Placed(s.env.kind, s.threads(w));
    assert Placed(s.env.kind, s.threads(a.tid));
    CountSignal(s.env.tids, s.threads, Step(s, a).threads, w, IsWaking);
  }

  lemma KeepsStrand(s: State, a: Action)
    requires StrandOk(s) && PlacedOk(s) && FifoOk(s) && Enabled(s, a)
    requires Moves(s, Step(s, a), a.tid) && Serves(s, Step(s, a), a.tid)
    ensures StrandOk(Step(s, a))
  {
    var s', t := Step(s, a), a.tid;
    if s'.px == Connected && exists v :: v in s.env.tids && SleepingTaker(s'.threads(v)) {
      var v :| v in s.env.tids && SleepingTaker(s'.threads(v));
      if s.px == Connected && s'.queue.events != [] {
        assert SleepingTaker(s.threads(v));
        var p := s.threads(t);
        if p.Entered? && p.op.AddEvent? && a.Body? {
          AddingWakes(s, a);
        } else {
          // all others that were woken still are
          WakersStay(s, s', t);
        }
      }
    }
  }

  lemma WakersStay(s: State, s': State, t: Tid)
    requires Moves(s, s', t) && t in s.env.tids
    ensures Count(s.env.tids, s'.threads, IsWaking)
              >= Count(s.env.tids, s.threads, IsWaking) - One(Taker(s.threads(t))) + One(Taker(s'.threads(t)))
  {
    var m := Set(s.threads, t, s'.threads(t));
    CountChange(s.env.tids, s.threads, m, t, IsWaking);
    CountGrows(s.env.tids, m, s'.threads, IsWaking);
  }
}
