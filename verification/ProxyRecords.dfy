/** What every step of a proxy does, told by the places of the threads and the state they meet, and with it what
    the history of the queue records over a run. */
module ProxyRecords {
  import opened Wrappers
  import opened ProxyProtocol
  import opened ProxyInvariants

  // ---------------------------------------------------------------------------------------------
  // Where a thread goes, and whom it wakes
  // ---------------------------------------------------------------------------------------------

  /** Thread `t` acts under the lock; a signal of it reaches `w`, or nobody sleeps. */
  ghost predicate Acts(s: State, t: Tid, w: Tid) {
    && t in s.env.tids && s.lock.holder == Some(t)
    && ((w in s.env.tids && s.threads(w).Sleeping?) || forall u | u in s.env.tids :: !s.threads(u).Sleeping?)
  }

  /** An operation that has just begun or is at the top of its loop. `some`: an event is queued. */
  function Onward(s: State, op: Op, go: bool): Pc {
    var on, some, ended := s.px == Connected, s.queue.events != [], s.px == Exception || s.px == Disconnected;
    match op
    case Pull => if on && !some then Sleeping(op) else Idle
    case PushEvent => if on && some then Calling(op, Some(s.queue.events[0])) else Idle
    case PullEvent => if on && go then Calling(op, None) else Idle
    case PushWorker =>
      if ended then Idle else if on && some then Calling(op, Some(s.queue.events[0])) else Sleeping(op)
    case PullWorker => if ended then Idle else if on && go then Calling(op, None) else Sleeping(op)
    case Dispose(Request(upcall)) => if s.px == Disconnected then Idle else Checking(upcall)
    case Dispose(Garbage) => if s.px == Disconnected || !go then Idle else Checking(true)
    case Dispose(Cleanup) => if s.px == Disconnected || on then Idle else Checking(true)
    case _ => Idle
  }

  /** The next place of thread `t`. */
  function Destination(s: State, t: Tid, go: bool): Pc {
    match s.threads(t)
    case Entered(op) => if op.Pull? && s.px == NotConnected then Idle else Onward(s, op, go)
    case Resumed(op) => Onward(s, op, go)
    case Returned(op, _) => if op.PushWorker? || op.PullWorker? then Resumed(op) else Idle
    case Checking(upcall) =>
      if s.lock.inuse > 1 then WaitingOne(upcall, false) else if upcall then Upcalling else Cleaning
    case Cleaning => Idle
    case _ => s.threads(t)
  }

  /** Sleepers are woken one at a time by a connection or an event that a thread may be waiting for, and all
      together by a disposer that starts to wait, which in turn is woken when the count drops from two to one. */
  ghost predicate Wakes(s: State, t: Tid, go: bool, w: Tid, u: Tid) {
    var p, q := s.threads(t), Destination(s, t, go);
    var worker := s.env.kind == PullConsumer(true) || s.env.kind == PushSupplier(true);
    match s.threads(u)
    case Sleeping(_) =>
      || q.WaitingOne?
      || (u == w && p == Entered(Connect) && s.px == NotConnected && worker)
      || (u == w && Arriving(s, t) != [] && (s.env.kind.PullSupplier? || worker))
    case WaitingOne(_, _) => Bumped(p) && q.Idle? && s.lock.inuse == 2
    case _ => false
  }

  function Awake(pc: Pc): Pc {
    match pc
    case Sleeping(op) => Woken(op)
    case WaitingOne(upcall, _) => WaitingOne(upcall, true)
    case _ => pc
  }

  // ---------------------------------------------------------------------------------------------
  // What becomes of the queue
  // ---------------------------------------------------------------------------------------------

  /** The event that thread `t` brings. */
  function Arriving(s: State, t: Tid): seq<Event> {
    match s.threads(t)
    case Entered(AddEvent(e)) => if s.px == Connected then [e] else []
    case _ => []
  }

  /** The event that it takes: a consumer that pulls, or a thread that is about to push. */
  function Leaving(s: State, t: Tid): seq<Event> {
    var pc := s.threads(t);
    var takes := (pc.Entered? && (pc.op.TryPull? || pc.op.PushEvent?))
                 || ((pc.Entered? || pc.Resumed?) && (pc.op.Pull? || pc.op.PushWorker?));
    if s.px == Connected && s.queue.events != [] && takes then [s.queue.events[0]] else []
  }

  /** It clears the queue after a failed push, or on disposal. */
  predicate Clearing(s: State, t: Tid) {
    match s.threads(t)
    case Cleaning => true
    case Returned(op, worked) => s.px == Connected && !worked && (op.PushEvent? || op.PushWorker?)
    case _ => false
  }

  ghost predicate Records(s: State, s': State, t: Tid) {
    var q, q' := s.queue, s'.queue;
    && q'.accepted == q.accepted + Arriving(s, t)
    && q'.taken == q.taken + Leaving(s, t)
    && (q'.cleared <==> q.cleared || Clearing(s, t))
    && q'.events == if Clearing(s, t) then [] else if Leaving(s, t) != [] then q.events[1..]
                    else q.events + Arriving(s, t)
  }

  // ---------------------------------------------------------------------------------------------
  // Every step
  // ---------------------------------------------------------------------------------------------

  /** The whole effect of what thread `t` does under the lock. */
  ghost predicate Does(s: State, s': State, t: Tid, go: bool, w: Tid) {
    && s'.threads(t) == Destination(s, t, go)
    && Records(s, s', t)
    && forall u {:trigger s'.threads(u)} | u in s.env.tids && u != t ::
         s'.threads(u) == if Wakes(s, t, go, w, u) then Awake(s.threads(u)) else s.threads(u)
  }

  lemma Unchanged(q: Queue)
    ensures q.accepted + [] == q.accepted && q.taken + [] == q.taken && q.events + [] == q.events
  {
  }

  lemma ConnectDoes(s: State, t: Tid, go: bool, w: Tid)
    requires s.threads(t) == Entered(Connect) && Acts(s, t, w)
    ensures Does(s, PlainBody(s, t, Connect, w), t, go, w)
  {
    Unchanged(s.queue);
  }

  lemma AddEventDoes(s: State, t: Tid, e: Event, go: bool, w: Tid)
    requires s.threads(t) == Entered(AddEvent(e)) && Acts(s, t, w)
    ensures Does(s, PlainBody(s, t, AddEvent(e), w), t, go, w)
  {
    Unchanged(s.queue);
  }

  lemma TryPullDoes(s: State, t: Tid, go: bool, w: Tid)
    requires s.threads(t) == Entered(TryPull) && Acts(s, t, w)
    ensures Does(s, PlainBody(s, t, TryPull, w), t, go, w)
  {
    Unchanged(s.queue);
  }

  lemma PlainDoes(s: State, t: Tid, op: Op, go: bool, w: Tid)
    requires s.threads(t) == Entered(op) && !Bumping(op) && Acts(s, t, w)
    ensures Does(s, PlainBody(s, t, op, w), t, go, w)
  {
    match op
    case Connect => ConnectDoes(s, t, go, w);
    case AddEvent(e) => AddEventDoes(s, t, e, go, w);
    case TryPull => TryPullDoes(s, t, go, w);
    case PushIn => Unchanged(s.queue);
  }

  /** Thread `t` is at the top of the loop of operation `op`. */
  predicate AtLoop(s: State, t: Tid, op: Op) {
    s.threads(t) == Resumed(op) || (s.threads(t) == Entered(op) && (op.Pull? ==> s.px != NotConnected))
  }

  lemma PullTakesDoes(s: State, t: Tid, go: bool, w: Tid)
    requires AtLoop(s, t, Pull) && Acts(s, t, w) && s.px == Connected && s.queue.events != []
    ensures Does(s, PullLoop(s, t), t, go, w)
  {
    Unchanged(s.queue);
  }

  lemma PullDoes(s: State, t: Tid, go: bool, w: Tid)
    requires AtLoop(s, t, Pull) && Acts(s, t, w)
    ensures Does(s, PullLoop(s, t), t, go, w)
  {
    if s.px == Connected && s.queue.events != [] {
      PullTakesDoes(s, t, go, w);
    } else {
      Unchanged(s.queue);
    }
  }

  lemma PushWorkerDoes(s: State, t: Tid, go: bool, w: Tid)
    requires AtLoop(s, t, PushWorker) && Acts(s, t, w)
    ensures Does(s, PushLoop(s, t), t, go, w)
  {
    Unchanged(s.queue);
  }

  lemma PullWorkerDoes(s: State, t: Tid, go: bool, w: Tid)
    requires AtLoop(s, t, PullWorker) && Acts(s, t, w)
    ensures Does(s, PullWorkerLoop(s, t, go), t, go, w)
  {
    Unchanged(s.queue);
  }

  lemma LoopDoes(s: State, t: Tid, op: Op, go: bool, w: Tid)
    requires AtLoop(s, t, op) && Waits(op) && Acts(s, t, w)
    ensures Does(s, LoopTop(s, t, op, go), t, go, w)
  {
    match op
    case Pull => PullDoes(s, t, go, w);
    case PushWorker => PushWorkerDoes(s, t, go, w);
    case PullWorker => PullWorkerDoes(s, t, go, w);
  }

  lemma PushEventDoes(s: State, t: Tid, go: bool, w: Tid)
    requires s.threads(t) == Entered(PushEvent) && Acts(s, t, w)
    ensures Does(s, BumpBody(s, t, PushEvent, go), t, go, w)
  {
    Unchanged(s.queue);
  }

  lemma PullEventDoes(s: State, t: Tid, go: bool, w: Tid)
    requires s.threads(t) == Entered(PullEvent) && Acts(s, t, w)
    ensures Does(s, BumpBody(s, t, PullEvent, go), t, go, w)
  {
    Unchanged(s.queue);
  }

  lemma DisposeDoes(s: State, t: Tid, why: Reason, go: bool, w: Tid)
    requires s.threads(t) == Entered(Dispose(why)) && Acts(s, t, w)
    ensures Does(s, StartDispose(s, t, why, go), t, go, w)
  {
    Unchanged(s.queue);
  }

  lemma EarlyPullDoes(s: State, t: Tid, go: bool, w: Tid)
    requires s.threads(t) == Entered(Pull) && s.px == NotConnected && Acts(s, t, w)
    ensures Does(s, BumpBody(s, t, Pull, go), t, go, w)
  {
    Unchanged(s.queue);
  }

  lemma BumpDoes(s: State, t: Tid, op: Op, go: bool, w: Tid)
    requires s.threads(t) == Entered(op) && Bumping(op) && Acts(s, t, w)
    ensures Does(s, BumpBody(s, t, op, go), t, go, w)
  {
    match op
    case PushEvent => PushEventDoes(s, t, go, w);
    case PullEvent => PullEventDoes(s, t, go, w);
    case Dispose(why) => DisposeDoes(s, t, why, go, w);
    case _ =>
      if op.Pull? && s.px == NotConnected {
        EarlyPullDoes(s, t, go, w);
      } else {
        LoopDoes(s, t, op, go, w);
      }
  }

  lemma WorkerReturnDoes(s: State, t: Tid, op: Op, worked: bool, go: bool, w: Tid)
    requires s.threads(t) == Returned(op, worked) && (op.PushWorker? || op.PullWorker?) && Acts(s, t, w)
    ensures Does(s, AfterCall(s, t, op, worked), t, go, w)
  {
    Unchanged(s.queue);
  }

  lemma CallReturnDoes(s: State, t: Tid, op: Op, worked: bool, go: bool, w: Tid)
    requires s.threads(t) == Returned(op, worked) && (op.PushEvent? || op.PullEvent?) && Acts(s, t, w)
    ensures Does(s, AfterCall(s, t, op, worked), t, go, w)
  {
    Unchanged(s.queue);
  }

  lemma AfterDoes(s: State, t: Tid, op: Op, worked: bool, go: bool, w: Tid)
    requires s.threads(t) == Returned(op, worked) && Calls(op) && Acts(s, t, w)
    ensures Does(s, AfterCall(s, t, op, worked), t, go, w)
  {
    if op.PushWorker? || op.PullWorker? {
      WorkerReturnDoes(s, t, op, worked, go, w);
    } else {
      CallReturnDoes(s, t, op, worked, go, w);
    }
  }

  lemma CheckDoes(s: State, t: Tid, upcall: bool, go: bool, w: Tid)
    requires s.threads(t) == Checking(upcall) && Acts(s, t, w)
    ensures Does(s, Check(s, t, upcall), t, go, w)
  {
    Unchanged(s.queue);
  }

  lemma CleanDoes(s: State, t: Tid, go: bool, w: Tid)
    requires s.threads(t).Cleaning? && Acts(s, t, w)
    ensures Does(s, Clean(s, t), t, go, w)
  {
    Unchanged(s.queue);
  }

  lemma BodyDoes(s: State, t: Tid, go: bool, w: Tid)
    requires Acts(s, t, w) && Holding(s.threads(t)) && Placed(s.env.kind, s.threads(t))
    ensures Does(s, BodyStep(s, t, go, w), t, go, w)
  {
    match s.threads(t)
    case Entered(op) =>
      if Bumping(op) {
        BumpDoes(s, t, op, go, w);
      } else {
        PlainDoes(s, t, op, go, w);
      }
    case Resumed(op) => LoopDoes(s, t, op, go, w);
    case Returned(op, worked) => AfterDoes(s, t, op, worked, go, w);
    case Checking(upcall) => CheckDoes(s, t, upcall, go, w);
    case Cleaning => CleanDoes(s, t, go, w);
  }

  /** Outside the lock only the scheduled thread moves, and the queue stays as it is. */
  ghost predicate Moved(s: State, s': State, t: Tid, q: Pc) {
    && (forall u {:trigger s'.threads(u)} | u in s.env.tids :: s'.threads(u) == if u == t then q else s.threads(u))
    && s'.queue.events == s.queue.events && s'.queue.accepted == s.queue.accepted
    && s'.queue.taken == s.queue.taken && s'.queue.cleared == s.queue.cleared
  }

  /** Where a thread is once it has the lock again. */
  function Regained(pc: Pc): Pc {
    match pc
    case Woken(op) => Resumed(op)
    case WaitingOne(upcall, woken) => if woken then Checking(upcall) else pc
    case Back(op, worked) => Returned(op, worked)
    case Upcalling => Cleaning
    case _ => pc
  }

  /** Every action of a thread that is where the action begins. */
  lemma StepDoes(s: State, a: Action)
    requires Safe(s) && a.tid in s.env.tids
    ensures var s', t := Step(s, a), a.tid;
            match a
            case Enter(_, op) =>
              s.threads(t).Idle? && s.lock.holder == None && Offers(s.env.kind, op) ==>
                Moved(s, s', t, if s.lock.owned then Entered(op) else Idle)
            case Body(_, go, w) => Acts(s, t, w) ==> Does(s, s', t, go, w)
            case Finish(_, worked) => s.threads(t).Calling? ==> Moved(s, s', t, Back(s.threads(t).op, worked))
            case Reacquire(_) => s.lock.holder == None ==> Moved(s, s', t, Regained(s.threads(t)))
            case Spurious(_) => Moved(s, s', t, Awake(s.threads(t)))
  {
    assert Placed(s.env.kind, s.threads(a.tid)) && !s.threads(a.tid).Fatal?;
    assert Holding(s.threads(a.tid)) <==> s.lock.holder == Some(a.tid);
    if a.Body? && Acts(s, a.tid, a.sleeper) {
      BodyDoes(s, a.tid, a.go, a.sleeper);
    }
  }

  // ---------------------------------------------------------------------------------------------
  // Runs
  // ---------------------------------------------------------------------------------------------

  ghost predicate ActsIn(s: State, a: Action) {
    a.Body? && Acts(s, a.tid, a.sleeper)
  }

  /** The events that came to the connected proxy while the actions ran, in order. */
  ghost function Arrivals(s: State, actions: seq<Action>): seq<Event>
    decreases |actions|
  {
    if actions == [] then [] else
    (if ActsIn(s, actions[0]) then Arriving(s, actions[0].tid) else []) + Arrivals(Step(s, actions[0]), actions[1..])
  }

  /** The events that were taken out, in order. */
  ghost function Departures(s: State, actions: seq<Action>): seq<Event>
    decreases |actions|
  {
    if actions == [] then [] else
    (if ActsIn(s, actions[0]) then Leaving(s, actions[0].tid) else []) + Departures(Step(s, actions[0]), actions[1..])
  }

  /** A push failed meanwhile, or the proxy was disposed of. */
  ghost predicate WasCleared(s: State, actions: seq<Action>)
    decreases |actions|
  {
    actions != []
    && ((ActsIn(s, actions[0]) && Clearing(s, actions[0].tid)) || WasCleared(Step(s, actions[0]), actions[1..]))
  }

  ghost predicate RecordsAll(s: State, s': State, a: Action) {
    var q, q' := s.queue, s'.queue;
    && q'.accepted == q.accepted + (if ActsIn(s, a) then Arriving(s, a.tid) else [])
    && q'.taken == q.taken + (if ActsIn(s, a) then Leaving(s, a.tid) else [])
    && (q'.cleared <==> q.cleared || (ActsIn(s, a) && Clearing(s, a.tid)))
  }

  lemma StepRecords(s: State, a: Action)
    requires Safe(s)
    ensures RecordsAll(s, Step(s, a), a)
  {
    Unchanged(s.queue);
    if Enabled(s, a) {
      StepDoes(s, a);
    }
  }

  lemma Associative(a: seq<Event>, b: seq<Event>, c: seq<Event>)
    ensures (a + b) + c == a + (b + c)
  {
  }

  /** The history of the queue is what happened during the run. */
  lemma {:induction false} RunRecords(s: State, actions: seq<Action>)
    requires Safe(s)
    ensures Run(s, actions).queue.accepted == s.queue.accepted + Arrivals(s, actions)
    ensures Run(s, actions).queue.taken == s.queue.taken + Departures(s, actions)
    ensures Run(s, actions).queue.cleared <==> s.queue.cleared || WasCleared(s, actions)
    decreases |actions|
  {
    if actions != [] {
      var a, rest, s' := actions[0], actions[1..], Step(s, actions[0]);
      StepIsSafe(s, a);
      StepRecords(s, a);
      RunRecords(s', rest);
      Associative(s.queue.accepted, if ActsIn(s, a) then Arriving(s, a.tid) else [], Arrivals(s', rest));
      Associative(s.queue.taken, if ActsIn(s, a) then Leaving(s, a.tid) else [], Departures(s', rest));
    }
  }
}
