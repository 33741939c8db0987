/** The life of one event proxy (lib/CosEventProxy.cc) under its object lock (lib/RDIOplocks.cc): arbitrarily
    many threads connect, queue, pull, push, wait, collect garbage and disconnect, in any interleaving. A step is
    what one thread does from one lock operation to the next. */
module ProxyProtocol {
  import opened Sequences
  import opened Wrappers

  type Tid = nat
  type Event = nat

  /** The four proxies; two of them may own a worker thread. */
  datatype Kind = PushConsumer | PullConsumer(worker: bool) | PushSupplier(worker: bool) | PullSupplier

  datatype PxState = NotConnected | Connected | Exception | Disconnected

  datatype Reason = Request(upcall: bool) | Garbage | Cleanup

  datatype Op =
    | Connect
    | PushIn                    // a supplier pushes an event into the channel
    | AddEvent(event: Event)    // the channel queues an event
    | TryPull
    | Pull                      // a consumer's blocking pull
    | PushEvent                 // a pool thread pushes one event
    | PushWorker                // the proxy's own pushing thread
    | PullEvent                 // a pool thread pulls one event
    | PullWorker                // the proxy's own pulling thread
    | Dispose(why: Reason)

  /** Whether an operation bumps the in-use count while it holds the lock. */
  predicate Bumping(op: Op) {
    op.Pull? || op.PushEvent? || op.PushWorker? || op.PullEvent? || op.PullWorker? || op.Dispose?
  }

  predicate Offers(kind: Kind, op: Op) {
    match op
    case Connect => true
    case Dispose(_) => true
    case PushIn => kind.PushConsumer?
    case AddEvent(_) => kind.PushSupplier? || kind.PullSupplier?
    case TryPull => kind.PullSupplier?
    case Pull => kind.PullSupplier?
    case PushEvent => kind.PushSupplier?
    case PushWorker => kind.PushSupplier? && kind.worker
    case PullEvent => kind.PullConsumer?
    case PullWorker => kind.PullConsumer? && kind.worker
  }

  /** Where a thread is. */
  datatype Pc =
    | Idle
    | Entered(op: Op)                           // lock held, nothing done yet
    | Resumed(op: Op)                           // lock held, at the top of the operation's loop
    | Sleeping(op: Op)                          // waits on the wait variable
    | Woken(op: Op)                             // wants the lock back after a wait
    | Calling(op: Op, event: Option<Event>)     // outcall, lock released
    | Back(op: Op, worked: bool)                // wants the lock back after an outcall
    | Returned(op: Op, worked: bool)            // lock held after an outcall
    | Checking(upcall: bool)                    // the disposer, lock held, tests the in-use count
    | WaitingOne(upcall: bool, woken: bool)     // the disposer waits for the count to drop
    | Upcalling                                 // the disposer tells the admin, lock released
    | Cleaning                                  // the disposer, lock held, clears and disposes
    | Fatal                                     // the lock could not be reacquired

  predicate Bumped(pc: Pc) {
    !pc.Idle? && !pc.Fatal? && (pc.Entered? ==> Bumping(pc.op))
  }

  /** The thread is inside a wait, which counts as one more use of the proxy. */
  predicate InWait(pc: Pc) {
    pc.Sleeping? || pc.Woken?
  }

  predicate Holding(pc: Pc) {
    pc.Entered? || pc.Resumed? || pc.Returned? || pc.Checking? || pc.Cleaning?
  }

  predicate Disposer(pc: Pc) {
    pc.Checking? || pc.WaitingOne? || pc.Upcalling? || pc.Cleaning?
  }

  /** The disposer has seen the in-use count at one. */
  predicate SeenOne(pc: Pc) {
    pc.Upcalling? || pc.Cleaning?
  }

  /** The lock entry; `owned` says that its pointer still refers to the proxy. */
  datatype Entry = Entry(holder: Option<Tid>, inuse: int, owned: bool, disposed: bool, disposals: nat)

  /** The queue with its history: what was accepted, what was taken out, and the references the proxy holds. */
  datatype Queue = Queue(
    events: seq<Event>, accepted: seq<Event>, taken: seq<Event>, cleared: bool, refs: Event -> int)

  datatype Env = Env(kind: Kind, tids: set<Tid>)

  datatype State = State(env: Env, px: PxState, threads: Tid -> Pc, lock: Entry, queue: Queue)

  function Start(env: Env): State {
    State(env, NotConnected, (t: Tid) => Idle, Entry(None, 0, true, false, 0),
          Queue([], [], [], false, (e: Event) => 0))
  }

  datatype Action =
    | Enter(tid: Tid, op: Op)
    | Body(tid: Tid, go: bool, sleeper: Tid)    // what the thread does under the lock; `sleeper` is whom a signal wakes
    | Finish(tid: Tid, worked: bool)            // an outcall returns
    | Reacquire(tid: Tid)
    | Spurious(tid: Tid)                        // a wait ends by itself or by its time limit

  // ---------------------------------------------------------------------------------------------
  // The lock entry
  // ---------------------------------------------------------------------------------------------

  function Set(threads: Tid -> Pc, t: Tid, pc: Pc): Tid -> Pc {
    (u: Tid) => if u == t then pc else threads(u)
  }

  function Signal(threads: Tid -> Pc, w: Tid): Tid -> Pc {
    if threads(w).Sleeping? then Set(threads, w, Woken(threads(w).op)) else threads
  }

  function Broadcast(threads: Tid -> Pc): Tid -> Pc {
    (u: Tid) => if threads(u).Sleeping? then Woken(threads(u).op) else threads(u)
  }

  function BroadcastOne(threads: Tid -> Pc): Tid -> Pc {
    (u: Tid) => if threads(u).WaitingOne? then WaitingOne(threads(u).upcall, true) else threads(u)
  }

  function Freed(l: Entry): Entry {
    l.(owned := false, disposed := false, disposals := l.disposals + 1)
  }

  function Debump(l: Entry): Entry {
    if l.inuse == 0 then l else l.(inuse := l.inuse - 1)
  }

  function FreeEntry(l: Entry): Entry {
    if l.inuse == 0 then Freed(l) else l.(disposed := true)
  }

  function At(s: State, t: Tid, pc: Pc): State {
    s.(threads := Set(s.threads, t, pc))
  }

  function Release(s: State, t: Tid, pc: Pc): State {
    s.(threads := Set(s.threads, t, pc), lock := s.lock.(holder := None))
  }

  /** Going to sleep raises the in-use count for the time of the wait. */
  function Sleep(s: State, t: Tid, op: Op): State {
    Release(s.(lock := s.lock.(inuse := s.lock.inuse + 1)), t, Sleeping(op))
  }

  /** Leaving the scope of a plain lock. */
  function Leave(s: State, t: Tid): State {
    Release(s, t, Idle)
  }

  /** Leaving the scope of a bump lock; the transition from two to one wakes the waiting disposer. */
  function Exit(s: State, t: Tid): State {
    var threads := if s.lock.inuse == 2 then BroadcastOne(s.threads) else s.threads;
    Release(s.(lock := Debump(s.lock), threads := threads), t, Idle)
  }

  // ---------------------------------------------------------------------------------------------
  // The queue
  // ---------------------------------------------------------------------------------------------

  function AddRef(refs: Event -> int, e: Event, d: int): Event -> int {
    (x: Event) => refs(x) + if x == e then d else 0
  }

  function Insert(q: Queue, e: Event): Queue {
    q.(refs := AddRef(q.refs, e, 1), events := q.events + [e], accepted := q.accepted + [e])
  }

  function Take(q: Queue): Queue
    requires q.events != []
  {
    q.(events := q.events[1..], taken := q.taken + [q.events[0]])
  }

  function Drop(q: Queue, e: Event): Queue {
    q.(refs := AddRef(q.refs, e, -1))
  }

  /** Every queued event gives up its reference. */
  function Clear(q: Queue): Queue {
    q.(events := [], cleared := true, refs := (x: Event) => q.refs(x) - Occurrences(q.events, x))
  }

  // ---------------------------------------------------------------------------------------------
  // Steps
  // ---------------------------------------------------------------------------------------------

  predicate HasWorker(kind: Kind) {
    (kind.PullConsumer? || kind.PushSupplier?) && kind.worker
  }

  function SignalIf(s: State, b: bool, w: Tid): State {
    if b then s.(threads := Signal(s.threads, w)) else s
  }

  /** The operations that only hold the lock. */
  function PlainBody(s: State, t: Tid, op: Op, w: Tid): State {
    match op
    case Connect =>
      if s.px != NotConnected then Leave(s, t)
      else Leave(SignalIf(s.(px := Connected), HasWorker(s.env.kind), w), t)
    case AddEvent(e) =>
      if s.px != Connected then Leave(s, t)
      else Leave(SignalIf(s.(queue := Insert(s.queue, e)), s.env.kind.PullSupplier? || HasWorker(s.env.kind), w), t)
    case TryPull =>
      if s.px != Connected || s.queue.events == [] then Leave(s, t)
      else Leave(s.(queue := Drop(Take(s.queue), s.queue.events[0])), t)
    case _ => Leave(s, t)
  }

  /** A blocking pull from its loop on. */
  function PullLoop(s: State, t: Tid): State {
    if s.px != Connected then Exit(s, t)
    else if s.queue.events == [] then Sleep(s, t, Pull)
    else Exit(s.(queue := Drop(Take(s.queue), s.queue.events[0])), t)
  }

  function TakeAndCall(s: State, t: Tid, op: Op): State
    requires s.queue.events != []
  {
    Release(s.(queue := Take(s.queue)), t, Calling(op, Some(s.queue.events[0])))
  }

  function PushLoop(s: State, t: Tid): State {
    if s.px == NotConnected || (s.px == Connected && s.queue.events == []) then Sleep(s, t, PushWorker)
    else if s.px != Connected then Exit(s, t)
    else TakeAndCall(s, t, PushWorker)
  }

  /** `go`: the pull interval has passed. */
  function PullWorkerLoop(s: State, t: Tid, go: bool): State {
    if s.px == NotConnected || (s.px == Connected && !go) then Sleep(s, t, PullWorker)
    else if s.px != Connected then Exit(s, t)
    else Release(s, t, Calling(PullWorker, None))
  }

  /** `go`: the proxy has expired. Only the thread that finds the proxy not yet disconnected goes on. */
  function StartDispose(s: State, t: Tid, why: Reason, go: bool): State {
    if s.px == Disconnected || (why.Garbage? && !go) || (why.Cleanup? && s.px == Connected) then Exit(s, t)
    else At(s.(px := Disconnected), t, Checking(why.Request? ==> why.upcall))
  }

  function LoopTop(s: State, t: Tid, op: Op, go: bool): State {
    match op
    case Pull => PullLoop(s, t)
    case PushWorker => PushLoop(s, t)
    case PullWorker => PullWorkerLoop(s, t, go)
    case _ => s
  }

  function BumpBody(s: State, t: Tid, op: Op, go: bool): State {
    match op
    case PushEvent =>
      if s.px != Connected || s.queue.events == [] then Exit(s, t) else TakeAndCall(s, t, PushEvent)
    case PullEvent =>
      if s.px != Connected || !go then Exit(s, t) else Release(s, t, Calling(PullEvent, None))
    case Dispose(why) => StartDispose(s, t, why, go)
    case _ => if op.Pull? && s.px == NotConnected then Exit(s, t) else LoopTop(s, t, op, go)
  }

  /** After a failed outcall a connected proxy becomes exceptional and a supplier's queue is cleared. */
  function Failed(s: State, op: Op): State {
    if s.px != Connected then s
    else s.(px := Exception, queue := if op.PushEvent? || op.PushWorker? then Clear(s.queue) else s.queue)
  }

  function AfterCall(s: State, t: Tid, op: Op, worked: bool): State {
    var r := if worked then s else Failed(s, op);
    if op.PushWorker? || op.PullWorker? then At(r, t, Resumed(op)) else Exit(r, t)
  }

  function Check(s: State, t: Tid, upcall: bool): State {
    if s.lock.inuse > 1 then Release(s.(threads := Broadcast(s.threads)), t, WaitingOne(upcall, false))
    else if upcall then Release(s, t, Upcalling)
    else At(s, t, Cleaning)
  }

  /** Clears the queue and leaves the scope with the dispose information set. */
  function Clean(s: State, t: Tid): State {
    var r := Exit(s.(queue := Clear(s.queue)), t);
    r.(lock := FreeEntry(r.lock))
  }

  function BodyStep(s: State, t: Tid, go: bool, w: Tid): State {
    match s.threads(t)
    case Entered(op) => if Bumping(op) then BumpBody(s, t, op, go) else PlainBody(s, t, op, w)
    case Resumed(op) => LoopTop(s, t, op, go)
    case Returned(op, worked) => AfterCall(s, t, op, worked)
    case Checking(upcall) => Check(s, t, upcall)
    case Cleaning => Clean(s, t)
    case _ => s
  }

  function Hold(s: State, t: Tid, pc: Pc, bump: int): State {
    s.(threads := Set(s.threads, t, pc), lock := s.lock.(holder := Some(t), inuse := s.lock.inuse + bump))
  }

  /** Acquiring fails on a lock that is not the proxy's any more or is to be disposed. */
  function EnterStep(s: State, t: Tid, op: Op): State {
    if !s.lock.owned || s.lock.disposed then s else Hold(s, t, Entered(op), if Bumping(op) then 1 else 0)
  }

  /** An outcall returns: the event's reference is given up before the lock is taken again. */
  function FinishStep(s: State, t: Tid, op: Op, event: Option<Event>, worked: bool): State {
    At(s.(queue := if event.Some? then Drop(s.queue, event.value) else s.queue), t, Back(op, worked))
  }

  /** Reacquiring fails on a lock that is not the proxy's any more. The end of a wait lowers the in-use count
      again, and unlike the end of a bump it tells nobody. */
  function ReacquireStep(s: State, t: Tid): State {
    match s.threads(t)
    case Woken(op) => Hold(s, t, Resumed(op), -1)
    case WaitingOne(upcall, woken) => if woken then Hold(s, t, Checking(upcall), 0) else s
    case Back(op, worked) => if s.lock.owned then Hold(s, t, Returned(op, worked), 0) else At(s, t, Fatal)
    case Upcalling => if s.lock.owned then Hold(s, t, Cleaning, 0) else At(s, t, Fatal)
    case _ => s
  }

  function SpuriousStep(s: State, t: Tid): State {
    match s.threads(t)
    case Sleeping(op) => At(s, t, Woken(op))
    case WaitingOne(upcall, _) => At(s, t, WaitingOne(upcall, true))
    case _ => s
  }

  /** A signal wakes a sleeper whenever there is one. */
  ghost predicate WakesSomeone(s: State, w: Tid) {
    (exists t :: t in s.env.tids && s.threads(t).Sleeping?) ==> w in s.env.tids && s.threads(w).Sleeping?
  }

  ghost predicate Enabled(s: State, a: Action) {
    && a.tid in s.env.tids
    && match a
       case Enter(t, op) => s.threads(t).Idle? && s.lock.holder == None && Offers(s.env.kind, op)
       case Body(t, go, w) => s.lock.holder == Some(t) && WakesSomeone(s, w)
       case Finish(t, worked) => s.threads(t).Calling?
       case Reacquire(t) => s.lock.holder == None
       case Spurious(t) => true
  }

  /** A scheduled action that is not enabled does nothing. */
  ghost function Step(s: State, a: Action): State {
    if !Enabled(s, a) then s else
    match a
    case Enter(t, op) => EnterStep(s, t, op)
    case Body(t, go, w) => BodyStep(s, t, go, w)
    case Finish(t, worked) => FinishStep(s, t, s.threads(t).op, s.threads(t).event, worked)
    case Reacquire(t) => ReacquireStep(s, t)
    case Spurious(t) => SpuriousStep(s, t)
  }

  ghost function Run(s: State, actions: seq<Action>): State
    decreases |actions|
  {
    if actions == [] then s else Run(Step(s, actions[0]), actions[1..])
  }
}
