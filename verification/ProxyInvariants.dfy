/** What every step of a proxy keeps, in every interleaving. */
module ProxyInvariants {
  import opened Counting
  import opened Wrappers
  import opened ProxyProtocol

  // ---------------------------------------------------------------------------------------------
  // Counting threads
  // ---------------------------------------------------------------------------------------------

  datatype Test = IsBumped | IsInWait | IsCarrying(event: Event) | IsWaking

  /** A thread that takes an event from the queue as soon as it has the lock again. */
  predicate Taker(pc: Pc) {
    (pc.Woken? || pc.Resumed?) && (pc.op.Pull? || pc.op.PushWorker?)
  }

  predicate Meets(test: Test, pc: Pc) {
    match test
    case IsBumped => Bumped(pc)
    case IsInWait => InWait(pc)
    case IsCarrying(e) => pc.Calling? && pc.event == Some(e)
    case IsWaking => Taker(pc)
  }

  ghost function Those(tids: set<Tid>, threads: Tid -> Pc, test: Test): set<Tid> {
    set t | t in tids && Meets(test, threads(t))
  }

  ghost function Count(tids: set<Tid>, threads: Tid -> Pc, test: Test): nat {
    |Those(tids, threads, test)|
  }

  lemma CountChange(tids: set<Tid>, before: Tid -> Pc, after: Tid -> Pc, t: Tid, test: Test)
    requires t in tids
    requires forall u | u in tids && u != t :: Meets(test, before(u)) == Meets(test, after(u))
    ensures Count(tids, after, test)
            == Count(tids, before, test) - One(Meets(test, before(t))) + One(Meets(test, after(t)))
  {
    SizeChange(Those(tids, before, test), Those(tids, after, test), t);
  }

  lemma CountGrows(tids: set<Tid>, before: Tid -> Pc, after: Tid -> Pc, test: Test)
    requires forall u | u in tids && Meets(test, before(u)) :: Meets(test, after(u))
    ensures Count(tids, before, test) <= Count(tids, after, test)
  {
    SubsetSize(Those(tids, before, test), Those(tids, after, test));
  }

  lemma CountPositive(tids: set<Tid>, threads: Tid -> Pc, t: Tid, test: Test)
    requires t in tids && Meets(test, threads(t))
    ensures Count(tids, threads, test) >= 1
  {
    SubsetSize({t}, Those(tids, threads, test));
  }

  /** A count of one is one thread only. */
  lemma CountOnlyOne(tids: set<Tid>, threads: Tid -> Pc, t: Tid, test: Test)
    requires t in tids && Meets(test, threads(t))
    ensures Count(tids, threads, test) <= 1 <==> forall u | u in tids && u != t :: !Meets(test, threads(u))
  {
    var c := Those(tids, threads, test);
    if exists u :: u in tids && u != t && Meets(test, threads(u)) {
      var u :| u in tids && u != t && Meets(test, threads(u));
      SubsetSize({t, u}, c);
      assert |{t, u}| == 2;
    } else {
      assert c == {t};
    }
  }

  lemma CountNone(tids: set<Tid>, threads: Tid -> Pc, test: Test)
    ensures Count(tids, threads, test) == 0 <==> forall u | u in tids :: !Meets(test, threads(u))
  {
    if forall u | u in tids :: !Meets(test, threads(u)) {
      assert Those(tids, threads, test) == {};
    } else {
      var u :| u in tids && Meets(test, threads(u));
      CountPositive(tids, threads, u, test);
    }
  }

  // ---------------------------------------------------------------------------------------------
  // What a step does to the other threads, the lock and the count
  // ---------------------------------------------------------------------------------------------

  /** A thread that is not scheduled can only be woken. */
  predicate OnlyWakes(p: Pc, q: Pc) {
    q == p || (p.Sleeping? && q == Woken(p.op)) || (p.WaitingOne? && q == WaitingOne(p.upcall, true))
  }

  ghost predicate Follows(before: Tid -> Pc, after: Tid -> Pc, t: Tid) {
    forall u {:trigger after(u)} | u != t :: OnlyWakes(before(u), after(u))
  }

  /** The state after an action of thread `t`: only its own place, the lock and the in-use count move with it. */
  ghost predicate Moves(s: State, s': State, t: Tid) {
    && s'.env == s.env && Follows(s.threads, s'.threads, t)
    && (Holding(s'.threads(t)) <==> s'.lock.holder == Some(t))
    && (s'.lock.holder == s.lock.holder || (s.lock.holder == Some(t) && s'.lock.holder == None)
        || (s.lock.holder == None && s'.lock.holder == Some(t)))
    && s'.lock.inuse - s.lock.inuse == Uses(s'.threads(t)) - Uses(s.threads(t))
    && (InWait(s.threads(t)) ==> Bumped(s'.threads(t)))
    && (s.lock.inuse == 2 && s'.lock.inuse < 2 && !InWait(s.threads(t)) ==> NoneWaits(s'.threads))
  }

  /** How often a thread is counted: for its bump and for its wait. */
  function Uses(pc: Pc): int {
    One(Bumped(pc)) + One(InWait(pc))
  }

  ghost predicate NoneWaits(threads: Tid -> Pc) {
    forall u {:trigger threads(u)} | threads(u).WaitingOne? :: threads(u).woken
  }

  /** `r` is `s` in the middle of what thread `t` does under the lock. */
  ghost predicate Near(s: State, r: State, t: Tid) {
    && r.env == s.env && Follows(s.threads, r.threads, t) && r.threads(t) == s.threads(t) && Holding(s.threads(t))
    && r.lock == s.lock && s.lock.holder == Some(t) && !s.lock.disposed && s.lock.inuse >= Uses(s.threads(t))
  }

  lemma ReleaseMoves(s: State, r: State, t: Tid, pc: Pc)
    requires Near(s, r, t) && !Holding(pc) && !InWait(pc) && Bumped(pc) == Bumped(s.threads(t))
    ensures Moves(s, Release(r, t, pc), t)
  {
  }

  lemma SleepMoves(s: State, t: Tid, op: Op)
    requires Near(s, s, t) && Bumped(s.threads(t))
    ensures Moves(s, Sleep(s, t, op), t)
  {
  }

  lemma StayMoves(s: State, r: State, t: Tid, pc: Pc)
    requires Near(s, r, t) && Holding(pc) && Bumped(pc) == Bumped(s.threads(t))
    ensures Moves(s, At(r, t, pc), t)
  {
  }

  lemma ExitMoves(s: State, r: State, t: Tid)
    requires Near(s, r, t) && Bumped(s.threads(t))
    ensures Moves(s, Exit(r, t), t)
  {
  }

  lemma PlainMoves(s: State, t: Tid, op: Op, w: Tid)
    requires Near(s, s, t) && s.threads(t) == Entered(op) && !Bumping(op)
    ensures Moves(s, PlainBody(s, t, op, w), t)
  {
    ReleaseMoves(s, s, t, Idle);
    match op
    case Connect => ReleaseMoves(s, SignalIf(s.(px := Connected), HasWorker(s.env.kind), w), t, Idle);
    case AddEvent(e) =>
      var r := s.(queue := Insert(s.queue, e));
      ReleaseMoves(s, SignalIf(r, s.env.kind.PullSupplier? || HasWorker(s.env.kind), w), t, Idle);
    case TryPull =>
      if s.queue.events != [] {
        ReleaseMoves(s, s.(queue := Drop(Take(s.queue), s.queue.events[0])), t, Idle);
      }
    case _ =>
  }

  lemma LoopMoves(s: State, t: Tid, op: Op, go: bool)
    requires Near(s, s, t) && Bumped(s.threads(t)) && Waits(op)
    ensures Moves(s, LoopTop(s, t, op, go), t)
  {
    SleepMoves(s, t, op);
    ExitMoves(s, s, t);
    match op
    case Pull =>
      if s.queue.events != [] {
        ExitMoves(s, s.(queue := Drop(Take(s.queue), s.queue.events[0])), t);
      }
    case PushWorker =>
      if s.queue.events != [] {
        ReleaseMoves(s, s.(queue := Take(s.queue)), t, Calling(PushWorker, Some(s.queue.events[0])));
      }
    case PullWorker =>
      ReleaseMoves(s, s, t, Calling(PullWorker, None));
  }

  lemma BumpMoves(s: State, t: Tid, op: Op, go: bool)
    requires Near(s, s, t) && s.threads(t) == Entered(op) && Bumping(op)
    ensures Moves(s, BumpBody(s, t, op, go), t)
  {
    ExitMoves(s, s, t);
    match op
    case PushEvent =>
      if s.queue.events != [] {
        ReleaseMoves(s, s.(queue := Take(s.queue)), t, Calling(PushEvent, Some(s.queue.events[0])));
      }
    case PullEvent => ReleaseMoves(s, s, t, Calling(PullEvent, None));
    case Dispose(why) => StayMoves(s, s.(px := Disconnected), t, Checking(why.Request? ==> why.upcall));
    case _ => LoopMoves(s, t, op, go);
  }

  lemma AfterMoves(s: State, t: Tid, op: Op, worked: bool)
    requires Near(s, s, t) && s.threads(t) == Returned(op, worked)
    ensures Moves(s, AfterCall(s, t, op, worked), t)
  {
    var r := if worked then s else Failed(s, op);
    ExitMoves(s, r, t);
    StayMoves(s, r, t, Resumed(op));
  }

  lemma CheckMoves(s: State, t: Tid, upcall: bool)
    requires Near(s, s, t) && s.threads(t) == Checking(upcall)
    ensures Moves(s, Check(s, t, upcall), t)
  {
  }

  lemma CleanMoves(s: State, t: Tid)
    requires Near(s, s, t) && s.threads(t).Cleaning?
    ensures Moves(s, Clean(s, t), t)
  {
  }

  lemma BodyMoves(s: State, t: Tid, go: bool, w: Tid)
    requires Near(s, s, t) && (s.threads(t).Resumed? ==> Waits(s.threads(t).op))
    ensures Moves(s, BodyStep(s, t, go, w), t)
  {
    match s.threads(t)
    case Entered(op) =>
      if Bumping(op) {
        BumpMoves(s, t, op, go);
      } else {
        PlainMoves(s, t, op, w);
      }
    case Resumed(op) => LoopMoves(s, t, op, go);
    case Returned(op, worked) => AfterMoves(s, t, op, worked);
    case Checking(upcall) => CheckMoves(s, t, upcall);
    case Cleaning => CleanMoves(s, t);
  }

  lemma StepMoves(s: State, a: Action)
    requires Enabled(s, a) && !s.lock.disposed && (Holding(s.threads(a.tid)) <==> s.lock.holder == Some(a.tid))
    requires s.lock.owned && Placed(s.env.kind, s.threads(a.tid)) && s.lock.inuse >= Uses(s.threads(a.tid))
    ensures Moves(s, Step(s, a), a.tid)
  {
    match a
    case Enter(t, op) =>
    case Body(t, go, w) => BodyMoves(s, t, go, w);
    case Finish(t, worked) =>
    case Reacquire(t) =>
    case Spurious(t) =>
  }

  // ---------------------------------------------------------------------------------------------
  // What a step does to the thread itself
  // ---------------------------------------------------------------------------------------------

  predicate Waits(op: Op) {
    op.Pull? || op.PushWorker? || op.PullWorker?
  }

  predicate Calls(op: Op) {
    op.PushEvent? || op.PushWorker? || op.PullEvent? || op.PullWorker?
  }

  /** A thread is in an operation of the proxy, and at a place that operation has. */
  predicate Placed(kind: Kind, pc: Pc) {
    && (pc.Entered? ==> Offers(kind, pc.op))
    && (pc.Sleeping? || pc.Woken? || pc.Resumed? ==> Offers(kind, pc.op) && Waits(pc.op))
    && (pc.Calling? || pc.Back? || pc.Returned? ==> Offers(kind, pc.op) && Calls(pc.op))
  }

  /** The step of thread `t`, seen from that thread. */
  ghost predicate Proceeds(s: State, s': State, t: Tid) {
    var p, q := s.threads(t), s'.threads(t);
    && (Placed(s.env.kind, p) ==> Placed(s.env.kind, q))
    && (s.px == Disconnected ==> s'.px == Disconnected)
    && (Disposer(q) ==> s'.px == Disconnected && (Disposer(p) || s.px != Disconnected))
    && (SeenOne(q) && !SeenOne(p) ==> p.Checking? && s.lock.inuse <= 1)
    && (s.px == Disconnected && Bumped(q) && !Holding(q) && !Disposer(q) ==> Bumped(p) && !Holding(p))
    && (q.Sleeping? && q != p ==> s.px == NotConnected || s.px == Connected)
    && (q.WaitingOne? && q != p ==> (p.WaitingOne? && q.woken) || (p.Checking? && s.lock.inuse > 1))
    && (q.Fatal? ==> p.Fatal? || !s.lock.owned)
    && (!p.Cleaning? ==> s'.lock.owned == s.lock.owned && s'.lock.disposed == s.lock.disposed
                         && s'.lock.disposals == s.lock.disposals)
  }

  lemma LoopProceeds(s: State, t: Tid, op: Op, go: bool)
    requires !s.lock.disposed && Waits(op) && Offers(s.env.kind, op)
    ensures Proceeds(s, LoopTop(s, t, op, go), t)
  {
  }

  lemma PlainProceeds(s: State, t: Tid, op: Op, w: Tid)
    requires !s.lock.disposed && !Bumping(op)
    ensures Proceeds(s, PlainBody(s, t, op, w), t)
  {
  }

  lemma BumpProceeds(s: State, t: Tid, op: Op, go: bool)
    requires !s.lock.disposed && Bumping(op) && Offers(s.env.kind, op)
    ensures Proceeds(s, BumpBody(s, t, op, go), t)
  {
    if Waits(op) {
      LoopProceeds(s, t, op, go);
    }
  }

  lemma AfterProceeds(s: State, t: Tid, op: Op, worked: bool)
    requires !s.lock.disposed && Calls(op) && Offers(s.env.kind, op)
    ensures Proceeds(s, AfterCall(s, t, op, worked), t)
  {
  }

  lemma BodyProceeds(s: State, t: Tid, go: bool, w: Tid)
    requires !s.lock.disposed && Holding(s.threads(t)) && Placed(s.env.kind, s.threads(t))
    requires Disposer(s.threads(t)) ==> s.px == Disconnected
    ensures Proceeds(s, BodyStep(s, t, go, w), t)
  {
    match s.threads(t)
    case Entered(op) =>
      if Bumping(op) {
        BumpProceeds(s, t, op, go);
      } else {
        PlainProceeds(s, t, op, w);
      }
    case Resumed(op) => LoopProceeds(s, t, op, go);
    case Returned(op, worked) => AfterProceeds(s, t, op, worked);
    case Checking(upcall) =>
    case Cleaning =>
  }

  lemma StepProceeds(s: State, a: Action)
    requires Enabled(s, a) && Placed(s.env.kind, s.threads(a.tid)) && !s.lock.disposed
    requires Holding(s.threads(a.tid)) <==> s.lock.holder == Some(a.tid)
    requires Disposer(s.threads(a.tid)) ==> s.px == Disconnected
    ensures Proceeds(s, Step(s, a), a.tid)
  {
    match a
    case Enter(t, op) =>
    case Body(t, go, w) => BodyProceeds(s, t, go, w);
    case Finish(t, worked) =>
    case Reacquire(t) =>
    case Spurious(t) =>
  }

  // ---------------------------------------------------------------------------------------------
  // The invariant
  // ---------------------------------------------------------------------------------------------

  /** The lock is held by the one thread at a place where it is held. */
  ghost predicate LockOk(s: State) {
    && (forall t {:trigger s.threads(t)} | t in s.env.tids :: Holding(s.threads(t)) <==> s.lock.holder == Some(t))
    && (s.lock.holder.Some? ==> s.lock.holder.value in s.env.tids)
  }

  ghost predicate PlacedOk(s: State) {
    forall t {:trigger s.threads(t)} | t in s.env.tids :: Placed(s.env.kind, s.threads(t))
  }

  /** The in-use count is the number of threads that bumped it and of those inside a wait. */
  ghost predicate CountOk(s: State) {
    s.lock.inuse == Count(s.env.tids, s.threads, IsBumped) + Count(s.env.tids, s.threads, IsInWait)
  }

  lemma CountCoversUses(s: State, t: Tid)
    requires CountOk(s) && t in s.env.tids
    ensures s.lock.inuse >= Uses(s.threads(t))
  {
    if Bumped(s.threads(t)) {
      CountPositive(s.env.tids, s.threads, t, IsBumped);
    }
    if InWait(s.threads(t)) {
      CountPositive(s.env.tids, s.threads, t, IsInWait);
    }
  }

  /** Disposal is never deferred, happens at most once, and then nobody is in the proxy; no reacquire fails. */
  ghost predicate EntryOk(s: State) {
    && !s.lock.disposed && (forall t {:trigger s.threads(t)} | t in s.env.tids :: !s.threads(t).Fatal?)
    && if s.lock.owned then s.lock.disposals == 0
       else s.lock.disposals == 1 && s.lock.holder == None && s.px == Disconnected && s.queue.events == []
            && forall t {:trigger s.threads(t)} | t in s.env.tids :: s.threads(t).Idle?
  }

  /** One thread disposes, and only of a disconnected proxy. */
  ghost predicate DisposerOk(s: State) {
    && (forall t, u {:trigger s.threads(t), s.threads(u)} | t in s.env.tids && u in s.env.tids
          && Disposer(s.threads(t)) && Disposer(s.threads(u)) :: t == u)
    && (forall t {:trigger s.threads(t)} | t in s.env.tids && Disposer(s.threads(t)) :: s.px == Disconnected)
  }

  /** Once the disposer has seen a count of one, every other bumped thread holds the lock. */
  ghost predicate AloneOk(s: State) {
    forall t, u {:trigger s.threads(t), s.threads(u)} | t in s.env.tids && u in s.env.tids && u != t
      && SeenOne(s.threads(t)) && Bumped(s.threads(u)) :: Holding(s.threads(u))
  }

  ghost predicate NoneSleeps(s: State) {
    forall u {:trigger s.threads(u)} | u in s.env.tids :: !s.threads(u).Sleeping?
  }

  /** While the disposer waits nobody sleeps on the wait variable, and it sleeps on only while others are in. */
  ghost predicate WaitOk(s: State) {
    forall t {:trigger s.threads(t)} | t in s.env.tids && s.threads(t).WaitingOne? ::
      (!s.threads(t).woken ==> s.lock.inuse >= 2) && NoneSleeps(s)
  }

  ghost predicate Safe(s: State) {
    LockOk(s) && PlacedOk(s) && CountOk(s) && EntryOk(s) && DisposerOk(s) && AloneOk(s) && WaitOk(s)
  }

  lemma KeepsLock(s: State, s': State, t: Tid)
    requires LockOk(s) && Moves(s, s', t) && t in s.env.tids
    ensures LockOk(s')
  {
  }

  lemma KeepsPlaced(s: State, s': State, t: Tid)
    requires PlacedOk(s) && Moves(s, s', t) && Proceeds(s, s', t) && t in s.env.tids
    ensures PlacedOk(s')
  {
  }

  lemma KeepsCount(s: State, s': State, t: Tid)
    requires CountOk(s) && Moves(s, s', t) && t in s.env.tids
    ensures CountOk(s')
  {
    CountChange(s.env.tids, s.threads, s'.threads, t, IsBumped);
    CountChange(s.env.tids, s.threads, s'.threads, t, IsInWait);
  }

  lemma KeepsDisposer(s: State, s': State, t: Tid)
    requires DisposerOk(s) && Moves(s, s', t) && Proceeds(s, s', t) && t in s.env.tids
    ensures DisposerOk(s')
  {
  }

  lemma KeepsAlone(s: State, s': State, t: Tid)
    requires LockOk(s) && CountOk(s) && DisposerOk(s) && AloneOk(s)
    requires Moves(s, s', t) && Proceeds(s, s', t) && t in s.env.tids
    ensures AloneOk(s')
  {
    if SeenOne(s'.threads(t)) && !SeenOne(s.threads(t)) {
      CountOnlyOne(s.env.tids, s.threads, t, IsBumped);
    }
    forall v, u | v in s.env.tids && u in s.env.tids && u != v && SeenOne(s'.threads(v)) && Bumped(s'.threads(u))
      ensures Holding(s'.threads(u))
    {
      assert v != t ==> SeenOne(s.threads(v));
      assert u != t ==> Bumped(s.threads(u)) && (Holding(s.threads(u)) ==> s'.threads(u) == s.threads(u));
    }
  }

  /** The silent end of a wait never takes the count to one behind a waiting disposer: the thread that has
      slept still has its own bump, and the disposer has one. */
  lemma WaitEndsAboveOne(s: State, t: Tid, v: Tid)
    requires CountOk(s) && t in s.env.tids && v in s.env.tids && InWait(s.threads(t)) && s.threads(v).WaitingOne?
    ensures s.lock.inuse >= 3
  {
    CountPositive(s.env.tids, s.threads, t, IsInWait);
    CountOnlyOne(s.env.tids, s.threads, t, IsBumped);
    assert v != t && Meets(IsBumped, s.threads(v));
  }

  lemma KeepsWait(s: State, s': State, t: Tid)
    requires CountOk(s) && DisposerOk(s) && WaitOk(s) && Moves(s, s', t) && Proceeds(s, s', t) && t in s.env.tids
    requires s'.threads(t).WaitingOne? && s.threads(t).Checking? ==> NoneSleeps(s')
    requires s.threads(t).Checking? ==> Disposer(s.threads(t))
    ensures WaitOk(s')
  {
    if InWait(s.threads(t)) {
      forall v | v in s.env.tids && s.threads(v).WaitingOne?
        ensures s.lock.inuse >= 3
      {
        WaitEndsAboveOne(s, t, v);
      }
    }
  }

  /** The disposer that starts waiting has woken everybody. */
  lemma WaitingSilences(s: State, a: Action)
    requires Enabled(s, a)
    ensures var s' := Step(s, a);
            s'.threads(a.tid).WaitingOne? && s.threads(a.tid).Checking? ==> NoneSleeps(s')
  {
  }

  /** At the disposal the disposer is alone, so it takes place at once. */
  lemma CleanIsAlone(s: State, t: Tid)
    requires Safe(s) && t in s.env.tids && s.threads(t).Cleaning?
    ensures s.lock.inuse == 1 && forall u | u in s.env.tids && u != t :: s.threads(u).Idle?
  {
    forall u | u in s.env.tids && u != t
      ensures s.threads(u).Idle?
    {
      assert Holding(s.threads(t)) && !Holding(s.threads(u));
    }
    CountOnlyOne(s.env.tids, s.threads, t, IsBumped);
    CountPositive(s.env.tids, s.threads, t, IsBumped);
    CountNone(s.env.tids, s.threads, IsInWait);
  }

  lemma KeepsEntry(s: State, a: Action)
    requires Safe(s) && Enabled(s, a) && s.lock.owned && Moves(s, Step(s, a), a.tid) && Proceeds(s, Step(s, a), a.tid)
    ensures EntryOk(Step(s, a))
  {
    var s', t := Step(s, a), a.tid;
    if s.threads(t).Cleaning? {
      CleanIsAlone(s, t);
      assert s.lock.holder == Some(t);
    }
    forall u | u in s'.env.tids
      ensures !s'.threads(u).Fatal?
    {
    }
  }

  /** Nothing happens to a disposed proxy any more. */
  lemma DisposedIsFinal(s: State, a: Action)
    requires EntryOk(s) && !s.lock.owned
    ensures Step(s, a) == s
  {
  }

  lemma StepIsSafe(s: State, a: Action)
    requires Safe(s)
    ensures Safe(Step(s, a))
  {
    if !s.lock.owned {
      DisposedIsFinal(s, a);
    } else if Enabled(s, a) {
      assert Placed(s.env.kind, s.threads(a.tid));
      CountCoversUses(s, a.tid);
      StepMoves(s, a);
      StepProceeds(s, a);
      WaitingSilences(s, a);
      var s' := Step(s, a);
      KeepsLock(s, s', a.tid);
      KeepsPlaced(s, s', a.tid);
      KeepsCount(s, s', a.tid);
      KeepsEntry(s, a);
      KeepsDisposer(s, s', a.tid);
      KeepsAlone(s, s', a.tid);
      KeepsWait(s, s', a.tid);
    }
  }
}
