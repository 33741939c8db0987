/** The life of a proxy over whole runs: any number of threads, any operations, any schedule. */
module ProxyTheorems {
  import opened Counting
  import opened Sequences
  import opened Wrappers
  import opened ProxyProtocol
  import opened ProxyInvariants
  import opened ProxyQueue
  import opened ProxyRecords

  ghost predicate DisposalPending(s: State) {
    s.px == Disconnected && s.lock.owned ==> exists t :: t in s.env.tids && Disposer(s.threads(t))
  }

  ghost predicate Good(s: State) {
    Safe(s) && RefsOk(s) && FifoOk(s) && StrandOk(s) && DisposalPending(s)
  }

  lemma StartIsGood(env: Env)
    ensures Good(Start(env))
  {
    var s := Start(env);
    CountNone(env.tids, s.threads, IsBumped);
    CountNone(env.tids, s.threads, IsInWait);
    forall e: Event
      ensures s.queue.refs(e) == Occurrences(s.queue.events, e) + Count(env.tids, s.threads, IsCarrying(e))
    {
      CountNone(env.tids, s.threads, IsCarrying(e));
    }
  }

  /** A disposer stays one until it disposes, and a proxy becomes disconnected only by getting one. */
  ghost predicate Persists(s: State, s': State, t: Tid) {
    && (Disposer(s.threads(t)) ==> Disposer(s'.threads(t)) || s.threads(t).Cleaning?)
    && (s'.px == Disconnected && s.px != Disconnected ==> Disposer(s'.threads(t)))
    && s'.lock.disposals <= s.lock.disposals + One(s.threads(t).Cleaning?)
  }

  lemma BodyPersists(s: State, t: Tid, go: bool, w: Tid)
    requires Holding(s.threads(t)) && !s.lock.disposed && (s.threads(t).Resumed? ==> Waits(s.threads(t).op))
    ensures Persists(s, BodyStep(s, t, go, w), t)
  {
    match s.threads(t)
    case Entered(op) =>
      if Bumping(op) {
        BumpPersists(s, t, op, go);
      } else {
        PlainPersists(s, t, op, w);
      }
    case Resumed(op) => LoopPersists(s, t, op, go);
    case Returned(op, worked) =>
    case Checking(upcall) =>
    case Cleaning =>
  }

  lemma PlainPersists(s: State, t: Tid, op: Op, w: Tid)
    requires s.threads(t) == Entered(op)
    ensures Persists(s, PlainBody(s, t, op, w), t)
  {
  }

  lemma LoopPersists(s: State, t: Tid, op: Op, go: bool)
    requires s.threads(t) == Entered(op) || s.threads(t) == Resumed(op)
    ensures Persists(s, LoopTop(s, t, op, go), t)
  {
  }

  lemma BumpPersists(s: State, t: Tid, op: Op, go: bool)
    requires s.threads(t) == Entered(op) && Bumping(op)
    ensures Persists(s, BumpBody(s, t, op, go), t)
  {
    LoopPersists(s, t, op, go);
  }

  lemma StepPersists(s: State, a: Action)
    requires Enabled(s, a) && Safe(s) && s.lock.owned
    ensures Persists(s, Step(s, a), a.tid)
  {
    assert Placed(s.env.kind, s.threads(a.tid)) && !s.threads(a.tid).Fatal?;
    if a.Body? {
      BodyPersists(s, a.tid, a.go, a.sleeper);
    }
  }

  /** The step that disposes of the proxy is taken by a thread that is alone in it, with the lock, and the count
      drops to zero with it. */
  lemma DisposalIsClean(s: State, a: Action)
    requires Good(s) && Step(s, a).lock.disposals != s.lock.disposals
    ensures s.threads(a.tid).Cleaning? && s.lock.holder == Some(a.tid) && s.lock.inuse == 1
    ensures forall u | u in s.env.tids && u != a.tid :: s.threads(u).Idle?
    ensures !Step(s, a).lock.owned && Step(s, a).lock.inuse == 0
  {
    var t := a.tid;
    if !s.lock.owned {
      DisposedIsFinal(s, a);
    }
    StepPersists(s, a);
    assert Placed(s.env.kind, s.threads(t));
    if s.threads(t).Cleaning? {
      CleanIsAlone(s, t);
      assert s.lock.holder == Some(t);
    } else {
      StepProceeds(s, a);
    }
  }

  lemma KeepsPending(s: State, a: Action)
    requires Good(s) && Enabled(s, a) && s.lock.owned && Moves(s, Step(s, a), a.tid)
    ensures DisposalPending(Step(s, a))
  {
    var s', t := Step(s, a), a.tid;
    StepPersists(s, a);
    if s'.px == Disconnected && s'.lock.owned {
      if s.px == Disconnected {
        var u :| u in s.env.tids && Disposer(s.threads(u));
        if u == t && s.threads(t).Cleaning? {
          CleanIsAlone(s, t);
          assert s.lock.holder == Some(t);
        }
        assert Disposer(s'.threads(u)) || (u == t && s.threads(t).Cleaning?);
      }
    }
  }

  lemma StepIsGood(s: State, a: Action)
    requires Good(s)
    ensures Good(Step(s, a))
  {
    if !s.lock.owned {
      DisposedIsFinal(s, a);
    } else if Enabled(s, a) {
      StepIsSafe(s, a);
      assert Placed(s.env.kind, s.threads(a.tid));
      assert Holding(s.threads(a.tid)) <==> s.lock.holder == Some(a.tid);
      CountCoversUses(s, a.tid);
      StepMoves(s, a);
      KeepsRefs(s, a);
      KeepsFifo(s, a);
      StepServes(s, a);
      KeepsStrand(s, a);
      KeepsPending(s, a);
    }
  }

  lemma {:induction false} RunIsGood(s: State, actions: seq<Action>)
    requires Good(s)
    ensures Good(Run(s, actions)) && Run(s, actions).env == s.env
    decreases |actions|
  {
    if actions != [] {
      StepIsGood(s, actions[0]);
      EnvStays(s, actions[0]);
      RunIsGood(Step(s, actions[0]), actions[1..]);
    }
  }

  lemma EnvStays(s: State, a: Action)
    requires Good(s)
    ensures Step(s, a).env == s.env
  {
    if !s.lock.owned {
      DisposedIsFinal(s, a);
    } else if Enabled(s, a) {
      assert Placed(s.env.kind, s.threads(a.tid));
      CountCoversUses(s, a.tid);
      StepMoves(s, a);
    }
  }

  /** The only ways in which the state of the proxy changes: connecting a fresh one, a failed outcall of a connected
      one, and the start of a disposal, which a cleanup does not force on a connected proxy. */
  ghost predicate ChangesState(s: State, a: Action) {
    var pc := s.threads(a.tid);
    && a.Body? && Enabled(s, a)
    && (|| (pc == Entered(Connect) && s.px == NotConnected)
        || (pc.Returned? && !pc.worked && s.px == Connected)
        || (pc.Entered? && pc.op.Dispose? && s.px != Disconnected
            && (pc.op.why.Garbage? ==> a.go) && (pc.op.why.Cleanup? ==> s.px != Connected)))
  }

  lemma BodyLifeCycle(s: State, t: Tid, go: bool, w: Tid)
    requires Holding(s.threads(t)) && Placed(s.env.kind, s.threads(t))
    ensures BodyStep(s, t, go, w).px
            == match s.threads(t)
               case Entered(Connect) => if s.px == NotConnected then Connected else s.px
               case Entered(Dispose(why)) =>
                 if (why.Garbage? && !go) || (why.Cleanup? && s.px == Connected) then s.px else Disconnected
               case Returned(_, worked) => if !worked && s.px == Connected then Exception else s.px
               case _ => s.px
  {
  }

  lemma LifeCycle(s: State, a: Action)
    requires Safe(s)
    ensures Step(s, a).px != s.px <==> ChangesState(s, a)
    ensures ChangesState(s, a) ==>
              Step(s, a).px == if s.threads(a.tid).Returned? then Exception
                               else if s.threads(a.tid).op.Connect? then Connected else Disconnected
  {
    if Enabled(s, a) {
      assert Placed(s.env.kind, s.threads(a.tid));
      assert Holding(s.threads(a.tid)) <==> s.lock.holder == Some(a.tid);
      if a.Body? {
        BodyLifeCycle(s, a.tid, a.go, a.sleeper);
      }
    }
  }

  // ---------------------------------------------------------------------------------------------
  // Main results
  // ---------------------------------------------------------------------------------------------

  /** A proxy is disposed at most once, never deferred; afterwards no thread is in it or in an outcall for it, it
      holds no event and no reference. Until then a disconnected proxy has a thread that will dispose of it. */
  lemma DisposedAtMostOnce(env: Env, actions: seq<Action>)
    ensures var s := Run(Start(env), actions);
            && s.lock.disposals <= 1 && !s.lock.disposed && (s.lock.disposals == 1 <==> !s.lock.owned)
            && (!s.lock.owned ==>
                  (s.lock.inuse == 0 && s.queue.events == []
                   && (forall t | t in env.tids :: s.threads(t).Idle?) && forall e: Event :: s.queue.refs(e) == 0))
            && (s.lock.owned && s.px == Disconnected ==> exists t :: t in env.tids && Disposer(s.threads(t)))
  {
    StartIsGood(env);
    RunIsGood(Start(env), actions);
    var s := Run(Start(env), actions);
    if !s.lock.owned {
      CountNone(env.tids, s.threads, IsBumped);
      CountNone(env.tids, s.threads, IsInWait);
      forall e: Event
        ensures s.queue.refs(e) == 0
      {
        CountNone(env.tids, s.threads, IsCarrying(e));
      }
    }
  }

  /** The lock can always be reacquired after an outcall: no thread ever meets the fatal error. */
  lemma ReacquireNeverFails(env: Env, actions: seq<Action>, t: Tid)
    requires t in env.tids
    ensures var s := Run(Start(env), actions);
            !s.threads(t).Fatal? && (s.threads(t).Back? || s.threads(t).Upcalling? ==> s.lock.owned)
  {
    StartIsGood(env);
    RunIsGood(Start(env), actions);
    var s := Run(Start(env), actions);
    assert !s.threads(t).Fatal?;
  }

  /** Once the disposer has seen the count at one, the count is one whenever the lock is free. */
  lemma CountIsOneWhenFree(env: Env, actions: seq<Action>, t: Tid)
    requires t in env.tids
    ensures var s := Run(Start(env), actions);
            SeenOne(s.threads(t)) && (s.lock.holder == None || s.lock.holder == Some(t)) ==> s.lock.inuse == 1
  {
    StartIsGood(env);
    RunIsGood(Start(env), actions);
    var s := Run(Start(env), actions);
    if SeenOne(s.threads(t)) && (s.lock.holder == None || s.lock.holder == Some(t)) {
      forall u | u in env.tids && u != t
        ensures !Meets(IsBumped, s.threads(u))
      {
        assert Holding(s.threads(u)) <==> s.lock.holder == Some(u);
      }
      CountOnlyOne(env.tids, s.threads, t, IsBumped);
      CountPositive(env.tids, s.threads, t, IsBumped);
      CountNone(env.tids, s.threads, IsInWait);
    }
  }

  /** While the disposer waits nobody sleeps on the wait variable, and as long as it is not woken some other
      thread is in the proxy that will leave it. */
  lemma WaitingDisposerIsNotStuck(env: Env, actions: seq<Action>, t: Tid)
    requires t in env.tids
    ensures var s := Run(Start(env), actions);
            s.threads(t).WaitingOne? ==>
              && (forall u | u in env.tids :: !s.threads(u).Sleeping?)
              && (!s.threads(t).woken ==>
                    exists u :: u in env.tids && u != t && Bumped(s.threads(u)) && !s.threads(u).WaitingOne?)
  {
    StartIsGood(env);
    RunIsGood(Start(env), actions);
    var s := Run(Start(env), actions);
    if s.threads(t).WaitingOne? {
      assert NoneSleeps(s);
      if !s.threads(t).woken {
        CountOnlyOne(env.tids, s.threads, t, IsBumped);
        CountNone(env.tids, s.threads, IsInWait);
        var u :| u in env.tids && u != t && Meets(IsBumped, s.threads(u));
        assert !Disposer(s.threads(u));
      }
    }
  }

  lemma CarriedEvents(s: State)
    requires RefsOk(s)
    ensures forall e: Event :: s.queue.refs(e)
              == Occurrences(s.queue.events, e) + |set t | t in s.env.tids && s.threads(t).Calling?
                                                       && s.threads(t).event == Some(e)|
  {
    forall e: Event
      ensures s.queue.refs(e)
                == Occurrences(s.queue.events, e) + |set t | t in s.env.tids && s.threads(t).Calling?
                                                         && s.threads(t).event == Some(e)|
    {
      assert Those(s.env.tids, s.threads, IsCarrying(e))
          == set t | t in s.env.tids && s.threads(t).Calling? && s.threads(t).event == Some(e);
    }
  }

  /** The events that were taken out, followed by the queue, are those that came to the connected proxy, in order,
      until a failed push or the disposal clears the queue; then none is queued again. The references held are
      the queued events and the pushes in flight. */
  lemma QueueIsExact(env: Env, actions: seq<Action>)
    ensures var s := Run(Start(env), actions);
            var arrived, left := Arrivals(Start(env), actions), Departures(Start(env), actions);
            && s.queue.accepted == arrived && s.queue.taken == left
            && (s.queue.cleared <==> WasCleared(Start(env), actions))
            && if WasCleared(Start(env), actions) then s.queue.events == [] && left <= arrived
               else left + s.queue.events == arrived
    ensures var s := Run(Start(env), actions);
            && (forall e: Event :: s.queue.refs(e)
                  == Occurrences(s.queue.events, e) + |set t | t in env.tids && s.threads(t).Calling?
                                                           && s.threads(t).event == Some(e)|)
            && (s.px == Exception ==> s.queue.events == [])
  {
    StartIsGood(env);
    RunIsGood(Start(env), actions);
    RunRecords(Start(env), actions);
    var s := Run(Start(env), actions);
    CarriedEvents(s);
  }

  /** No event is stranded: while a thread of a connected proxy sleeps for events and the queue is not empty,
      another thread has been woken that will take one. */
  lemma NoEventIsStranded(env: Env, actions: seq<Action>, t: Tid)
    requires t in env.tids
    ensures var s := Run(Start(env), actions);
            s.px == Connected && SleepingTaker(s.threads(t)) && s.queue.events != [] ==>
              exists u :: u in env.tids && Taker(s.threads(u))
  {
    StartIsGood(env);
    RunIsGood(Start(env), actions);
    var s := Run(Start(env), actions);
    if s.px == Connected && SleepingTaker(s.threads(t)) && s.queue.events != [] {
      CountNone(env.tids, s.threads, IsWaking);
      var u :| u in env.tids && Meets(IsWaking, s.threads(u));
    }
  }
}
