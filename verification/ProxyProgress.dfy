/** What a proxy can always do. A disposal that has begun can be completed: from every state of every run in which
    the proxy is disconnected, the threads that are in it can go on so that it is disposed of. And a proxy that
    nobody is in can be connected and passes events on. */
module ProxyProgress {
  import opened Counting
  import opened Wrappers
  import opened ProxyProtocol
  import opened ProxyInvariants
  import opened ProxyRecords
  import opened ProxyTheorems

  // ---------------------------------------------------------------------------------------------
  // How much is left to do before the disposer is alone
  // ---------------------------------------------------------------------------------------------

  /** The steps that a thread still has in a disconnected proxy; the disposer has to release the lock only. */
  function Rank(pc: Pc): nat {
    match pc
    case Calling(_, _) => 4
    case Back(_, _) => 3
    case Sleeping(_) => 3
    case Returned(_, _) => 2
    case Woken(_) => 2
    case Entered(_) => 1
    case Resumed(_) => 1
    case Checking(_) => 1
    case _ => 0
  }

  ghost function AtLeast(s: State, k: nat): set<Tid> {
    set t | t in s.env.tids && Rank(s.threads(t)) >= k
  }

  ghost function Work(s: State): nat {
    |AtLeast(s, 1)| + |AtLeast(s, 2)| + |AtLeast(s, 3)| + |AtLeast(s, 4)|
  }

  /** No thread has more to do than before, and thread `t` has less. */
  ghost predicate Advances(s: State, s': State, t: Tid) {
    && s'.env == s.env && t in s.env.tids && Rank(s'.threads(t)) < Rank(s.threads(t))
    && forall u {:trigger s'.threads(u)} | u in s.env.tids :: Rank(s'.threads(u)) <= Rank(s.threads(u))
  }

  lemma LevelShrinks(s: State, s': State, t: Tid, k: nat)
    requires Advances(s, s', t)
    ensures |AtLeast(s', k)| <= |AtLeast(s, k)|
    ensures Rank(s.threads(t)) == k ==> |AtLeast(s', k)| < |AtLeast(s, k)|
  {
    SubsetSize(AtLeast(s', k), AtLeast(s, k));
    if Rank(s.threads(t)) == k {
      SubsetSize(AtLeast(s', k), AtLeast(s, k) - {t});
    }
  }

  lemma WorkShrinks(s: State, s': State, t: Tid)
    requires Advances(s, s', t)
    ensures Work(s') < Work(s)
  {
    LevelShrinks(s, s', t, 1);
    LevelShrinks(s, s', t, 2);
    LevelShrinks(s, s', t, 3);
    LevelShrinks(s, s', t, 4);
  }

  // ---------------------------------------------------------------------------------------------
  // One step
  // ---------------------------------------------------------------------------------------------

  /** A disposal is under way. */
  ghost predicate Disposing(s: State) {
    Good(s) && s.lock.owned && s.px == Disconnected
  }

  /** Only the scheduled thread may end the disposal, and only from the place where it does. */
  lemma StaysDisposing(s: State, a: Action)
    requires Disposing(s) && Enabled(s, a) && !s.threads(a.tid).Cleaning?
    ensures Disposing(Step(s, a)) && Step(s, a).env == s.env
  {
    StepIsGood(s, a);
    EnvStays(s, a);
    assert Placed(s.env.kind, s.threads(a.tid));
    assert Holding(s.threads(a.tid)) <==> s.lock.holder == Some(a.tid);
    StepProceeds(s, a);
  }

  ghost predicate NobodySleeps(s: State) {
    forall u | u in s.env.tids :: !s.threads(u).Sleeping?
  }

  /** Whoever holds the lock can act. */
  lemma HolderActs(s: State, t: Tid) returns (a: Action)
    requires t in s.env.tids && s.lock.holder == Some(t)
    ensures a.Body? && a.tid == t && Acts(s, t, a.sleeper) && Enabled(s, a)
  {
    var w: Tid := t;
    if !NobodySleeps(s) {
      w :| w in s.env.tids && s.threads(w).Sleeping?;
    }
    a := Body(t, false, w);
  }

  lemma HolderAdvances(s: State, a: Action)
    requires Disposing(s) && Enabled(s, a) && a.Body? && Acts(s, a.tid, a.sleeper) && !s.threads(a.tid).Cleaning?
    ensures Advances(s, Step(s, a), a.tid)
  {
    EnvStays(s, a);
    StepDoes(s, a);
    assert Holding(s.threads(a.tid)) && Placed(s.env.kind, s.threads(a.tid));
  }

  /** What a thread outside the lock does next. */
  function NextOutside(pc: Pc, t: Tid): Action {
    match pc
    case Calling(_, _) => Finish(t, true)
    case Sleeping(_) => Spurious(t)
    case _ => Reacquire(t)
  }

  lemma OtherAdvances(s: State, t: Tid)
    requires Disposing(s) && s.lock.holder == None && t in s.env.tids && Rank(s.threads(t)) > 0
    ensures var a := NextOutside(s.threads(t), t);
            Enabled(s, a) && !s.threads(t).Cleaning? && Advances(s, Step(s, a), t)
  {
    var a := NextOutside(s.threads(t), t);
    EnvStays(s, a);
    StepDoes(s, a);
    assert !Holding(s.threads(t)) && Placed(s.env.kind, s.threads(t));
  }

  // ---------------------------------------------------------------------------------------------
  // The disposer alone
  // ---------------------------------------------------------------------------------------------

  ghost predicate CanEnd(s: State) {
    exists more: seq<Action> :: !Run(s, more).lock.owned
  }

  lemma CanEndBefore(s: State, a: Action)
    requires CanEnd(Step(s, a))
    ensures CanEnd(s)
  {
    var more: seq<Action> :| !Run(Step(s, a), more).lock.owned;
    assert ([a] + more)[0] == a && ([a] + more)[1..] == more;
    assert !Run(s, [a] + more).lock.owned;
  }

  ghost predicate OthersIdle(s: State, t: Tid) {
    t in s.env.tids && forall u {:trigger s.threads(u)} | u in s.env.tids && u != t :: s.threads(u).Idle?
  }

  /** Alone, the disposer finds the count at one, and has been woken if it waits. */
  lemma AloneCountsOne(s: State, t: Tid)
    requires Disposing(s) && OthersIdle(s, t) && Disposer(s.threads(t))
    ensures s.lock.inuse == 1 && (s.threads(t).WaitingOne? ==> s.threads(t).woken)
    ensures s.lock.holder == if Holding(s.threads(t)) then Some(t) else None
  {
    CountOnlyOne(s.env.tids, s.threads, t, IsBumped);
    CountPositive(s.env.tids, s.threads, t, IsBumped);
    CountNone(s.env.tids, s.threads, IsInWait);
    assert Holding(s.threads(t)) <==> s.lock.holder == Some(t);
    forall u | u in s.env.tids && u != t
      ensures s.lock.holder != Some(u)
    {
      assert Holding(s.threads(u)) <==> s.lock.holder == Some(u);
    }
  }

  function StepsLeft(pc: Pc): nat {
    match pc
    case WaitingOne(_, _) => 4
    case Checking(_) => 3
    case Upcalling => 2
    case _ => 1
  }

  /** One step of the lone disposer, other than the last. */
  lemma AloneAdvances(s: State, t: Tid, a: Action)
    requires Disposing(s) && OthersIdle(s, t) && Disposer(s.threads(t)) && !s.threads(t).Cleaning?
    requires a.tid == t && if s.threads(t).Checking? then a.Body? && Acts(s, t, a.sleeper) else a.Reacquire?
    requires Enabled(s, a)
    ensures var s' := Step(s, a);
            && Disposing(s') && OthersIdle(s', t) && Disposer(s'.threads(t))
            && StepsLeft(s'.threads(t)) < StepsLeft(s.threads(t))
  {
    AloneCountsOne(s, t);
    StaysDisposing(s, a);
    StepDoes(s, a);
  }

  lemma LastStep(s: State, t: Tid, a: Action)
    requires Disposing(s) && t in s.env.tids && s.threads(t).Cleaning? && a.Body? && a.tid == t && Enabled(s, a)
    ensures !Step(s, a).lock.owned
  {
    CleanIsAlone(s, t);
    assert Holding(s.threads(t));
  }

  lemma {:induction false} LoneDisposerEnds(s: State, t: Tid)
    requires Disposing(s) && OthersIdle(s, t) && Disposer(s.threads(t))
    ensures CanEnd(s)
    decreases StepsLeft(s.threads(t))
  {
    AloneCountsOne(s, t);
    var a := Reacquire(t);
    if Holding(s.threads(t)) {
      a := HolderActs(s, t);
    }
    if s.threads(t).Cleaning? {
      LastStep(s, t, a);
      assert !Run(Step(s, a), []).lock.owned;
    } else {
      AloneAdvances(s, t, a);
      LoneDisposerEnds(Step(s, a), t);
    }
    CanEndBefore(s, a);
  }

  // ---------------------------------------------------------------------------------------------
  // The whole disposal
  // ---------------------------------------------------------------------------------------------

  lemma {:induction false} DisposalCanEnd(s: State)
    requires Disposing(s)
    ensures CanEnd(s)
    decreases Work(s)
  {
    var d :| d in s.env.tids && Disposer(s.threads(d));
    if s.lock.holder.Some? {
      var t := s.lock.holder.value;
      var a := HolderActs(s, t);
      if s.threads(t).Cleaning? {
        CleanIsAlone(s, t);
        LoneDisposerEnds(s, t);
      } else {
        HolderAdvances(s, a);
        GoesOn(s, a);
      }
    } else if t :| t in s.env.tids && Rank(s.threads(t)) > 0 {
      OtherAdvances(s, t);
      GoesOn(s, NextOutside(s.threads(t), t));
    } else {
      AllElseIdle(s, d);
      LoneDisposerEnds(s, d);
    }
  }

  lemma {:induction false} GoesOn(s: State, a: Action)
    requires Disposing(s) && Enabled(s, a) && !s.threads(a.tid).Cleaning? && Advances(s, Step(s, a), a.tid)
    ensures CanEnd(s)
    decreases Work(s), 0
  {
    WorkShrinks(s, Step(s, a), a.tid);
    StaysDisposing(s, a);
    DisposalCanEnd(Step(s, a));
    CanEndBefore(s, a);
  }

  lemma AllElseIdle(s: State, d: Tid)
    requires Disposing(s) && s.lock.holder == None && d in s.env.tids && Disposer(s.threads(d))
    requires forall t | t in s.env.tids :: Rank(s.threads(t)) == 0
    ensures OthersIdle(s, d)
  {
    forall u | u in s.env.tids && u != d
      ensures s.threads(u).Idle?
    {
      assert !Disposer(s.threads(u)) && !s.threads(u).Fatal? && Rank(s.threads(u)) == 0;
    }
  }

  /** However a run has gone, once the proxy is disconnected its threads can go on so that it is disposed of. */
  lemma DisposalCanComplete(env: Env, actions: seq<Action>)
    ensures var s := Run(Start(env), actions);
            s.px == Disconnected ==> exists more: seq<Action> :: Run(s, more).lock.disposals == 1
  {
    DisposedAtMostOnce(env, actions);
    StartIsGood(env);
    RunIsGood(Start(env), actions);
    var s := Run(Start(env), actions);
    if s.px == Disconnected {
      if s.lock.owned {
        DisposalCanEnd(s);
        var more: seq<Action> :| !Run(s, more).lock.owned;
        RunIsGood(s, more);
        assert Run(s, more).lock.disposals == 1;
      } else {
        assert Run(s, []).lock.disposals == 1;
      }
    }
  }

  // ---------------------------------------------------------------------------------------------
  // An event passes through
  // ---------------------------------------------------------------------------------------------

  /** Thread `t` enters an operation and does what it does under the lock. */
  function Call(t: Tid, op: Op): seq<Action> {
    [Enter(t, op), Body(t, true, t)]
  }

  /** Nobody is in the proxy. */
  ghost predicate Quiet(s: State, t: Tid) {
    && s.lock.owned && !s.lock.disposed && s.lock.holder == None && s.lock.inuse == 0 && t in s.env.tids
    && forall u {:trigger s.threads(u)} | u in s.env.tids :: s.threads(u).Idle?
  }

  lemma CallRuns(s: State, t: Tid, op: Op)
    ensures Run(s, Call(t, op)) == Step(Step(s, Enter(t, op)), Body(t, true, t))
  {
    var mid, rest := Step(s, Enter(t, op)), [Body(t, true, t)];
    assert Call(t, op)[1..] == rest && rest[1..] == [];
    assert Run(mid, rest) == Run(Step(mid, rest[0]), []);
  }

  lemma CallEnters(s: State, t: Tid, op: Op)
    requires Quiet(s, t) && Offers(s.env.kind, op)
    ensures var mid := Step(s, Enter(t, op));
            && mid == Hold(s, t, Entered(op), if Bumping(op) then 1 else 0) && Enabled(mid, Body(t, true, t))
            && Run(s, Call(t, op)) == BodyStep(mid, t, true, t)
  {
    CallRuns(s, t, op);
  }

  lemma ConnectWorks(s: State, t: Tid)
    requires Quiet(s, t) && s.px == NotConnected
    ensures var s' := Run(s, Call(t, Connect));
            Quiet(s', t) && s'.env == s.env && s'.px == Connected && s'.queue == s.queue
  {
    CallEnters(s, t, Connect);
  }

  lemma AddEventWorks(s: State, t: Tid, e: Event)
    requires Quiet(s, t) && s.px == Connected && (s.env.kind.PullSupplier? || s.env.kind.PushSupplier?)
    ensures var s' := Run(s, Call(t, AddEvent(e)));
            Quiet(s', t) && s'.env == s.env && s'.px == Connected && s'.queue.events == s.queue.events + [e]
  {
    CallEnters(s, t, AddEvent(e));
  }

  lemma TryPullTakes(s: State, t: Tid)
    requires Quiet(s, t) && s.px == Connected && s.env.kind.PullSupplier? && s.queue.events != []
    ensures Run(s, Call(t, TryPull)).queue.taken == s.queue.taken + [s.queue.events[0]]
  {
    CallEnters(s, t, TryPull);
  }

  lemma PullTakes(s: State, t: Tid)
    requires Quiet(s, t) && s.px == Connected && s.env.kind.PullSupplier? && s.queue.events != []
    ensures Run(s, Call(t, Pull)).queue.taken == s.queue.taken + [s.queue.events[0]]
  {
    CallEnters(s, t, Pull);
  }

  lemma PushTakes(s: State, t: Tid, op: Op)
    requires Quiet(s, t) && s.px == Connected && s.queue.events != []
    requires s.env.kind.PushSupplier? && (op.PushEvent? || (op.PushWorker? && s.env.kind.worker))
    ensures Run(s, Call(t, op)).threads(t) == Calling(op, Some(s.queue.events[0]))
  {
    CallEnters(s, t, op);
  }

  lemma PullCalls(s: State, t: Tid, op: Op)
    requires Quiet(s, t) && s.px == Connected
    requires s.env.kind.PullConsumer? && (op.PullEvent? || (op.PullWorker? && s.env.kind.worker))
    ensures Run(s, Call(t, op)).threads(t) == Calling(op, None)
  {
    CallEnters(s, t, op);
  }

  /** When nobody is in it, a fresh proxy can be connected, and a connected supplier takes an event and hands it on:
      to a consumer that pulls, by either call, or to a thread that pushes it. */
  lemma EventsPass(s: State, t: Tid, e: Event)
    requires Quiet(s, t) && s.queue.events == []
    ensures s.px == NotConnected ==> Run(s, Call(t, Connect)).px == Connected && Quiet(Run(s, Call(t, Connect)), t)
    ensures s.px == Connected && s.env.kind.PullSupplier? ==>
              var full := Run(s, Call(t, AddEvent(e)));
              && full.queue.events == [e] && Quiet(full, t)
              && Run(full, Call(t, TryPull)).queue.taken == full.queue.taken + [e]
              && Run(full, Call(t, Pull)).queue.taken == full.queue.taken + [e]
    ensures s.px == Connected && s.env.kind.PushSupplier? ==>
              var full := Run(s, Call(t, AddEvent(e)));
              && full.queue.events == [e] && Quiet(full, t)
              && forall op: Op | op == PushEvent || (op == PushWorker && s.env.kind.worker) ::
                   Run(full, Call(t, op)).threads(t) == Calling(op, Some(e))
  {
    if s.px == NotConnected {
      ConnectWorks(s, t);
    } else if s.px == Connected && (s.env.kind.PullSupplier? || s.env.kind.PushSupplier?) {
      AddEventWorks(s, t, e);
      var full := Run(s, Call(t, AddEvent(e)));
      if s.env.kind.PullSupplier? {
        TryPullTakes(full, t);
        PullTakes(full, t);
      } else {
        forall op: Op | op == PushEvent || (op == PushWorker && s.env.kind.worker)
          ensures Run(full, Call(t, op)).threads(t) == Calling(op, Some(e))
        {
          PushTakes(full, t, op);
        }
      }
    }
  }
}
