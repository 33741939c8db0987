/** The pool of queue workers (include/QueueProcessorPool.h, include/QueueProcessor.h) with the barrier that a
    batch waits on (include/SingleThreadBarrier.h). A step is one operation on a queue lock, a semaphore or the
    count lock of the barrier. */
module QueuePool {
  import opened Counting

  datatype Item = Item(id: nat, payload: nat)

  datatype Place =
    | Top                     // tests whether to keep running
    | AtSemaphore             // about to wait for an item
    | Passed                  // has passed the semaphore, has not popped yet
    | Busy(item: Item)        // in the callback
    | Signalling              // found the barrier's count at zero, has not posted its semaphore yet
    | Stopped

  datatype Worker = Worker(
    place: Place, queue: seq<Item>, sem: nat, keepRunning: bool,
    inserted: seq<Item>, started: seq<Item>, finished: seq<Item>)

  /** `posts` counts the calls of `post`, `passes` the calls of `wait` that returned. */
  datatype Barrier = Barrier(count: nat, sem: nat, posts: nat, passes: nat)

  datatype Config = Config(n: nat, maxQueueSize: nat, initial: nat)

  datatype State = State(
    cfg: Config, workers: nat -> Worker, barrier: Barrier, queued: seq<Item>, overflowed: bool)

  datatype Action =
    | QueueItem(item: Item)
    | Test(w: nat)
    | SemWait(w: nat)
    | Pop(w: nat)
    | CallbackEnds(w: nat)
    | SemPost(w: nat)
    | Terminate(w: nat)
    | Restart(w: nat)
    | BarrierWait

  function Start(cfg: Config, running: bool): State {
    State(cfg, (w: nat) => Worker(if running then Top else Stopped, [], 0, true, [], [], []),
          Barrier(if cfg.initial > 0 then cfg.initial - 1 else 0, 0, 0, 0), [], false)
  }

  function Put(s: State, w: nat, k: Worker): State {
    var before := s.workers;
    s.(workers := (v: nat) => if v == w then k else before(v))
  }

  /** `insert`: a full queue loses its oldest item; the semaphore is posted either way. */
  function Insert(s: State, item: Item): State
    requires s.cfg.n > 0
  {
    var w := item.id % s.cfg.n;
    var k := s.workers(w);
    var full := |k.queue| == s.cfg.maxQueueSize;
    var kept := if full && k.queue != [] then k.queue[1..] else k.queue;
    Put(s, w, k.(queue := kept + [item], sem := k.sem + 1, inserted := k.inserted + [item]))
      .(queued := s.queued + [item], overflowed := s.overflowed || full)
  }

  /** `post`: counts down, or goes on to post the semaphore. */
  function Post(s: State, w: nat): State {
    var k := s.workers(w);
    var b := s.barrier.(posts := s.barrier.posts + 1);
    if s.barrier.count > 0 then Put(s, w, k.(place := Top)).(barrier := b.(count := b.count - 1))
    else Put(s, w, k.(place := Signalling)).(barrier := b)
  }

  predicate Enabled(s: State, a: Action) {
    match a
    case QueueItem(_) => s.cfg.n > 0
    case Test(w) => w < s.cfg.n && s.workers(w).place.Top?
    case SemWait(w) => w < s.cfg.n && s.workers(w).place.AtSemaphore? && s.workers(w).sem > 0
    case Pop(w) => w < s.cfg.n && s.workers(w).place.Passed?
    case CallbackEnds(w) => w < s.cfg.n && s.workers(w).place.Busy?
    case SemPost(w) => w < s.cfg.n && s.workers(w).place.Signalling?
    case Terminate(w) => w < s.cfg.n
    case Restart(w) => w < s.cfg.n && s.workers(w).place.Stopped?
    case BarrierWait => s.barrier.sem > 0
  }

  function Step(s: State, a: Action): State {
    if !Enabled(s, a) then s else
    match a
    case QueueItem(item) => Insert(s, item)
    case Test(w) =>
      var k := s.workers(w);
      Put(s, w, if k.keepRunning then k.(place := AtSemaphore) else k.(place := Stopped, keepRunning := true))
    case SemWait(w) => Put(s, w, s.workers(w).(place := Passed, sem := s.workers(w).sem - 1))
    case Pop(w) =>
      var k := s.workers(w);
      if k.queue == [] then Put(s, w, k.(place := Top))
      else Put(s, w, k.(place := Busy(k.queue[0]), queue := k.queue[1..], started := k.started + [k.queue[0]]))
    case CallbackEnds(w) =>
      var k := s.workers(w);
      Post(Put(s, w, k.(finished := k.finished + [k.place.item])), w)
    case SemPost(w) =>
      Put(s, w, s.workers(w).(place := Top)).(barrier := s.barrier.(sem := s.barrier.sem + 1))
    case Terminate(w) => Put(s, w, s.workers(w).(keepRunning := false, sem := s.workers(w).sem + 1))
    case Restart(w) => Put(s, w, s.workers(w).(place := Top))
    case BarrierWait => s.(barrier := s.barrier.(sem := s.barrier.sem - 1, passes := s.barrier.passes + 1))
  }

  function Run(s: State, actions: seq<Action>): State
    decreases |actions|
  {
    if actions == [] then s else Run(Step(s, actions[0]), actions[1..])
  }

  // ---------------------------------------------------------------------------------------------
  // One worker
  // ---------------------------------------------------------------------------------------------

  /** The items of a sequence that go to worker `w`, in order. */
  function Routed(items: seq<Item>, n: nat, w: nat): seq<Item>
    requires n > 0
  {
    if items == [] then []
    else Routed(items[..|items| - 1], n, w) + (if items[|items| - 1].id % n == w then [items[|items| - 1]] else [])
  }

  lemma RoutedAppend(items: seq<Item>, x: Item, n: nat, w: nat)
    requires n > 0
    ensures Routed(items + [x], n, w) == Routed(items, n, w) + if x.id % n == w then [x] else []
  {
  }

  /** A worker that was sent the items `sent`: every queued item has a post or a wake-up in transit, and the items
      it has started, followed by its queue, are those it was sent. */
  ghost predicate WorkerOk(k: Worker, sent: seq<Item>, overflowed: bool) {
    && k.sem + One(k.place.Passed?) >= |k.queue|
    && k.inserted == sent
    && (!overflowed ==> k.started + k.queue == sent)
    && k.started == (if k.place.Busy? then k.finished + [k.place.item] else k.finished)
  }

  ghost predicate WorkersOk(s: State) {
    s.cfg.n > 0 ==>
      forall w: nat {:trigger s.workers(w)} | w < s.cfg.n ::
        WorkerOk(s.workers(w), Routed(s.queued, s.cfg.n, w), s.overflowed)
  }

  lemma InsertKeepsWorkers(s: State, item: Item)
    requires s.cfg.n > 0 && WorkersOk(s)
    ensures WorkersOk(Insert(s, item))
  {
    var s' := Insert(s, item);
    forall w: nat | w < s.cfg.n
      ensures WorkerOk(s'.workers(w), Routed(s'.queued, s.cfg.n, w), s'.overflowed)
    {
      var k, sent := s.workers(w), Routed(s.queued, s.cfg.n, w);
      assert WorkerOk(k, sent, s.overflowed);
      RoutedAppend(s.queued, item, s.cfg.n, w);
      assert k.started + (k.queue + [item]) == (k.started + k.queue) + [item];
      assert sent + [] == sent;
    }
  }

  /** What the steps of a worker itself keep. */
  lemma WorkerStep(s: State, a: Action, sent: seq<Item>, overflowed: bool)
    requires Enabled(s, a) && !a.QueueItem? && !a.BarrierWait? && WorkerOk(s.workers(a.w), sent, overflowed)
    ensures WorkerOk(Step(s, a).workers(a.w), sent, overflowed)
    ensures Step(s, a).queued == s.queued && Step(s, a).overflowed == s.overflowed && Step(s, a).cfg == s.cfg
    ensures forall v: nat {:trigger Step(s, a).workers(v)} | v != a.w :: Step(s, a).workers(v) == s.workers(v)
  {
    if a.Pop? && s.workers(a.w).queue != [] {
      PopKeepsWorker(s.workers(a.w), sent, overflowed);
    }
  }

  lemma PopKeepsWorker(k: Worker, sent: seq<Item>, overflowed: bool)
    requires WorkerOk(k, sent, overflowed) && k.place.Passed? && k.queue != []
    ensures WorkerOk(k.(place := Busy(k.queue[0]), queue := k.queue[1..], started := k.started + [k.queue[0]]),
                     sent, overflowed)
  {
    assert k.started + k.queue == k.started + [k.queue[0]] + k.queue[1..];
  }

  lemma StepKeepsWorkers(s: State, a: Action)
    requires WorkersOk(s)
    ensures WorkersOk(Step(s, a))
  {
    if Enabled(s, a) {
      if a.QueueItem? {
        InsertKeepsWorkers(s, a.item);
      } else if !a.BarrierWait? {
        WorkerStep(s, a, Routed(s.queued, s.cfg.n, a.w), s.overflowed);
      }
    }
  }

  // ---------------------------------------------------------------------------------------------
  // The barrier
  // ---------------------------------------------------------------------------------------------

  ghost function Signallers(s: State): set<nat> {
    set w: nat | w < s.cfg.n && s.workers(w).place.Signalling?
  }

  /** The calls of `post` after the first `initial - 1` are the signals given, taken or under way. */
  ghost predicate BarrierOk(s: State) {
    var first := if s.cfg.initial > 0 then s.cfg.initial - 1 else 0;
    var signals := s.barrier.sem + s.barrier.passes + |Signallers(s)|;
    if s.barrier.posts < first then s.barrier.count == first - s.barrier.posts && signals == 0
    else s.barrier.count == 0 && signals == s.barrier.posts - first
  }

  lemma SignallersChange(s: State, s': State, w: nat)
    requires s'.cfg == s.cfg && w < s.cfg.n
    requires forall v: nat | v != w :: s'.workers(v).place.Signalling? == s.workers(v).place.Signalling?
    ensures |Signallers(s')|
              == |Signallers(s)| - One(s.workers(w).place.Signalling?) + One(s'.workers(w).place.Signalling?)
  {
    SizeChange(Signallers(s), Signallers(s'), w);
  }

  lemma StepKeepsBarrier(s: State, a: Action)
    requires BarrierOk(s)
    ensures BarrierOk(Step(s, a))
  {
    if Enabled(s, a) {
      var s' := Step(s, a);
      if a.BarrierWait? {
        assert Signallers(s') == Signallers(s);
      } else if a.QueueItem? {
        SignallersChange(s, s', a.item.id % s.cfg.n);
      } else {
        SignallersChange(s, s', a.w);
      }
    }
  }

  // ---------------------------------------------------------------------------------------------
  // All workers
  // ---------------------------------------------------------------------------------------------

  function Total(size: nat -> nat, n: nat): nat {
    if n == 0 then 0 else Total(size, n - 1) + size(n - 1)
  }

  lemma {:induction false} TotalChange(before: nat -> nat, after: nat -> nat, n: nat, w: nat)
    requires w < n && forall v: nat | v != w :: before(v) == after(v)
    ensures Total(after, n) == Total(before, n) - before(w) + after(w)
  {
    if w < n - 1 {
      TotalChange(before, after, n - 1, w);
    } else {
      TotalSame(before, after, n - 1);
    }
  }

  lemma {:induction false} TotalSame(before: nat -> nat, after: nat -> nat, n: nat)
    requires forall v: nat | v < n :: before(v) == after(v)
    ensures Total(after, n) == Total(before, n)
  {
    if n > 0 {
      TotalSame(before, after, n - 1);
    }
  }

  /** Totals that are equal although every summand of the first is at most that of the second. */
  lemma {:induction false} EqualTotals(small: nat -> nat, large: nat -> nat, n: nat)
    requires forall v: nat | v < n :: small(v) <= large(v)
    ensures Total(small, n) <= Total(large, n)
    ensures Total(small, n) >= Total(large, n) ==> forall v: nat | v < n :: small(v) == large(v)
  {
    if n > 0 {
      EqualTotals(small, large, n - 1);
    }
  }

  function Finished(s: State): nat -> nat {
    (w: nat) => |s.workers(w).finished|
  }

  function Inserted(s: State): nat -> nat {
    (w: nat) => |s.workers(w).inserted|
  }

  ghost predicate TotalsOk(s: State) {
    Total(Finished(s), s.cfg.n) == s.barrier.posts && Total(Inserted(s), s.cfg.n) == |s.queued|
  }

  /** The step changes the history of one worker only, and by what it does to the totals. */
  lemma StepCounts(s: State, a: Action, w: nat)
    requires Enabled(s, a) && !a.BarrierWait? && w == if a.QueueItem? then a.item.id % s.cfg.n else a.w
    ensures w < s.cfg.n
    ensures forall v: nat | v != w ::
              Finished(Step(s, a))(v) == Finished(s)(v) && Inserted(Step(s, a))(v) == Inserted(s)(v)
    ensures Finished(Step(s, a))(w) - Finished(s)(w) == Step(s, a).barrier.posts - s.barrier.posts
    ensures Inserted(Step(s, a))(w) - Inserted(s)(w) == |Step(s, a).queued| - |s.queued|
    ensures Step(s, a).cfg == s.cfg
  {
  }

  lemma StepKeepsTotals(s: State, a: Action)
    requires TotalsOk(s)
    ensures TotalsOk(Step(s, a))
  {
    if Enabled(s, a) {
      var s' := Step(s, a);
      if a.BarrierWait? {
        TotalSame(Finished(s), Finished(s'), s.cfg.n);
        TotalSame(Inserted(s), Inserted(s'), s.cfg.n);
      } else {
        var w := if a.QueueItem? then a.item.id % s.cfg.n else a.w;
        StepCounts(s, a, w);
        TotalChange(Finished(s), Finished(s'), s.cfg.n, w);
        TotalChange(Inserted(s), Inserted(s'), s.cfg.n, w);
      }
    }
  }

  // ---------------------------------------------------------------------------------------------
  // Main results
  // ---------------------------------------------------------------------------------------------

  ghost predicate Inv(s: State) {
    WorkersOk(s) && BarrierOk(s) && TotalsOk(s)
  }

  lemma StepKeeps(s: State, a: Action)
    requires Inv(s)
    ensures Inv(Step(s, a)) && Step(s, a).cfg == s.cfg
  {
    StepKeepsWorkers(s, a);
    StepKeepsBarrier(s, a);
    StepKeepsTotals(s, a);
  }

  lemma {:induction false} RunKeeps(s: State, actions: seq<Action>)
    requires Inv(s)
    ensures Inv(Run(s, actions)) && Run(s, actions).cfg == s.cfg
    decreases |actions|
  {
    if actions != [] {
      StepKeeps(s, actions[0]);
      RunKeeps(Step(s, actions[0]), actions[1..]);
    }
  }

  lemma {:induction false} ZeroTotal(size: nat -> nat, n: nat)
    requires forall v: nat | v < n :: size(v) == 0
    ensures Total(size, n) == 0
  {
    if n > 0 {
      ZeroTotal(size, n - 1);
    }
  }

  lemma StartIsOk(cfg: Config, running: bool)
    ensures Inv(Start(cfg, running))
  {
    var s := Start(cfg, running);
    assert Signallers(s) == {};
    assert forall w: nat | cfg.n > 0 :: Routed([], cfg.n, w) == [];
    ZeroTotal(Finished(s), cfg.n);
    ZeroTotal(Inserted(s), cfg.n);
  }

  /** No item is stranded: a worker that waits with items in its queue can pass its semaphore. */
  lemma NoItemIsStranded(cfg: Config, running: bool, actions: seq<Action>, w: nat)
    requires w < cfg.n
    ensures var k := Run(Start(cfg, running), actions).workers(w);
            && k.sem + One(k.place.Passed?) >= |k.queue|
            && (k.place.AtSemaphore? && k.queue != [] ==> Enabled(Run(Start(cfg, running), actions), SemWait(w)))
  {
    StartIsOk(cfg, running);
    RunKeeps(Start(cfg, running), actions);
    var s := Run(Start(cfg, running), actions);
    assert WorkerOk(s.workers(w), Routed(s.queued, cfg.n, w), s.overflowed);
  }

  /** The items of one id among the first ones of a sequence. */
  function WithId(items: seq<Item>, id: nat): seq<Item> {
    if items == [] then []
    else WithId(items[..|items| - 1], id) + (if items[|items| - 1].id == id then [items[|items| - 1]] else [])
  }

  lemma {:induction false} RoutingKeepsIds(items: seq<Item>, n: nat, id: nat)
    requires n > 0
    ensures WithId(Routed(items, n, id % n), id) == WithId(items, id)
  {
    if items != [] {
      var init, x := items[..|items| - 1], items[|items| - 1];
      RoutingKeepsIds(init, n, id);
      var r := Routed(init, n, id % n);
      if x.id % n == id % n {
        assert (r + [x])[..|r + [x]| - 1] == r;
      } else {
        assert r + [] == r;
      }
    }
  }

  lemma {:induction false} WithIdPrefix(a: seq<Item>, b: seq<Item>, id: nat)
    requires a <= b
    ensures WithId(a, id) <= WithId(b, id)
    decreases |b|
  {
    if |a| < |b| {
      WithIdPrefix(a, b[..|b| - 1], id);
    } else {
      assert a == b;
    }
  }

  /** Items of one id are processed in the order in which they were queued, as long as no queue overflows. */
  lemma SameIdInOrder(cfg: Config, running: bool, actions: seq<Action>, id: nat)
    requires cfg.n > 0
    ensures var s := Run(Start(cfg, running), actions);
            !s.overflowed ==> WithId(s.workers(id % cfg.n).finished, id) <= WithId(s.queued, id)
  {
    StartIsOk(cfg, running);
    RunKeeps(Start(cfg, running), actions);
    var s := Run(Start(cfg, running), actions);
    var k := s.workers(id % cfg.n);
    assert WorkerOk(k, Routed(s.queued, cfg.n, id % cfg.n), s.overflowed);
    if !s.overflowed {
      WithIdPrefix(k.finished, k.inserted, id);
      RoutingKeepsIds(s.queued, cfg.n, id);
    }
  }

  /** A barrier initialised to the number of queued items lets its waiter through only after the callback of
      every item has ended. */
  lemma BarrierWaitsForAll(cfg: Config, running: bool, actions: seq<Action>, w: nat)
    requires cfg.n > 0 && w < cfg.n
    ensures var s := Run(Start(cfg, running), actions);
            !s.overflowed && s.barrier.passes > 0 && |s.queued| <= cfg.initial ==>
              s.workers(w).finished == Routed(s.queued, cfg.n, w)
  {
    StartIsOk(cfg, running);
    RunKeeps(Start(cfg, running), actions);
    var s := Run(Start(cfg, running), actions);
    if !s.overflowed && s.barrier.passes > 0 && |s.queued| <= cfg.initial {
      forall v: nat | v < cfg.n
        ensures Finished(s)(v) <= Inserted(s)(v) && s.workers(v).finished <= s.workers(v).inserted
      {
        assert WorkerOk(s.workers(v), Routed(s.queued, cfg.n, v), s.overflowed);
      }
      assert s.barrier.posts >= |s.queued|;
      EqualTotals(Finished(s), Inserted(s), cfg.n);
      assert Finished(s)(w) == Inserted(s)(w);
      assert WorkerOk(s.workers(w), Routed(s.queued, cfg.n, w), s.overflowed);
    }
  }

  /** When that many callbacks have ended the waiter can pass, or a worker is just about to let it. */
  lemma BarrierLetsThrough(cfg: Config, running: bool, actions: seq<Action>)
    requires cfg.initial > 0
    ensures var s := Run(Start(cfg, running), actions);
            s.barrier.posts >= cfg.initial && s.barrier.passes == 0 ==>
              s.barrier.sem > 0 || exists w: nat :: w < cfg.n && s.workers(w).place.Signalling?
  {
    StartIsOk(cfg, running);
    RunKeeps(Start(cfg, running), actions);
    var s := Run(Start(cfg, running), actions);
    if s.barrier.posts >= cfg.initial && s.barrier.passes == 0 && s.barrier.sem == 0 {
      assert Signallers(s) != {};
      var w :| w in Signallers(s);
    }
  }

  // ---------------------------------------------------------------------------------------------
  // What the histories record, told by the actions and the states they met
  // ---------------------------------------------------------------------------------------------

  function QueuedBy(actions: seq<Action>): seq<Item> {
    if actions == [] then []
    else (if actions[0].QueueItem? then [actions[0].item] else []) + QueuedBy(actions[1..])
  }

  /** The items whose callback worker `w` ended. */
  function EndedBy(s: State, actions: seq<Action>, w: nat): seq<Item>
    decreases |actions|
  {
    if actions == [] then [] else
    var place := s.workers(w).place;
    (if actions[0] == CallbackEnds(w) && place.Busy? then [place.item] else [])
    + EndedBy(Step(s, actions[0]), actions[1..], w)
  }

  /** How often the wait for the barrier returned. */
  function WaitsEnded(s: State, actions: seq<Action>): nat
    decreases |actions|
  {
    if actions == [] then 0 else
    (if actions[0].BarrierWait? && s.barrier.sem > 0 then 1 else 0) + WaitsEnded(Step(s, actions[0]), actions[1..])
  }

  predicate MeetsFull(s: State, a: Action) {
    a.QueueItem? && s.cfg.n > 0 && |s.workers(a.item.id % s.cfg.n).queue| == s.cfg.maxQueueSize
  }

  /** Some item came to a queue that held exactly as many items as it may. */
  predicate MetFull(s: State, actions: seq<Action>)
    decreases |actions|
  {
    actions != [] && (MeetsFull(s, actions[0]) || MetFull(Step(s, actions[0]), actions[1..]))
  }

  /** An item that comes to a queue goes to its end, and takes the place of the oldest one exactly if the queue is
      full; the worker is signalled either way, and no other worker notices. */
  lemma QueueItemIsExact(s: State, item: Item)
    requires s.cfg.n > 0
    ensures var w, s' := item.id % s.cfg.n, Step(s, QueueItem(item));
            var q := s.workers(w).queue;
            && s'.workers(w).queue == (if MeetsFull(s, QueueItem(item)) && q != [] then q[1..] else q) + [item]
            && s'.workers(w).sem == s.workers(w).sem + 1 && s'.workers(w).place == s.workers(w).place
            && forall v: nat | v != w :: s'.workers(v) == s.workers(v)
  {
  }

  lemma StepRecords(s: State, a: Action, w: nat)
    requires w < s.cfg.n
    ensures var s' := Step(s, a);
            && s'.cfg == s.cfg
            && s'.queued == s.queued + QueuedBy([a]) && s'.barrier.passes == s.barrier.passes + WaitsEnded(s, [a])
            && s'.workers(w).finished == s.workers(w).finished + EndedBy(s, [a], w)
            && (s'.overflowed <==> s.overflowed || MetFull(s, [a]))
  {
    assert [a][1..] == [];
    if Enabled(s, a) && !a.QueueItem? && !a.BarrierWait? {
      var k, k' := s.workers(w), Step(s, a).workers(w);
      assert k.finished + [] == k.finished;
    }
  }

  lemma FirstOfRun(s: State, actions: seq<Action>, w: nat)
    requires actions != []
    ensures QueuedBy(actions) == QueuedBy([actions[0]]) + QueuedBy(actions[1..])
    ensures var a, rest := actions[0], actions[1..];
            && EndedBy(s, actions, w) == EndedBy(s, [a], w) + EndedBy(Step(s, a), rest, w)
            && WaitsEnded(s, actions) == WaitsEnded(s, [a]) + WaitsEnded(Step(s, a), rest)
            && (MetFull(s, actions) <==> MetFull(s, [a]) || MetFull(Step(s, a), rest))
  {
    var a := actions[0];
    assert [a][1..] == [];
    assert QueuedBy([a]) == (if a.QueueItem? then [a.item] else []) + [];
  }

  lemma Associative(a: seq<Item>, b: seq<Item>, c: seq<Item>)
    ensures (a + b) + c == a + (b + c)
  {
  }

  lemma {:induction false} RunRecords(s: State, actions: seq<Action>, w: nat)
    requires w < s.cfg.n
    ensures var s' := Run(s, actions);
            && s'.queued == s.queued + QueuedBy(actions)
            && s'.workers(w).finished == s.workers(w).finished + EndedBy(s, actions, w)
            && s'.barrier.passes == s.barrier.passes + WaitsEnded(s, actions)
            && (s'.overflowed <==> s.overflowed || MetFull(s, actions))
    decreases |actions|
  {
    if actions != [] {
      var a, rest := actions[0], actions[1..];
      StepRecords(s, a, w);
      FirstOfRun(s, actions, w);
      RunRecords(Step(s, a), rest, w);
      Associative(s.queued, QueuedBy([a]), QueuedBy(rest));
      Associative(s.workers(w).finished, EndedBy(s, [a], w), EndedBy(Step(s, a), rest, w));
    }
  }

  /** In every run the histories are what happened: the items queued, the callbacks ended, the waits that
      returned; and an item was lost exactly if one came to a full queue. */
  lemma HistoriesAreExact(cfg: Config, running: bool, actions: seq<Action>, w: nat)
    requires w < cfg.n
    ensures var s := Run(Start(cfg, running), actions);
            && s.queued == QueuedBy(actions)
            && s.workers(w).finished == EndedBy(Start(cfg, running), actions, w)
            && s.barrier.passes == WaitsEnded(Start(cfg, running), actions)
            && (s.overflowed <==> MetFull(Start(cfg, running), actions))
  {
    RunRecords(Start(cfg, running), actions, w);
  }

  /** So far an overflow took more items for one worker than its queue holds. */
  ghost predicate Roomy(s: State) {
    s.overflowed && s.cfg.n > 0 ==>
      exists w: nat :: w < s.cfg.n && |Routed(s.queued, s.cfg.n, w)| > s.cfg.maxQueueSize
  }

  lemma StepKeepsRoomy(s: State, a: Action)
    requires WorkersOk(s) && Roomy(s)
    ensures Roomy(Step(s, a))
  {
    if Enabled(s, a) && a.QueueItem? {
      var s', w := Step(s, a), a.item.id % s.cfg.n;
      if s.overflowed {
        var v: nat :| v < s.cfg.n && |Routed(s.queued, s.cfg.n, v)| > s.cfg.maxQueueSize;
        RoutedAppend(s.queued, a.item, s.cfg.n, v);
        assert |Routed(s'.queued, s.cfg.n, v)| > s.cfg.maxQueueSize;
      } else if s'.overflowed {
        assert WorkerOk(s.workers(w), Routed(s.queued, s.cfg.n, w), false);
        RoutedAppend(s.queued, a.item, s.cfg.n, w);
        assert |Routed(s'.queued, s.cfg.n, w)| > s.cfg.maxQueueSize;
      }
    }
  }

  lemma {:induction false} RunKeepsRoomy(s: State, actions: seq<Action>)
    requires Inv(s) && Roomy(s)
    ensures Roomy(Run(s, actions))
    decreases |actions|
  {
    if actions != [] {
      StepKeeps(s, actions[0]);
      StepKeepsRoomy(s, actions[0]);
      RunKeepsRoomy(Step(s, actions[0]), actions[1..]);
    }
  }

  lemma {:induction false} RoutedIsShorter(items: seq<Item>, n: nat, w: nat)
    requires n > 0
    ensures |Routed(items, n, w)| <= |items|
  {
    if items != [] {
      RoutedIsShorter(items[..|items| - 1], n, w);
    }
  }

  lemma RoomyMeans(s: State)
    requires s.cfg.n > 0 && Roomy(s)
    ensures (forall w: nat | w < s.cfg.n :: |Routed(s.queued, s.cfg.n, w)| <= s.cfg.maxQueueSize) ==> !s.overflowed
    ensures |s.queued| <= s.cfg.maxQueueSize ==> !s.overflowed
  {
    if s.overflowed {
      var w: nat :| w < s.cfg.n && |Routed(s.queued, s.cfg.n, w)| > s.cfg.maxQueueSize;
      RoutedIsShorter(s.queued, s.cfg.n, w);
    }
  }

  /** No item is lost while no worker is sent more items than a queue holds, in particular while no more than that
      are queued at all. */
  lemma NoOverflow(cfg: Config, running: bool, actions: seq<Action>)
    requires cfg.n > 0
    ensures var s := Run(Start(cfg, running), actions);
            && ((forall w: nat | w < cfg.n :: |Routed(s.queued, cfg.n, w)| <= cfg.maxQueueSize) ==> !s.overflowed)
            && (|s.queued| <= cfg.maxQueueSize ==> !s.overflowed)
  {
    StartIsOk(cfg, running);
    RunKeeps(Start(cfg, running), actions);
    RunKeepsRoomy(Start(cfg, running), actions);
    RoomyMeans(Run(Start(cfg, running), actions));
  }

  // ---------------------------------------------------------------------------------------------
  // Progress
  // ---------------------------------------------------------------------------------------------

  function OwnStep(place: Place, w: nat): Action {
    match place
    case Top => Test(w)
    case AtSemaphore => SemWait(w)
    case Passed => Pop(w)
    case Busy(_) => CallbackEnds(w)
    case Signalling => SemPost(w)
    case Stopped => Restart(w)
  }

  /** The state after `m` steps of worker `w` alone. */
  function Alone(s: State, w: nat, m: nat): State
    decreases m
  {
    if m == 0 then s else Alone(Step(s, OwnStep(s.workers(w).place, w)), w, m - 1)
  }

  /** How many own steps of the worker its posts allow at most, up to the next wait. */
  function Ahead(k: Worker): nat {
    6 * k.sem + match k.place
                case Top => 2
                case AtSemaphore => 1
                case Passed => 6
                case Busy(_) => 5
                case Signalling => 4
                case Stopped => 3
  }

  /** One step of a worker alone: the items it has started and those it still has stay the same, and it comes
      closer to its next wait. */
  lemma OwnStepAdvances(s: State, w: nat, sent: seq<Item>)
    requires w < s.cfg.n && WorkerOk(s.workers(w), sent, s.overflowed)
    requires s.workers(w).keepRunning && (s.workers(w).place.AtSemaphore? ==> s.workers(w).sem > 0)
    ensures var k, s' := s.workers(w), Step(s, OwnStep(s.workers(w).place, w));
            var k' := s'.workers(w);
            && WorkerOk(k', sent, s'.overflowed) && k'.keepRunning && Ahead(k') < Ahead(k) && s'.cfg == s.cfg
            && k'.started + k'.queue == k.started + k.queue
  {
    var k := s.workers(w);
    WorkerStep(s, OwnStep(k.place, w), sent, s.overflowed);
    if k.place.Passed? && k.queue != [] {
      assert k.started + [k.queue[0]] + k.queue[1..] == k.started + k.queue;
    }
  }

  ghost predicate Drained(s: State, w: nat, items: seq<Item>) {
    s.workers(w).finished == items && s.workers(w).queue == [] && s.workers(w).place.AtSemaphore?
  }

  lemma {:induction false} WorkerDrains(s: State, w: nat, sent: seq<Item>)
    requires w < s.cfg.n && WorkerOk(s.workers(w), sent, s.overflowed) && s.workers(w).keepRunning
    ensures exists m: nat :: Drained(Alone(s, w, m), w, s.workers(w).started + s.workers(w).queue)
    decreases Ahead(s.workers(w))
  {
    var k := s.workers(w);
    if k.place.AtSemaphore? && k.sem == 0 {
      assert k.started + k.queue == k.started;
      assert Drained(Alone(s, w, 0), w, k.started + k.queue);
    } else {
      var s' := Step(s, OwnStep(k.place, w));
      OwnStepAdvances(s, w, sent);
      WorkerDrains(s', w, sent);
      var m: nat :| Drained(Alone(s', w, m), w, k.started + k.queue);
      assert Alone(s, w, m + 1) == Alone(s', w, m);
    }
  }

  /** From every state of every run, a worker that has not been told to stop processes its whole queue in order
      by its own steps alone, and then waits. */
  lemma QueueIsDrained(cfg: Config, running: bool, actions: seq<Action>, w: nat)
    requires w < cfg.n && Run(Start(cfg, running), actions).workers(w).keepRunning
    ensures var s := Run(Start(cfg, running), actions);
            exists m: nat :: Drained(Alone(s, w, m), w, s.workers(w).started + s.workers(w).queue)
  {
    StartIsOk(cfg, running);
    RunKeeps(Start(cfg, running), actions);
    var s := Run(Start(cfg, running), actions);
    assert WorkerOk(s.workers(w), Routed(s.queued, cfg.n, w), s.overflowed);
    WorkerDrains(s, w, Routed(s.queued, cfg.n, w));
  }

  /** A worker that is told to stop while it waits has been signalled. */
  predicate CanLeave(k: Worker) {
    !k.keepRunning && k.place.AtSemaphore? ==> k.sem > 0
  }

  lemma {:induction false} RunKeepsLeaving(s: State, actions: seq<Action>, w: nat)
    requires w < s.cfg.n && CanLeave(s.workers(w))
    ensures CanLeave(Run(s, actions).workers(w)) && Run(s, actions).cfg == s.cfg
    decreases |actions|
  {
    if actions != [] {
      assert CanLeave(Step(s, actions[0]).workers(w));
      RunKeepsLeaving(Step(s, actions[0]), actions[1..], w);
    }
  }

  lemma {:induction false} WorkerStops(s: State, w: nat)
    requires w < s.cfg.n && CanLeave(s.workers(w)) && !s.workers(w).keepRunning
    ensures exists m: nat :: Alone(s, w, m).workers(w).place.Stopped?
    decreases Ahead(s.workers(w))
  {
    var place := s.workers(w).place;
    var s' := Step(s, OwnStep(place, w));
    if place.Stopped? {
      assert Alone(s, w, 0).workers(w).place.Stopped?;
    } else if place.Top? {
      assert Alone(s', w, 0).workers(w).place.Stopped?;
      assert Alone(s, w, 1).workers(w).place.Stopped?;
    } else {
      WorkerStops(s', w);
      var m: nat :| Alone(s', w, m).workers(w).place.Stopped?;
      assert Alone(s, w, m + 1) == Alone(s', w, m);
    }
  }

  /** From every state of every run, a worker that has been told to stop, or is told so now, gets there by its own
      steps alone. */
  lemma TerminatedStops(cfg: Config, running: bool, actions: seq<Action>, w: nat)
    requires w < cfg.n
    ensures var s := Run(Start(cfg, running), actions);
            && (!s.workers(w).keepRunning ==> exists m: nat :: Alone(s, w, m).workers(w).place.Stopped?)
            && exists m: nat :: Alone(Step(s, Terminate(w)), w, m).workers(w).place.Stopped?
  {
    RunKeepsLeaving(Start(cfg, running), actions, w);
    var s := Run(Start(cfg, running), actions);
    if !s.workers(w).keepRunning {
      WorkerStops(s, w);
    }
    WorkerStops(Step(s, Terminate(w)), w);
  }
}
