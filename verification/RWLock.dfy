/** The read/write lock of include/omnithread_thread_wrappers.h, used by arbitrarily many threads. A step is one
    critical section of its inner mutex: a first try to lock, another try after a wake-up, an unlock, a weaken. */
module RWLock {
  import opened Counting

  type Tid = nat

  datatype Place = Out | Sleeping(toRead: bool) | Woken(toRead: bool) | Reading | Writing

  /** `wait`: a writer is active; `read`: the number of concurrent readers. */
  datatype State = State(tids: set<Tid>, threads: Tid -> Place, wait: bool, read: int)

  datatype Action =
    | Lock(tid: Tid, toRead: bool)
    | Retry(tid: Tid)
    | Unlock(tid: Tid, sleeper: Tid)    // `sleeper` is whom the signal wakes
    | Weaken(tid: Tid, sleeper: Tid)
    | Spurious(tid: Tid)

  function Start(tids: set<Tid>): State {
    State(tids, (t: Tid) => Out, false, 0)
  }

  function Set(threads: Tid -> Place, t: Tid, p: Place): Tid -> Place {
    (u: Tid) => if u == t then p else threads(u)
  }

  function Signal(threads: Tid -> Place, w: Tid): Tid -> Place {
    if threads(w).Sleeping? then Set(threads, w, Woken(threads(w).toRead)) else threads
  }

  /** The loop of `lock`, entered or woken: sleep again, or get in. */
  function Try(s: State, t: Tid, toRead: bool): State {
    if s.wait || (!toRead && s.read != 0) then s.(threads := Set(s.threads, t, Sleeping(toRead)))
    else if toRead then s.(threads := Set(s.threads, t, Reading), read := s.read + 1)
    else s.(threads := Set(s.threads, t, Writing), wait := true)
  }

  function UnlockStep(s: State, t: Tid, w: Tid): State {
    var r := if s.wait then s.(wait := false) else s.(read := s.read - 1);
    var threads := Set(s.threads, t, Out);
    r.(threads := if r.read == 0 then Signal(threads, w) else threads)
  }

  function WeakenStep(s: State, t: Tid, w: Tid): State {
    if s.wait then s.(wait := false, read := s.read + 1, threads := Signal(Set(s.threads, t, Reading), w)) else s
  }

  ghost predicate WakesSomeone(s: State, w: Tid) {
    SomebodySleeps(s) ==> w in s.tids && s.threads(w).Sleeping?
  }

  predicate Holds(p: Place) {
    p.Reading? || p.Writing?
  }

  /** Only a holder unlocks or weakens. */
  ghost predicate Enabled(s: State, a: Action) {
    && a.tid in s.tids
    && match a
       case Lock(t, _) => s.threads(t).Out?
       case Retry(t) => s.threads(t).Woken?
       case Unlock(t, w) => Holds(s.threads(t)) && WakesSomeone(s, w)
       case Weaken(t, w) => Holds(s.threads(t)) && WakesSomeone(s, w)
       case Spurious(t) => s.threads(t).Sleeping?
  }

  ghost function Step(s: State, a: Action): State {
    if !Enabled(s, a) then s else
    match a
    case Lock(t, toRead) => Try(s, t, toRead)
    case Retry(t) => Try(s, t, s.threads(t).toRead)
    case Unlock(t, w) => UnlockStep(s, t, w)
    case Weaken(t, w) => WeakenStep(s, t, w)
    case Spurious(t) => s.(threads := Signal(s.threads, t))
  }

  ghost function Run(s: State, actions: seq<Action>): State
    decreases |actions|
  {
    if actions == [] then s else Run(Step(s, actions[0]), actions[1..])
  }

  // ---------------------------------------------------------------------------------------------
  // The invariant
  // ---------------------------------------------------------------------------------------------

  ghost function Readers(s: State): set<Tid> {
    set t | t in s.tids && s.threads(t).Reading?
  }

  ghost predicate CountersOk(s: State) {
    && s.read == |Readers(s)|
    && (forall t {:trigger s.threads(t)} | t in s.tids && s.threads(t).Writing? :: s.wait)
    && (s.wait ==> exists t :: t in s.tids && s.threads(t).Writing?)
  }

  ghost predicate Exclusive(s: State) {
    forall t, u {:trigger s.threads(t), s.threads(u)} | t in s.tids && u in s.tids && u != t
      && s.threads(t).Writing? :: !Holds(s.threads(u))
  }

  ghost predicate NobodyHolds(s: State) {
    forall t | t in s.tids :: !Holds(s.threads(t))
  }

  ghost predicate SomebodySleeps(s: State) {
    exists t :: t in s.tids && s.threads(t).Sleeping?
  }

  /** If nobody holds the lock and some thread sleeps, another has been woken and will look again. */
  ghost predicate NoLostWakeUp(s: State) {
    NobodyHolds(s) && SomebodySleeps(s) ==> exists t :: t in s.tids && s.threads(t).Woken?
  }

  ghost predicate Inv(s: State) {
    CountersOk(s) && Exclusive(s) && NoLostWakeUp(s)
  }

  lemma ReadersChange(s: State, s': State, t: Tid)
    requires s'.tids == s.tids && t in s.tids
    requires forall u {:trigger s'.threads(u)} | u != t :: s'.threads(u).Reading? <==> s.threads(u).Reading?
    ensures |Readers(s')| == |Readers(s)| - One(s.threads(t).Reading?) + One(s'.threads(t).Reading?)
  {
    SizeChange(Readers(s), Readers(s'), t);
  }

  lemma NoReaders(s: State)
    ensures |Readers(s)| == 0 <==> forall t | t in s.tids :: !s.threads(t).Reading?
  {
    if t :| t in s.tids && s.threads(t).Reading? {
      assert t in Readers(s);
    } else {
      assert Readers(s) == {};
    }
  }

  lemma TryKeeps(s: State, t: Tid, toRead: bool)
    requires Inv(s) && t in s.tids && (s.threads(t).Out? || s.threads(t).Woken?)
    ensures Inv(Try(s, t, toRead))
  {
    var s' := Try(s, t, toRead);
    ReadersChange(s, s', t);
    NoReaders(s);
    if s.wait {
      var w :| w in s.tids && s.threads(w).Writing?;
      assert s'.threads(w).Writing?;
    } else if !toRead && s.read != 0 {
      var r :| r in s.tids && s.threads(r).Reading?;
      assert s'.threads(r).Reading?;
    } else {
      assert Holds(s'.threads(t));
    }
  }

  lemma UnlockKeeps(s: State, t: Tid, w: Tid)
    requires Inv(s) && t in s.tids && Holds(s.threads(t)) && WakesSomeone(s, w)
    ensures Inv(UnlockStep(s, t, w))
  {
    var s' := UnlockStep(s, t, w);
    ReadersChange(s, s', t);
    NoReaders(s);
    NoReaders(s');
    if v :| v in s.tids && s'.threads(v).Sleeping? && NobodyHolds(s') {
      assert s.threads(v).Sleeping?;
      assert s'.threads(w).Woken?;
    }
  }

  lemma WeakenKeeps(s: State, t: Tid, w: Tid)
    requires Inv(s) && t in s.tids && Holds(s.threads(t)) && WakesSomeone(s, w)
    ensures Inv(WeakenStep(s, t, w))
  {
    var s' := WeakenStep(s, t, w);
    ReadersChange(s, s', t);
    assert Holds(s'.threads(t));
  }

  lemma SpuriousKeeps(s: State, t: Tid)
    requires Inv(s) && t in s.tids && s.threads(t).Sleeping?
    ensures Inv(s.(threads := Signal(s.threads, t)))
  {
    var s' := s.(threads := Signal(s.threads, t));
    ReadersChange(s, s', t);
    assert s'.threads(t).Woken?;
    if s.wait {
      var w :| w in s.tids && s.threads(w).Writing?;
      assert s'.threads(w).Writing?;
    }
  }

  lemma StepKeeps(s: State, a: Action)
    requires Inv(s)
    ensures Inv(Step(s, a)) && Step(s, a).tids == s.tids
  {
    if Enabled(s, a) {
      match a
      case Lock(t, toRead) => TryKeeps(s, t, toRead);
      case Retry(t) => TryKeeps(s, t, s.threads(t).toRead);
      case Unlock(t, w) => UnlockKeeps(s, t, w);
      case Weaken(t, w) => WeakenKeeps(s, t, w);
      case Spurious(t) => SpuriousKeeps(s, t);
    }
  }

  lemma {:induction false} RunKeeps(s: State, actions: seq<Action>)
    requires Inv(s)
    ensures Inv(Run(s, actions)) && Run(s, actions).tids == s.tids
    decreases |actions|
  {
    if actions != [] {
      StepKeeps(s, actions[0]);
      RunKeeps(Step(s, actions[0]), actions[1..]);
    }
  }

  /** In every run a writer is alone, the counters are the actual holders, and no wake-up is lost. */
  lemma LockIsSafe(tids: set<Tid>, actions: seq<Action>)
    ensures var s := Run(Start(tids), actions);
            && (forall t, u | t in tids && u in tids && u != t && s.threads(t).Writing? :: !Holds(s.threads(u)))
            && s.read == |set t | t in tids && s.threads(t).Reading?|
            && (s.wait <==> exists t :: t in tids && s.threads(t).Writing?)
            && (NobodyHolds(s) && SomebodySleeps(s) ==> exists t :: t in tids && s.threads(t).Woken?)
  {
    NoReaders(Start(tids));
    RunKeeps(Start(tids), actions);
    var s := Run(Start(tids), actions);
    assert Readers(s) == set t | t in tids && s.threads(t).Reading?;
  }

  /** A woken thread gets in whenever nobody holds the lock, so a free lock with sleepers is taken by someone who
      will signal again. */
  lemma FreeLockIsTaken(tids: set<Tid>, actions: seq<Action>, t: Tid)
    requires t in tids && Run(Start(tids), actions).threads(t).Woken?
    requires NobodyHolds(Run(Start(tids), actions))
    ensures Holds(Step(Run(Start(tids), actions), Retry(t)).threads(t))
  {
    NoReaders(Start(tids));
    RunKeeps(Start(tids), actions);
    NoReaders(Run(Start(tids), actions));
  }

  /** Weakening turns the writer into the only reader without letting another writer in, and wakes a thread if any
      sleeps. */
  lemma WeakenShares(s: State, t: Tid, w: Tid)
    requires Inv(s) && t in s.tids && s.threads(t).Writing? && WakesSomeone(s, w)
    ensures var s' := WeakenStep(s, t, w);
            && s'.threads(t).Reading? && s'.read == 1 && !s'.wait
            && (SomebodySleeps(s) ==> exists u :: u in s.tids && s'.threads(u).Woken?)
  {
  }

  // ---------------------------------------------------------------------------------------------
  // What every step does, told by the places alone
  // ---------------------------------------------------------------------------------------------

  ghost predicate NobodyWrites(s: State) {
    forall t | t in s.tids :: !s.threads(t).Writing?
  }

  ghost predicate HoldsAlone(s: State, t: Tid) {
    Holds(s.threads(t)) && forall u | u in s.tids && u != t :: !Holds(s.threads(u))
  }

  /** Thread `t` goes to `p`; if `signalled`, the sleeper `w` is woken and looks again for what it asked for. */
  ghost predicate Goes(s: State, s': State, t: Tid, p: Place, w: Tid, signalled: bool) {
    forall u {:trigger s'.threads(u)} | u in s.tids ::
      s'.threads(u) == if u == t then p
                       else if signalled && u == w && s.threads(u).Sleeping? then Woken(s.threads(u).toRead)
                       else s.threads(u)
  }

  /** A thread gets the kind of hold it asks for, or sleeps asking for it: a reader gets in exactly when nobody
      writes, a writer exactly when nobody holds. */
  ghost predicate GetsIn(s: State, s': State, t: Tid, toRead: bool) {
    var free := if toRead then NobodyWrites(s) else NobodyHolds(s);
    Goes(s, s', t, if !free then Sleeping(toRead) else if toRead then Reading else Writing, t, false)
  }

  lemma TryPlaces(s: State, t: Tid, toRead: bool)
    requires Inv(s) && t in s.tids && (s.threads(t).Out? || s.threads(t).Woken?)
    ensures GetsIn(s, Try(s, t, toRead), t, toRead)
  {
    NoReaders(s);
    if NobodyWrites(s) && s.read == 0 {
      assert NobodyHolds(s);
    }
  }

  lemma ReaderIsAloneAtOne(s: State, t: Tid)
    requires Inv(s) && t in s.tids && s.threads(t).Reading?
    ensures s.read == 1 <==> HoldsAlone(s, t)
  {
    if HoldsAlone(s, t) {
      assert Readers(s) == {t};
    } else {
      var u :| u in s.tids && u != t && Holds(s.threads(u));
      assert s.threads(u).Reading?;
      SubsetSize({t, u}, Readers(s));
    }
  }

  lemma UnlockPlaces(s: State, t: Tid, w: Tid)
    requires Inv(s) && t in s.tids && Holds(s.threads(t))
    ensures Goes(s, UnlockStep(s, t, w), t, Out, w, HoldsAlone(s, t))
  {
    NoReaders(s);
    if s.threads(t).Reading? {
      ReaderIsAloneAtOne(s, t);
    }
  }

  /** A signal reaches some sleeper, if there is one. */
  ghost predicate Reaches(s: State, w: Tid) {
    (w in s.tids && s.threads(w).Sleeping?) || forall t | t in s.tids :: !s.threads(t).Sleeping?
  }

  /** Every step of a thread that is where the step begins; `w` is whom a signal reaches. */
  lemma StepPlaces(s: State, a: Action)
    requires Inv(s) && a.tid in s.tids
    ensures var s' := Step(s, a);
            match a
            case Lock(t, toRead) => s.threads(t).Out? ==> GetsIn(s, s', t, toRead)
            case Retry(t) => s.threads(t).Woken? ==> GetsIn(s, s', t, s.threads(t).toRead)
            case Unlock(t, w) =>
              Holds(s.threads(t)) && Reaches(s, w) ==> Goes(s, s', t, Out, w, HoldsAlone(s, t))
            case Weaken(t, w) =>
              Holds(s.threads(t)) && Reaches(s, w) ==> Goes(s, s', t, Reading, w, s.threads(t).Writing?)
            case Spurious(t) => s.threads(t).Sleeping? ==> Goes(s, s', t, Woken(s.threads(t).toRead), t, false)
  {
    if Enabled(s, a) {
      match a
      case Lock(t, toRead) => TryPlaces(s, t, toRead);
      case Retry(t) => TryPlaces(s, t, s.threads(t).toRead);
      case Unlock(t, w) => UnlockPlaces(s, t, w);
      case Weaken(t, w) =>
      case Spurious(t) =>
    }
  }

  /** The kind of hold that thread `t` wants: what it asked for when it last called `lock`, or to read since it
      weakened its hold. */
  ghost function Wanted(s: State, actions: seq<Action>, t: Tid, toRead: bool): bool
    decreases |actions|
  {
    if actions == [] then toRead else
    var a := actions[0];
    var wants := if !Enabled(s, a) || a.tid != t then toRead
                 else if a.Lock? then a.toRead
                 else toRead || a.Weaken?;
    Wanted(Step(s, a), actions[1..], t, wants)
  }

  predicate Fits(p: Place, toRead: bool) {
    match p
    case Out => true
    case Sleeping(r) => r == toRead
    case Woken(r) => r == toRead
    case Reading => toRead
    case Writing => !toRead
  }

  lemma {:induction false} PlacesFit(s: State, actions: seq<Action>, t: Tid, toRead: bool)
    requires Inv(s) && t in s.tids && Fits(s.threads(t), toRead)
    ensures Fits(Run(s, actions).threads(t), Wanted(s, actions, t, toRead))
    decreases |actions|
  {
    if actions != [] {
      var a := actions[0];
      StepKeeps(s, a);
      if Enabled(s, a) {
        StepPlaces(s, a);
      }
      var wants := if !Enabled(s, a) || a.tid != t then toRead
                   else if a.Lock? then a.toRead
                   else toRead || a.Weaken?;
      PlacesFit(Step(s, a), actions[1..], t, wants);
    }
  }

  /** In every run a thread holds, waits for and is woken for the kind of hold it wants, and two threads that
      hold the lock both want to read. */
  lemma HoldsWhatItWants(tids: set<Tid>, actions: seq<Action>, t: Tid, u: Tid, first: bool)
    requires t in tids && u in tids
    ensures var s := Run(Start(tids), actions);
            var wants := Wanted(Start(tids), actions, t, first);
            && Fits(s.threads(t), wants)
            && (t != u && Holds(s.threads(t)) && Holds(s.threads(u)) ==>
                  wants && Wanted(Start(tids), actions, u, first))
  {
    NoReaders(Start(tids));
    PlacesFit(Start(tids), actions, t, first);
    PlacesFit(Start(tids), actions, u, first);
    RunKeeps(Start(tids), actions);
  }
}
