/** The filter object of lib/Filter_i.cc.  Its methods work step by step on the constraint lists and the
    two event-type tables; each is proved against the operations of FilterHistory, and the attached
    subscribers are proved, one by one, to follow the dominating table exactly when they are told exactly. */
module Filters {
  import opened Counting
  import opened EventTypes
  import opened FilterTables
  import opened FilterLaws
  import opened FilterChanges
  import opened FilterHistory
  import opened FilterMatching
  import opened Wrappers

  /** An internal subscriber; `mirror` is what it has filed for this filter in its type map. */
  datatype Callback = Callback(needSchange: bool, mirror: multiset<Pattern>)

  datatype Outcome = Done | ConstraintNotFound(id: nat) | InvalidConstraint(exp: ConstraintExp)

  ghost predicate SameMembers(s: seq<Pattern>, a: seq<Pattern>, b: set<Pattern>) {
    forall x :: x in s <==> x in a || x in b
  }

  /** `s` is `a` with `more` recorded, entry by entry. */
  ghost predicate Grown(s: seq<Pattern>, a: seq<Pattern>, more: multiset<Pattern>) {
    forall x {:trigger multiset(s)[x]} :: multiset(s)[x] == multiset(a)[x] + more[x]
  }

  ghost predicate Mirrors(mirror: multiset<Pattern>, dom: set<Pattern>) {
    forall x {:trigger mirror[x]} :: mirror[x] == One(x in dom)
  }

  /** A subscriber that wants to be told about type changes has exactly the table `dom` filed. */
  ghost predicate InStep(c: Callback, dom: set<Pattern>) {
    c.needSchange && Mirrors(c.mirror, dom)
  }

  /** The subscribers `now` are those `before`; each that was in step with `dom0` is in step with `dom1` if and
      only if what it was told is exact, and those that do not want to be told have not been. */
  ghost predicate Follow(before: map<nat, Callback>, now: map<nat, Callback>, dom0: set<Pattern>, dom1: set<Pattern>,
                         exact: bool) {
    && now.Keys == before.Keys
    && forall id | id in before ::
         && now[id].needSchange == before[id].needSchange
         && (!before[id].needSchange ==> now[id] == before[id])
         && (InStep(before[id], dom0) ==> (InStep(now[id], dom1) <==> exact))
  }

  /** The two lists collected over the changes `cs`. */
  ghost predicate Recorded(add: seq<Pattern>, rem: seq<Pattern>, t: Tables, cs: seq<Change>) {
    Grown(add, [], AddedAll(t, cs)) && SameMembers(rem, [], RemovedAll(t, cs))
  }

  lemma GrownTwice(a: seq<Pattern>, b: seq<Pattern>, c: seq<Pattern>, m: multiset<Pattern>, n: multiset<Pattern>)
    requires Grown(b, a, m) && Grown(c, b, n)
    ensures Grown(c, a, m + n)
  {
    forall x
      ensures multiset(c)[x] == multiset(a)[x] + (m + n)[x]
    {
      assert multiset(b)[x] == multiset(a)[x] + m[x];
    }
  }

  lemma RecordedLists(add: seq<Pattern>, rem: seq<Pattern>, t: Tables, cs: seq<Change>)
    requires Recorded(add, rem, t, cs)
    ensures multiset(add) == AddedAll(t, cs) && SetOf(rem) == RemovedAll(t, cs)
  {
    forall x
      ensures multiset(add)[x] == AddedAll(t, cs)[x]
    {
      assert multiset([])[x] == 0;
    }
  }

  /** A type map after a notification: one filed entry goes for each type listed as removed, then one
      comes for each listed as added. */
  function Refiled(filed: multiset<Pattern>, added: seq<Pattern>, removed: seq<Pattern>): multiset<Pattern> {
    filed - multiset(removed) + multiset(added)
  }

  lemma {:induction false} WithoutCounts(s: seq<Pattern>, t: seq<Pattern>, x: Pattern)
    ensures multiset(Without(s, t))[x] == if x in t then 0 else multiset(s)[x]
  {
    if s != [] {
      WithoutCounts(s[..|s| - 1], t, x);
      assert s == s[..|s| - 1] + [s[|s| - 1]];
    }
  }

  lemma RefiledIsTold(filed: multiset<Pattern>, add: seq<Pattern>, del: seq<Pattern>, x: Pattern)
    requires filed[x] <= 1
    ensures Refiled(filed, Without(add, del), Without(del, add))[x] == Told(filed[x], multiset(add)[x], x in SetOf(del))
  {
    WithoutCounts(add, del, x);
    WithoutCounts(del, add, x);
    assert x in add <==> x in multiset(add);
    assert x in del <==> x in multiset(del);
  }

  /** An index by type never loses a matching filter: an event that a filter with constraints accepts
      has its type under one of four keys in the dominating table. */
  lemma AcceptedEventsHitTheIndex(s: FilterState, event: Event, eval: Evaluator)
    requires WellFormed(s) && s.constraints != [] && Accepted(s.constraints, event, eval)
    ensures exists k | k in MatchKeys(Read(event.etype)) :: k in s.tables.dom
  {
    var e := Read(event.etype);
    var c :| c in s.constraints && Matches(c.types, c.expr, event, eval);
    var i :| 0 <= i < |s.constraints| && s.constraints[i] == c;
    var j :| 0 <= j < |s.constraints[i].types| && Covers(s.constraints[i].types[j], e);
    var p := s.constraints[i].types[j];
    StoredTypesAreInUse(s, i, j);
    assert Dominated(s.tables.dom, p);
    var d :| d in s.tables.dom && Covers(d, p);
    CoversByKeys(d, e);
  }

  lemma StoredTypesAreInUse(s: FilterState, i: nat, j: nat)
    requires WellFormed(s) && i < |s.constraints| && j < |s.constraints[i].types|
    ensures s.constraints[i].types[j] in s.tables.all
  {
    var es := s.constraints[i].types;
    RemovedTypesAreInUse(s, i, j);
    DropTypesShrinks(s.tables, es[..j]);
  }

  /** Looking up the four keys is the same as testing domination against the whole table, and the
      dominating table admits the same types as the table of all types. */
  lemma FourKeysDecideDomination(t: Tables, e: Pattern)
    requires Inv(t)
    ensures (exists k | k in MatchKeys(e) :: k in t.dom) <==> Dominated(t.dom, e)
    ensures Dominated(t.dom, e) <==> Dominated(t.all.Keys, e)
  {
    if Dominated(t.dom, e) {
      var d :| d in t.dom && Covers(d, e);
      CoversByKeys(d, e);
      assert d in MatchKeys(e);
    }
    if exists k | k in MatchKeys(e) :: k in t.dom {
      var k :| k in MatchKeys(e) && k in t.dom;
      CoversByKeys(k, e);
    }
    DominatedByAll(t, e);
  }

  function NotifiedOf(c: Callback, added: seq<Pattern>, removed: seq<Pattern>): Callback {
    if c.needSchange then Callback(true, Refiled(c.mirror, added, removed)) else c
  }

  /** A subscriber that was in step is in step afterwards exactly if the lists are exact. */
  lemma MirrorsExactly(filed: multiset<Pattern>, add: seq<Pattern>, del: seq<Pattern>, before: set<Pattern>,
                       after: set<Pattern>)
    requires Mirrors(filed, before)
    ensures Mirrors(Refiled(filed, Without(add, del), Without(del, add)), after)
            <==> Exact(before, after, multiset(add), SetOf(del))
  {
    var r := Refiled(filed, Without(add, del), Without(del, add));
    forall x
      ensures r[x] == Told(One(x in before), multiset(add)[x], x in SetOf(del))
    {
      assert filed[x] == One(x in before);
      RefiledIsTold(filed, add, del, x);
    }
  }

  /** The lock is released while subscribers are told, so two notifications, the first about the change from `t0`
      to `t1`, the second from there to `t2`, may reach a subscriber the other way round.  It ends in step all the
      same if and only if the second removes nothing that the first adds, and adds back only what the first
      removes just as often as it was filed. */
  lemma SwappedDelivery(filed: multiset<Pattern>, a: Notice, b: Notice, t0: set<Pattern>, t1: set<Pattern>,
                        t2: set<Pattern>)
    requires Cancels(a) && Cancels(b) && Mirrors(filed, t0)
    requires Mirrors(After(filed, a), t1) && Mirrors(After(After(filed, a), b), t2)
    ensures Mirrors(After(After(filed, b), a), t2) <==>
              forall x :: !(x in a.added && x in b.removed)
                          && (x in a.removed && x in b.added ==> multiset(a.removed)[x] == filed[x])
  {
    forall x
      ensures After(After(filed, b), a)[x] == One(x in t2)
              <==> !(x in a.added && x in b.removed)
                   && (x in a.removed && x in b.added ==> multiset(a.removed)[x] == filed[x])
    {
      SwappedFor(filed, a, b, t0, t1, t2, x);
    }
  }

  /** What a subscriber is sent: the two lists without common entries. */
  datatype Notice = Notice(added: seq<Pattern>, removed: seq<Pattern>)

  ghost predicate Cancels(n: Notice) {
    forall x | x in n.added :: x !in n.removed
  }

  function After(filed: multiset<Pattern>, n: Notice): multiset<Pattern> {
    Refiled(filed, n.added, n.removed)
  }

  lemma SwappedFor(filed: multiset<Pattern>, a: Notice, b: Notice, t0: set<Pattern>, t1: set<Pattern>, t2: set<Pattern>,
                   x: Pattern)
    requires Cancels(a) && Cancels(b) && Mirrors(filed, t0)
    requires Mirrors(After(filed, a), t1) && Mirrors(After(After(filed, a), b), t2)
    ensures After(After(filed, b), a)[x] == One(x in t2)
            <==> !(x in a.added && x in b.removed)
                 && (x in a.removed && x in b.added ==> multiset(a.removed)[x] == filed[x])
  {
    assert filed[x] == One(x in t0) && After(filed, a)[x] == One(x in t1);
    assert After(After(filed, a), b)[x] == One(x in t2);
    assert (x in a.added <==> multiset(a.added)[x] > 0) && (x in a.removed <==> multiset(a.removed)[x] > 0);
    assert (x in b.added <==> multiset(b.added)[x] > 0) && (x in b.removed <==> multiset(b.removed)[x] > 0);
  }

  /** One caller adds "D::T", another removes it at once: told the other way round, a subscriber keeps it. */
  lemma SwappedLeavesStale(c: Pattern)
    ensures var a, b := Notice([c], []), Notice([], [c]);
            && After(After(multiset{}, a), b) == multiset{}
            && After(After(multiset{}, b), a) == multiset{c}
  {
  }

  lemma PromotedGrows(all: map<Pattern, nat>, dom: set<Pattern>, lost: seq<Pattern>, n: nat)
    requires n < |lost|
    ensures var before := PromoteAll(all, dom, lost[..n]);
            && PromoteAll(all, dom, lost[..n + 1]) == before + Promoted(all, before, lost[n])
            && PromotedBy(all, dom, lost[..n + 1])
               == PromotedBy(all, dom, lost[..n]) + multiset(Promoted(all, before, lost[n]))
  {
    assert lost[..n + 1][..n] == lost[..n];
  }

  lemma NothingToTell(before: set<Pattern>, after: set<Pattern>)
    requires Exact(before, after, multiset([]), SetOf([]))
    ensures before == after
  {
    forall x
      ensures x in before <==> x in after
    {
      assert multiset([])[x] == 0;
    }
  }

  ghost predicate FirstMalformed(parses: Grammar, clist: seq<ConstraintExp>, i: int, outcome: Outcome) {
    && 0 <= i < |clist| && outcome == InvalidConstraint(clist[i]) && !WellWritten(parses, clist[i].expr)
    && forall j | 0 <= j < i :: WellWritten(parses, clist[j].expr)
  }

  ghost predicate Replaceable(parses: Grammar, cs: seq<Constraint>, m: ConstraintInfo) {
    HasId(cs, m.id) && WellWritten(parses, m.exp.expr)
  }

  /** The answer to a modification: it is done if every id is known and every expression well written; otherwise it
      names the first fault, in the deletions, or else in the replacements, where the id is looked at first. */
  ghost predicate Judged(parses: Grammar, cs: seq<Constraint>, dels: seq<nat>, mods: seq<ConstraintInfo>,
                         outcome: Outcome) {
    var known := forall i | 0 <= i < |dels| :: HasId(cs, dels[i]);
    if !known then
      exists i :: 0 <= i < |dels| && outcome == ConstraintNotFound(dels[i]) && !HasId(cs, dels[i])
                  && forall k | 0 <= k < i :: HasId(cs, dels[k])
    else if exists j :: 0 <= j < |mods| && !Replaceable(parses, cs, mods[j]) then
      exists j :: 0 <= j < |mods| && !Replaceable(parses, cs, mods[j])
                  && (forall k | 0 <= k < j :: Replaceable(parses, cs, mods[k]))
                  && outcome == if HasId(cs, mods[j].id) then InvalidConstraint(mods[j].exp)
                                else ConstraintNotFound(mods[j].id)
    else outcome.Done?
  }

  /** The filter, who is in step with it, the next free id, and who is attached. */
  datatype Subscribers = Subscribers(state: FilterState, inStep: set<nat>, serial: nat, ids: set<nat>)

  class Filter {
    const parses: Grammar
    const eval: Evaluator

    var constraints: seq<Constraint>
    var impls: seq<ConstraintImpl>
    var all: map<Pattern, nat>
    var dom: set<Pattern>
    var idCounter: nat
    var callbacks: map<nat, Callback>
    var callbackSerial: nat

    ghost function State(): FilterState
      reads this
    {
      FilterState(constraints, impls, Tables(all, dom), idCounter)
    }

    ghost predicate Valid()
      reads this
    {
      WellFormed(State()) && callbackSerial > 0 && forall id | id in callbacks :: 0 < id < callbackSerial
    }

    /** The subscribers that have exactly the dominating table filed. */
    ghost function IdsInStep(): set<nat>
      reads this
    {
      set id | id in callbacks && InStep(callbacks[id], dom)
    }

    ghost function Now(): Subscribers
      reads this
    {
      Subscribers(State(), IdsInStep(), callbackSerial, callbacks.Keys)
    }

    constructor (parses: Grammar, eval: Evaluator)
      ensures Valid() && State() == INITIAL && callbacks == map[] && callbackSerial == 1
      ensures this.parses == parses && this.eval == eval
    {
      this.parses, this.eval := parses, eval;
      constraints, impls, all, dom, idCounter := [], [], map[], {}, 0;
      callbacks, callbackSerial := map[], 1;
    }

    // -------------------------------------------------------------------------------------------
    // Adding
    // -------------------------------------------------------------------------------------------

    method EventIsDominated(e: Pattern) returns (r: bool)
      ensures r <==> Dominated(dom, e)
    {
      var todo := dom;
      while todo != {}
        invariant todo <= dom && forall d | d in dom && d !in todo :: !Covers(d, e)
        decreases todo
      {
        var d :| d in todo;
        todo := todo - {d};
        if Covers(d, e) {
          return true;
        }
      }
      return false;
    }

    /** Collects the dominating entries that the new type pushes out, one scan for each case. */
    method CollectDisplaced(e: Pattern, deltypes: seq<Pattern>) returns (r: seq<Pattern>)
      ensures SameMembers(r, deltypes, Displaced(dom, e))
    {
      r := deltypes;
      var todo := dom;
      if e.domain.Star? && e.name.Star? {
        while todo != {}
          invariant todo <= dom && SameMembers(r, deltypes, dom - todo)
          decreases todo
        {
          var d :| d in todo;
          todo := todo - {d};
          r := r + [d];
        }
        assert dom - todo == dom;
      } else if e.domain.Star? {
        while todo != {}
          invariant todo <= dom
          invariant SameMembers(r, deltypes, Displaced(dom - todo, e))
          decreases todo
        {
          var d :| d in todo;
          todo := todo - {d};
          if !d.domain.Star? && d.name == e.name {
            r := r + [d];
          }
        }
        assert dom - todo == dom;
      } else if e.name.Star? {
        while todo != {}
          invariant todo <= dom
          invariant SameMembers(r, deltypes, Displaced(dom - todo, e))
          decreases todo
        {
          var d :| d in todo;
          todo := todo - {d};
          if d.domain == e.domain && !d.name.Star? {
            r := r + [d];
          }
        }
        assert dom - todo == dom;
      }
    }

    /** Enters an undominated new type in the dominating table, removing everything in `deltypes`. */
    method EnterDominating(e: Pattern, deltypes: seq<Pattern>, rem: seq<Pattern>) returns (rem': seq<Pattern>)
      modifies `dom
      ensures forall x :: x in dom <==> (x in old(dom) && x !in deltypes) || x == e
      ensures forall x :: x in rem' <==> x in rem || x in deltypes
    {
      rem' := rem;
      for ix := 0 to |deltypes|
        invariant forall x :: x in dom <==> x in old(dom) && x !in deltypes[..ix]
        invariant forall x :: x in rem' <==> x in rem || x in deltypes[..ix]
      {
        dom := dom - {deltypes[ix]};
        rem' := rem' + [deltypes[ix]];
      }
      assert deltypes[..|deltypes|] == deltypes;
      dom := dom + {e};
    }

    method UpdateEvTables(types: seq<Pattern>, add: seq<Pattern>, rem: seq<Pattern>)
      returns (add': seq<Pattern>, rem': seq<Pattern>)
      requires Inv(Tables(all, dom))
      modifies `all, `dom
      ensures Tables(all, dom) == AddTypes(old(Tables(all, dom)), types)
      ensures Grown(add', add, AddedBy(old(Tables(all, dom)), types))
      ensures SameMembers(rem', rem, DisplacedBy(old(Tables(all, dom)), types))
    {
      ghost var t := Tables(all, dom);
      add', rem' := add, rem;
      var deltypes: seq<Pattern> := [];
      for ix := 0 to |types|
        invariant Tables(all, dom) == AddTypes(t, types[..ix]) && Inv(Tables(all, dom))
        invariant Grown(add', add, AddedBy(t, types[..ix]))
        invariant SameMembers(rem', rem, DisplacedBy(t, types[..ix]))
        invariant forall x | x in deltypes :: x in rem' && x in all && x !in dom
      {
        assert types[..ix + 1][..ix] == types[..ix];
        AddTypeKeepsInv(Tables(all, dom), types[ix]);
        deltypes, add', rem' := UpdateForType(types[ix], deltypes, add', rem');
      }
      assert types[..|types|] == types;
    }

    /** One more type of a constraint; `deltypes` still holds what earlier types of it have displaced. */
    method UpdateForType(e: Pattern, deltypes: seq<Pattern>, add: seq<Pattern>, rem: seq<Pattern>)
      returns (deltypes': seq<Pattern>, add': seq<Pattern>, rem': seq<Pattern>)
      requires Inv(Tables(all, dom))
      requires forall x | x in deltypes :: x in rem && x in all && x !in dom
      modifies `all, `dom
      ensures Tables(all, dom) == AddType(old(Tables(all, dom)), e)
      ensures add' == add + if Enters(old(Tables(all, dom)), e) then [e] else []
      ensures SameMembers(rem', rem, if Enters(old(Tables(all, dom)), e) then Displaced(old(dom), e) else {})
      ensures forall x | x in deltypes' :: x in rem' && x in all && x !in dom
    {
      deltypes', add', rem' := deltypes, add, rem;
      if e in all {
        all := all[e := all[e] + 1];
        return;
      }
      all := all[e := 1];
      var dominated := EventIsDominated(e);
      if dominated {
        return;
      }
      deltypes' := CollectDisplaced(e, deltypes);
      rem' := EnterDominating(e, deltypes', rem);
      add' := add + [e];
      assert dom == old(dom) - Displaced(old(dom), e) + {e};
    }

    /** Cancels the entries common to both lists and tells every subscriber the rest.  A subscriber that
        had the table `before` filed has the present one filed exactly if the lists are exact. */
    method NotifySubscribers(add: seq<Pattern>, del: seq<Pattern>, ghost before: set<Pattern>)
      modifies `callbacks
      ensures callbacks.Keys == old(callbacks).Keys
      ensures forall id | id in callbacks ::
                callbacks[id] == NotifiedOf(old(callbacks)[id], Without(add, del), Without(del, add))
      ensures Follow(old(callbacks), callbacks, before, dom, Exact(before, dom, multiset(add), SetOf(del)))
    {
      var newAdd := Cancelled(add, del);
      var newDel := Cancelled(del, add);
      if |newAdd| != 0 || |newDel| != 0 {
        TellSubscribers(newAdd, newDel);
      } else {
        assert forall m: multiset<Pattern> :: Refiled(m, [], []) == m;
      }
      forall id | id in callbacks && InStep(old(callbacks)[id], before)
        ensures InStep(callbacks[id], dom) <==> Exact(before, dom, multiset(add), SetOf(del))
      {
        MirrorsExactly(old(callbacks)[id].mirror, add, del, before, dom);
      }
    }

    method TellSubscribers(newAdd: seq<Pattern>, newDel: seq<Pattern>)
      modifies `callbacks
      ensures callbacks.Keys == old(callbacks).Keys
      ensures forall id | id in callbacks :: callbacks[id] == NotifiedOf(old(callbacks)[id], newAdd, newDel)
    {
      var todo := callbacks.Keys;
      while todo != {}
        invariant callbacks.Keys == old(callbacks).Keys && todo <= callbacks.Keys
        invariant forall id | id in todo :: callbacks[id] == old(callbacks)[id]
        invariant forall id | id in callbacks && id !in todo ::
                    callbacks[id] == NotifiedOf(old(callbacks)[id], newAdd, newDel)
        decreases todo
      {
        var id :| id in todo;
        todo := todo - {id};
        if callbacks[id].needSchange {
          var filed := Refile(callbacks[id].mirror, newAdd, newDel);
          callbacks := callbacks[id := Callback(true, filed)];
        }
      }
    }

    /** What the type map of a subscriber does: first the removals, then the additions. */
    method Refile(filed: multiset<Pattern>, added: seq<Pattern>, removed: seq<Pattern>) returns (r: multiset<Pattern>)
      ensures r == Refiled(filed, added, removed)
    {
      r := filed;
      for ix := 0 to |removed|
        invariant r == filed - multiset(removed[..ix])
      {
        assert removed[..ix + 1] == removed[..ix] + [removed[ix]];
        if removed[ix] in r {
          r := r - multiset{removed[ix]};
        }
      }
      assert removed[..|removed|] == removed;
      for ix := 0 to |added|
        invariant r == filed - multiset(removed) + multiset(added[..ix])
      {
        assert added[..ix + 1] == added[..ix] + [added[ix]];
        r := r + multiset{added[ix]};
      }
      assert added[..|added|] == added;
    }

    /** The entries of one list that do not occur in the other. */
    method Cancelled(s: seq<Pattern>, t: seq<Pattern>) returns (r: seq<Pattern>)
      ensures r == Without(s, t)
    {
      r := [];
      for ix := 0 to |s|
        invariant r == Without(s[..ix], t)
      {
        WithoutGrows(s, t, ix);
        var iz := 0;
        while iz < |t| && s[ix] != t[iz]
          invariant 0 <= iz <= |t| && s[ix] !in t[..iz]
        {
          iz := iz + 1;
        }
        assert s[ix] in t <==> iz < |t| by {
          assert t[..|t|] == t;
        }
        if iz == |t| {
          r := r + [s[ix]];
        }
      }
      assert s[..|s|] == s;
    }

    /** Adds all of the constraints, or none if one is malformed; then the filter accepts what it accepted, if it
        had constraints, and what the new ones match. */
    method AddConstraints(clist: seq<ConstraintExp>) returns (outcome: Outcome, infos: seq<ConstraintInfo>)
      requires Valid()
      modifies `constraints, `impls, `all, `dom, `idCounter, `callbacks
      ensures Valid() && State() == Step(parses, old(State()), Add(clist))
      ensures outcome.Done? <==> forall i | 0 <= i < |clist| :: WellWritten(parses, clist[i].expr)
      ensures !outcome.Done? ==> State() == old(State()) && exists i :: FirstMalformed(parses, clist, i, outcome)
      ensures outcome.Done? ==>
                infos == NumberedFrom(old(idCounter), clist) && StoredBehind(old(constraints), infos, constraints)
      ensures outcome.Done? ==> AcceptsAlso(old(constraints), clist, constraints, eval)
      ensures Follow(old(callbacks), callbacks, old(dom), dom, true)
    {
      var newImpls;
      outcome, newImpls := CompileAll(clist);
      infos := [];
      if outcome.Done? {
        infos := NumberedFrom(idCounter, clist);
        AdditionIsStored(State(), clist);
        AdditionAcceptsAll(State(), clist, eval);
        InstallAndTell(clist, newImpls);
      }
    }

    /** Nothing is installed before every expression has been found good. */
    method CompileAll(clist: seq<ConstraintExp>) returns (outcome: Outcome, newImpls: seq<ConstraintImpl>)
      ensures outcome.Done? <==> Accepts(parses, clist)
      ensures outcome.Done? <==> forall i | 0 <= i < |clist| :: WellWritten(parses, clist[i].expr)
      ensures outcome.Done? ==>
                |newImpls| == |clist| && forall i | 0 <= i < |clist| :: newImpls[i] == Compile(clist[i].expr)
      ensures !outcome.Done? ==> exists i :: FirstMalformed(parses, clist, i, outcome)
    {
      newImpls := [];
      for ix := 0 to |clist|
        invariant forall i | 0 <= i < ix :: Create(parses, clist[i]).Some? && WellWritten(parses, clist[i].expr)
        invariant |newImpls| == ix && forall i | 0 <= i < ix :: newImpls[i] == Compile(clist[i].expr)
      {
        CreatedExactly(parses, clist[ix]);
        var created := Create(parses, clist[ix]);
        if created.None? {
          outcome := InvalidConstraint(clist[ix]);
          assert FirstMalformed(parses, clist, ix, outcome);
          return;
        }
        newImpls := newImpls + [created.value];
      }
      return Done, newImpls;
    }

    method InstallAndTell(clist: seq<ConstraintExp>, newImpls: seq<ConstraintImpl>)
      requires WellFormed(State()) && Accepts(parses, clist)
      requires |newImpls| == |clist| && forall i | 0 <= i < |clist| :: newImpls[i] == Compile(clist[i].expr)
      modifies `constraints, `impls, `all, `dom, `idCounter, `callbacks
      ensures WellFormed(State()) && State() == AddAll(old(State()), clist)
      ensures Follow(old(callbacks), callbacks, old(dom), dom, true)
    {
      ghost var s := State();
      var add, del := Install(clist, newImpls);
      TellAdditions(s, clist, add, del);
    }

    method TellAdditions(ghost s: FilterState, clist: seq<ConstraintExp>, add: seq<Pattern>, del: seq<Pattern>)
      requires WellFormed(s) && State() == AddAll(s, clist) && Recorded(add, del, s.tables, EnterChanges(clist))
      requires Accepts(parses, clist)
      modifies `callbacks
      ensures Follow(old(callbacks), callbacks, s.tables.dom, dom, true)
    {
      RecordedLists(add, del, s.tables, EnterChanges(clist));
      AddTellsExactly(parses, s, clist);
      AddAllChanges(s, clist);
      if |add| != 0 || |del| != 0 {
        NotifySubscribers(add, del, s.tables.dom);
      } else {
        NothingToTell(s.tables.dom, dom);
      }
    }

    /** Installs validated constraints and collects the changes. */
    method Install(clist: seq<ConstraintExp>, newImpls: seq<ConstraintImpl>)
      returns (add: seq<Pattern>, del: seq<Pattern>)
      requires WellFormed(State())
      requires |newImpls| == |clist| && forall i | 0 <= i < |clist| :: newImpls[i] == Compile(clist[i].expr)
      modifies `constraints, `impls, `all, `dom, `idCounter
      ensures WellFormed(State()) && State() == AddAll(old(State()), clist) && idCounter == old(idCounter) + |clist|
      ensures Recorded(add, del, old(State()).tables, EnterChanges(clist))
    {
      ghost var s := State();
      add, del := [], [];
      for ix := 0 to |clist|
        invariant State() == AddAll(s, clist[..ix]) && WellFormed(State()) && idCounter == s.idCounter + ix
        invariant Recorded(add, del, s.tables, EnterChanges(clist[..ix]))
      {
        ghost var before, add0, types := State(), add, TypesOf(clist[ix]);
        assert clist[..ix + 1][..ix] == clist[..ix];
        AddOneKeepsWellFormed(before, clist[ix]);
        AddAllChanges(s, clist[..ix]);
        OneMoreChange(s.tables, EnterChanges(clist[..ix]), Enter(types));
        add, del := InstallOne(clist[ix], newImpls[ix], add, del);
        GrownTwice([], add0, add, AddedAll(s.tables, EnterChanges(clist[..ix])), AddedBy(before.tables, types));
      }
      assert clist[..|clist|] == clist;
    }

    method InstallOne(exp: ConstraintExp, newImpl: ConstraintImpl, add: seq<Pattern>, rem: seq<Pattern>)
      returns (add': seq<Pattern>, rem': seq<Pattern>)
      requires Inv(State().tables) && newImpl == Compile(exp.expr)
      modifies `constraints, `impls, `all, `dom, `idCounter
      ensures State() == AddOne(old(State()), exp)
      ensures Grown(add', add, AddedBy(old(State()).tables, TypesOf(exp)))
      ensures SameMembers(rem', rem, DisplacedBy(old(State()).tables, TypesOf(exp)))
    {
      var types := if |exp.types| != 0 then exp.types else [STAR_STAR];
      constraints := constraints + [Constraint(idCounter, types, exp.expr)];
      impls := impls + [newImpl];
      add', rem' := UpdateEvTables(types, add, rem);
      idCounter := idCounter + 1;
    }

    // -------------------------------------------------------------------------------------------
    // Removing
    // -------------------------------------------------------------------------------------------

    method ExistsConstraint(id: nat) returns (found: bool, position: nat)
      ensures found <==> Exists(constraints, id)
      ensures found ==> position == Position(constraints, id)
    {
      PositionIsFirst(constraints, id);
      position := 0;
      while position < |constraints|
        invariant position <= |constraints| && forall i | 0 <= i < position :: constraints[i].id != id
      {
        if constraints[position].id == id {
          return true, position;
        }
        position := position + 1;
      }
      return false, position;
    }

    /** Gives up one use of every listed type; returns the dominating types that have none left. */
    method DropUses(types: seq<Pattern>) returns (deltypes: seq<Pattern>)
      requires Inv(Tables(all, dom))
      requires forall i | 0 <= i < |types| :: types[i] in DropTypes(Tables(all, dom), types[..i]).all
      modifies `all, `dom
      ensures Tables(all, dom) == DropTypes(old(Tables(all, dom)), types)
      ensures deltypes == LostDominators(old(Tables(all, dom)), types)
    {
      ghost var t := Tables(all, dom);
      deltypes := [];
      for ix := 0 to |types|
        invariant Tables(all, dom) == DropTypes(t, types[..ix])
        invariant deltypes == LostDominators(t, types[..ix])
      {
        var e := types[ix];
        assert types[..ix + 1][..ix] == types[..ix];
        DropTypesShrinks(t, types[..ix]);
        if all[e] > 1 {
          all := all[e := all[e] - 1];
          continue;
        }
        all := all - {e};
        if e in dom {
          dom := dom - {e};
          deltypes := deltypes + [e];
        } else {
          assert dom - {e} == dom;
        }
      }
      assert types[..|types|] == types;
    }

    /** "*::*" is gone: first all wildcards enter, then the concrete types that none of them covers. */
    method PromoteAfterStarStar(add: seq<Pattern>) returns (add': seq<Pattern>)
      modifies `dom
      ensures dom == old(dom) + Promoted(all, old(dom), STAR_STAR)
      ensures Grown(add', add, multiset(Promoted(all, old(dom), STAR_STAR)))
    {
      add' := PromoteWildcards(add);
      ghost var add0 := add';
      add' := PromoteUncovered(add');
      ghost var wild, all' := Wildcards(all), Promoted(all, old(dom), STAR_STAR);
      GrownTwice(add, add0, add', multiset(wild), multiset(Uncovered(all, old(dom) + wild)));
      assert all' == wild + Uncovered(all, old(dom) + wild);
      assert multiset(all') == multiset(wild) + multiset(Uncovered(all, old(dom) + wild));
    }

    method PromoteWildcards(add: seq<Pattern>) returns (add': seq<Pattern>)
      modifies `dom
      ensures dom == old(dom) + Wildcards(all)
      ensures Grown(add', add, multiset(Wildcards(all)))
    {
      ghost var wild := Wildcards(all);
      add' := add;
      var todo := all.Keys;
      while todo != {}
        invariant todo <= all.Keys
        invariant forall x :: x in dom <==> x in old(dom) || (x in wild && x !in todo)
        invariant forall x :: multiset(add')[x] == multiset(add)[x] + One(x in wild && x !in todo)
        decreases todo
      {
        var k :| k in todo;
        todo := todo - {k};
        if k.name.Star? || k.domain.Star? {
          dom := dom + {k};
          add' := add' + [k];
        }
      }
    }

    method PromoteUncovered(add: seq<Pattern>) returns (add': seq<Pattern>)
      modifies `dom
      ensures dom == old(dom) + Uncovered(all, old(dom))
      ensures Grown(add', add, multiset(Uncovered(all, old(dom))))
    {
      ghost var uncovered := Uncovered(all, dom);
      add' := add;
      var todo := all.Keys;
      while todo != {}
        invariant todo <= all.Keys
        invariant forall x :: x in dom <==> x in old(dom) || (x in uncovered && x !in todo)
        invariant forall x :: multiset(add')[x] == multiset(add)[x] + One(x in uncovered && x !in todo)
        decreases todo
      {
        var k :| k in todo;
        todo := todo - {k};
        if !k.name.Star? && !k.domain.Star? {
          var dominated := EventIsDominated(k);
          assert dominated <==> Dominated(old(dom), k) by {
            assert forall d | d in dom && Covers(d, k) :: d in old(dom) || d == k;
          }
          if !dominated {
            dom := dom + {k};
            add' := add' + [k];
          }
        }
      }
    }

    /** One scan of all types for the types under the lost wildcard `e`. */
    method PromoteUnder(e: Pattern, add: seq<Pattern>) returns (add': seq<Pattern>)
      requires e != STAR_STAR
      modifies `dom
      ensures dom == old(dom) + Promoted(all, old(dom), e)
      ensures Grown(add', add, multiset(Promoted(all, old(dom), e)))
    {
      assert e == Pattern(e.domain, e.name);
      if e.domain.Star? {
        add' := PromoteNamed(e.name, add);
      } else if e.name.Star? {
        add' := PromoteInDomain(e.domain, add);
      } else {
        add' := add;
      }
    }

    method PromoteNamed(name: Part, add: seq<Pattern>) returns (add': seq<Pattern>)
      modifies `dom
      ensures dom == old(dom) + set k | k in all && k.name == name
      ensures Grown(add', add, multiset(set k | k in all && k.name == name))
    {
      ghost var wanted := set k | k in all && k.name == name;
      add' := add;
      var todo := all.Keys;
      while todo != {}
        invariant todo <= all.Keys
        invariant forall x :: x in dom <==> x in old(dom) || (x in wanted && x !in todo)
        invariant forall x :: multiset(add')[x] == multiset(add)[x] + One(x in wanted && x !in todo)
        decreases todo
      {
        var k :| k in todo;
        todo := todo - {k};
        if k.name == name {
          dom := dom + {k};
          add' := add' + [k];
        }
      }
    }

    method PromoteInDomain(domain: Part, add: seq<Pattern>) returns (add': seq<Pattern>)
      modifies `dom
      ensures dom == old(dom) + set k | k in all && k.domain == domain
      ensures Grown(add', add, multiset(set k | k in all && k.domain == domain))
    {
      ghost var wanted := set k | k in all && k.domain == domain;
      add' := add;
      var todo := all.Keys;
      while todo != {}
        invariant todo <= all.Keys
        invariant forall x :: x in dom <==> x in old(dom) || (x in wanted && x !in todo)
        invariant forall x :: multiset(add')[x] == multiset(add)[x] + One(x in wanted && x !in todo)
        decreases todo
      {
        var k :| k in todo;
        todo := todo - {k};
        if k.domain == domain {
          dom := dom + {k};
          add' := add' + [k];
        }
      }
    }

    method PromoteTypes(deltypes: seq<Pattern>, add: seq<Pattern>, rem: seq<Pattern>)
      returns (add': seq<Pattern>, rem': seq<Pattern>)
      modifies `dom
      ensures dom == PromoteAll(all, old(dom), deltypes)
      ensures Grown(add', add, PromotedBy(all, old(dom), deltypes))
      ensures SameMembers(rem', rem, SetOf(deltypes))
    {
      add', rem' := add, rem;
      for ix := 0 to |deltypes|
        invariant dom == PromoteAll(all, old(dom), deltypes[..ix])
        invariant Grown(add', add, PromotedBy(all, old(dom), deltypes[..ix]))
        invariant forall x :: x in rem' <==> x in rem || x in deltypes[..ix]
      {
        ghost var dom0, add0 := dom, add';
        PromotedGrows(all, old(dom), deltypes, ix);
        add' := PromoteFor(deltypes[ix], add');
        GrownTwice(add, add0, add', PromotedBy(all, old(dom), deltypes[..ix]),
                   multiset(Promoted(all, dom0, deltypes[ix])));
        rem' := rem' + [deltypes[ix]];
      }
      assert deltypes[..|deltypes|] == deltypes;
    }

    method PromoteFor(e: Pattern, add: seq<Pattern>) returns (add': seq<Pattern>)
      modifies `dom
      ensures dom == old(dom) + Promoted(all, old(dom), e)
      ensures Grown(add', add, multiset(Promoted(all, old(dom), e)))
    {
      if e.domain.Star? && e.name.Star? {
        add' := PromoteAfterStarStar(add);
      } else {
        add' := PromoteUnder(e, add);
      }
    }

    /** Takes the types of one constraint out of both tables. */
    method RetractTypes(types: seq<Pattern>, add: seq<Pattern>, rem: seq<Pattern>)
      returns (add': seq<Pattern>, rem': seq<Pattern>)
      requires Inv(Tables(all, dom))
      requires forall i | 0 <= i < |types| :: types[i] in DropTypes(Tables(all, dom), types[..i]).all
      modifies `all, `dom
      ensures Tables(all, dom) == RemoveTypes(old(Tables(all, dom)), types)
      ensures Grown(add', add, PromotedFor(old(Tables(all, dom)), types))
      ensures SameMembers(rem', rem, SetOf(LostDominators(old(Tables(all, dom)), types)))
    {
      var deltypes := DropUses(types);
      add', rem' := PromoteTypes(deltypes, add, rem);
    }

    /** The last entry of both lists takes the place of the removed one. */
    method DropEntry(cix: nat)
      requires cix < |constraints| == |impls|
      modifies `constraints, `impls
      ensures constraints == SwapOut(old(constraints), cix) && impls == SwapOut(old(impls), cix)
    {
      var last := |constraints| - 1;
      if cix != last {
        constraints, impls := constraints[cix := constraints[last]], impls[cix := impls[last]];
      }
      constraints, impls := constraints[..last], impls[..last];
    }

    method RemoveConstraint(id: nat, add: seq<Pattern>, rem: seq<Pattern>)
      returns (add': seq<Pattern>, rem': seq<Pattern>)
      requires WellFormed(State()) && Exists(constraints, id)
      modifies `constraints, `impls, `all, `dom
      ensures WellFormed(State()) && State() == RemoveId(old(State()), id) && |constraints| == |old(constraints)| - 1
      ensures forall k | 0 <= k < |constraints| ::
                var c := old(constraints)[k];
                constraints[k] == if c.id == id then old(constraints)[|constraints|] else c
      ensures Grown(add', add, PromotedFor(old(State()).tables, TypesAt(old(State()), id)))
      ensures SameMembers(rem', rem, SetOf(LostDominators(old(State()).tables, TypesAt(old(State()), id))))
    {
      ghost var s := State();
      var found, cix := ExistsConstraint(id);
      RemoveIdKeepsWellFormed(s, id);
      RemoveIdPlaces(s, id);
      var types := constraints[cix].types;
      assert types == TypesAt(s, id) && s.tables == Tables(all, dom);
      forall i | 0 <= i < |types|
        ensures types[i] in DropTypes(Tables(all, dom), types[..i]).all
      {
        RemovedTypesAreInUse(s, cix, i);
      }
      add', rem' := RetractTypes(types, add, rem);
      DropEntry(cix);
      assert State() == RemoveAt(s, cix) == RemoveId(s, id);
    }

    /** Removes the named constraints one after the other, collecting the changes. */
    method RemoveList(ids: seq<nat>) returns (add: seq<Pattern>, rem: seq<Pattern>)
      requires WellFormed(State())
      requires forall i | 0 <= i < |ids| :: Exists(constraints, ids[i])
      requires forall i, j | 0 <= i < j < |ids| :: ids[i] != ids[j]
      modifies `constraints, `impls, `all, `dom
      ensures WellFormed(State()) && State() == RemoveIds(old(State()), ids)
      ensures Recorded(add, rem, old(State()).tables, LeaveChanges(old(State()), ids))
    {
      ghost var s := State();
      add, rem := [], [];
      for ix := 0 to |ids|
        invariant WellFormed(State()) && State() == RemoveIds(s, ids[..ix])
        invariant Recorded(add, rem, s.tables, LeaveChanges(s, ids[..ix]))
      {
        ghost var before, cs, add0 := State(), LeaveChanges(s, ids[..ix]), add;
        assert ids[..ix + 1][..ix] == ids[..ix];
        RemoveIdsChanges(s, ids[..ix]);
        OneMoreChange(s.tables, cs, Leave(TypesAt(before, ids[ix])));
        RemoveIdsLeaves(s, ids[..ix], ids[ix]);
        add, rem := RemoveConstraint(ids[ix], add, rem);
        GrownTwice([], add0, add, AddedAll(s.tables, cs), PromotedFor(before.tables, TypesAt(before, ids[ix])));
      }
      assert ids[..|ids|] == ids;
    }

    /** Nothing is changed before every id and every expression has been found good. */
    method CheckModification(dels: seq<nat>, mods: seq<ConstraintInfo>) returns (outcome: Outcome)
      ensures outcome.Done? <==> AllExist(constraints, dels, mods) && AcceptsMods(parses, mods)
      ensures Judged(parses, constraints, dels, mods, outcome)
    {
      for ix := 0 to |dels|
        invariant forall i | 0 <= i < ix :: Exists(constraints, dels[i]) && HasId(constraints, dels[i])
      {
        var found, _ := ExistsConstraint(dels[ix]);
        PositionIsFirst(constraints, dels[ix]);
        if !found {
          return ConstraintNotFound(dels[ix]);
        }
      }
      for ix := 0 to |mods|
        invariant forall i | 0 <= i < ix :: Exists(constraints, mods[i].id) && Create(parses, mods[i].exp).Some?
                                            && Replaceable(parses, constraints, mods[i])
      {
        var found, _ := ExistsConstraint(mods[ix].id);
        PositionIsFirst(constraints, mods[ix].id);
        CreatedExactly(parses, mods[ix].exp);
        if !found {
          return ConstraintNotFound(mods[ix].id);
        }
        if Create(parses, mods[ix].exp).None? {
          return InvalidConstraint(mods[ix].exp);
        }
      }
      return Done;
    }

    /** All or nothing: afterwards the constraints that stay and the replacements decide what is accepted. */
    method ModifyConstraints(dels: seq<nat>, mods: seq<ConstraintInfo>) returns (outcome: Outcome)
      requires Valid() && Disjoint(dels, mods)
      modifies `constraints, `impls, `all, `dom, `callbacks
      ensures Valid() && State() == Step(parses, old(State()), Modify(dels, mods))
      ensures Judged(parses, old(constraints), dels, mods, outcome)
      ensures !outcome.Done? ==> State() == old(State()) && callbacks == old(callbacks)
      ensures outcome.Done? ==> AcceptsInstead(old(constraints), dels, mods, constraints, eval)
      ensures Follow(old(callbacks), callbacks, old(dom), dom, TellsExactly(parses, old(State()), Modify(dels, mods)))
    {
      outcome := CheckModification(dels, mods);
      if outcome.Done? {
        ModificationAcceptsAll(State(), dels, mods, eval);
        ApplyModification(dels, mods);
      }
    }

    method ApplyModification(dels: seq<nat>, mods: seq<ConstraintInfo>)
      requires WellFormed(State()) && Disjoint(dels, mods)
      requires AllExist(constraints, dels, mods) && AcceptsMods(parses, mods)
      modifies `constraints, `impls, `all, `dom, `callbacks
      ensures WellFormed(State()) && State() == ReplaceAll(RemoveIds(old(State()), dels), mods)
      ensures Follow(old(callbacks), callbacks, old(dom), dom, TellsExactly(parses, old(State()), Modify(dels, mods)))
    {
      ghost var s := State();
      var add, rem := RemoveList(dels);
      ghost var mid, add0 := State(), add;
      forall i | 0 <= i < |mods|
        ensures Exists(constraints, mods[i].id)
      {
        RemoveIdsLeaves(s, dels, mods[i].id);
      }
      add, rem := ReplaceList(mods, add, rem);
      ghost var cs, ds := LeaveChanges(s, dels), ReplaceChanges(mid, mods);
      RemoveIdsChanges(s, dels);
      MoreChanges(s.tables, cs, ds);
      GrownTwice([], add0, add, AddedAll(s.tables, cs), AddedAll(mid.tables, ds));
      RecordedLists(add, rem, s.tables, cs + ds);
      StepChanges(parses, s, Modify(dels, mods));
      NotifySubscribers(add, rem, s.tables.dom);
    }

    /** Every constraint in the list is removed and comes back, under its id, as the last one. */
    method ReplaceList(mods: seq<ConstraintInfo>, add: seq<Pattern>, rem: seq<Pattern>)
      returns (add': seq<Pattern>, rem': seq<Pattern>)
      requires WellFormed(State())
      requires forall i | 0 <= i < |mods| :: Exists(constraints, mods[i].id)
      modifies `constraints, `impls, `all, `dom
      ensures WellFormed(State()) && State() == ReplaceAll(old(State()), mods)
      ensures Grown(add', add, AddedAll(old(State()).tables, ReplaceChanges(old(State()), mods)))
      ensures SameMembers(rem', rem, RemovedAll(old(State()).tables, ReplaceChanges(old(State()), mods)))
    {
      ghost var s := State();
      add', rem' := add, rem;
      for ix := 0 to |mods|
        invariant WellFormed(State()) && State() == ReplaceAll(s, mods[..ix])
        invariant Grown(add', add, AddedAll(s.tables, ReplaceChanges(s, mods[..ix])))
        invariant SameMembers(rem', rem, RemovedAll(s.tables, ReplaceChanges(s, mods[..ix])))
      {
        ghost var before, cs, add0 := State(), ReplaceChanges(s, mods[..ix]), add';
        ghost var ds := [Leave(TypesAt(before, mods[ix].id)), Enter(TypesOf(mods[ix].exp))];
        assert mods[..ix + 1][..ix] == mods[..ix];
        ReplaceAllLeaves(s, mods[..ix], mods[ix].id);
        ReplaceAllKeepsWellFormed(s, mods[..ix + 1]);
        ReplaceAllChanges(s, mods[..ix]);
        MoreChanges(s.tables, cs, ds);
        add', rem' := ReplaceOne(mods[ix], add', rem');
        GrownTwice(add, add0, add', AddedAll(s.tables, cs), AddedAll(before.tables, ds));
      }
      assert mods[..|mods|] == mods;
    }

    method ReplaceOne(m: ConstraintInfo, add: seq<Pattern>, rem: seq<Pattern>)
      returns (add': seq<Pattern>, rem': seq<Pattern>)
      requires WellFormed(State()) && Exists(constraints, m.id)
      modifies `constraints, `impls, `all, `dom
      ensures State() == Append(RemoveId(old(State()), m.id), m.id, m.exp)
      ensures var ds := [Leave(TypesAt(old(State()), m.id)), Enter(TypesOf(m.exp))];
              && Grown(add', add, AddedAll(old(State()).tables, ds))
              && SameMembers(rem', rem, RemovedAll(old(State()).tables, ds))
    {
      ghost var s := State();
      ghost var es := TypesAt(s, m.id);
      add', rem' := RemoveConstraint(m.id, add, rem);
      ghost var mid, add0 := State(), add';
      add', rem' := AppendConstraint(m, add', rem');
      RemoveIdChanges(s, m.id);
      TwoChanges(s.tables, Leave(es), Enter(TypesOf(m.exp)));
      GrownTwice(add, add0, add', PromotedFor(s.tables, es), AddedBy(mid.tables, TypesOf(m.exp)));
    }

    method AppendConstraint(m: ConstraintInfo, add: seq<Pattern>, rem: seq<Pattern>)
      returns (add': seq<Pattern>, rem': seq<Pattern>)
      requires Inv(State().tables)
      modifies `constraints, `impls, `all, `dom
      ensures State() == Append(old(State()), m.id, m.exp)
      ensures Grown(add', add, AddedBy(old(State()).tables, TypesOf(m.exp)))
      ensures SameMembers(rem', rem, DisplacedBy(old(State()).tables, TypesOf(m.exp)))
    {
      var types := if |m.exp.types| != 0 then m.exp.types else [STAR_STAR];
      constraints := constraints + [Constraint(m.id, types, m.exp.expr)];
      add', rem' := UpdateEvTables(types, add, rem);
      impls := impls + [Compile(m.exp.expr)];
    }

    method CollectIds() returns (ids: seq<nat>)
      ensures ids == Ids(constraints)
      ensures forall i | 0 <= i < |ids| :: Exists(constraints, ids[i])
    {
      ids := [];
      for ix := 0 to |constraints|
        invariant ids == Ids(constraints)[..ix]
        invariant forall i | 0 <= i < ix :: Exists(constraints, ids[i])
      {
        ids := ids + [constraints[ix].id];
        PositionIsFirst(constraints, ids[ix]);
      }
    }

    /** Removes the named constraints and tells the subscribers once. */
    method RemoveAndTell(ids: seq<nat>)
      requires WellFormed(State())
      requires forall i | 0 <= i < |ids| :: Exists(constraints, ids[i])
      requires forall i, j | 0 <= i < j < |ids| :: ids[i] != ids[j]
      modifies `constraints, `impls, `all, `dom, `callbacks
      ensures WellFormed(State()) && State() == RemoveIds(old(State()), ids)
      ensures Follow(old(callbacks), callbacks, old(dom), dom,
                     ToldExactly(old(State()).tables, LeaveChanges(old(State()), ids)))
    {
      ghost var s := State();
      var add, rem := RemoveList(ids);
      RemoveIdsChanges(s, ids);
      RecordedLists(add, rem, s.tables, LeaveChanges(s, ids));
      NotifySubscribers(add, rem, s.tables.dom);
    }

    method RemoveAllConstraints()
      requires Valid()
      modifies `constraints, `impls, `all, `dom, `callbacks
      ensures Valid() && State() == Step(parses, old(State()), RemoveEverything)
      ensures constraints == [] && all == map[] && dom == {}
      ensures Follow(old(callbacks), callbacks, old(dom), dom, TellsExactly(parses, old(State()), RemoveEverything))
    {
      RemoveEverythingEmpties(parses, State());
      var ids := CollectIds();
      RemoveAndTell(ids);
    }

    // -------------------------------------------------------------------------------------------
    // Subscribers
    // -------------------------------------------------------------------------------------------

    /** A new subscriber starts from a snapshot of the dominating table; nothing else changes. */
    method AttachCallback(needSchange: bool) returns (id: nat)
      requires Valid()
      modifies `callbacks, `callbackSerial
      ensures Valid() && id == old(callbackSerial) && callbackSerial == id + 1 && id != 0 && id !in old(callbacks)
      ensures id in callbacks && callbacks == old(callbacks)[id := callbacks[id]]
      ensures callbacks[id].needSchange == needSchange
      ensures if needSchange then Mirrors(callbacks[id].mirror, dom) else callbacks[id].mirror == multiset{}
    {
      id := callbackSerial;
      callbackSerial := callbackSerial + 1;
      var filed := multiset{};
      if needSchange {
        var snapshot := Snapshot();
        filed := Refile(filed, snapshot, []);
      }
      callbacks := callbacks[id := Callback(needSchange, filed)];
    }

    method Snapshot() returns (types: seq<Pattern>)
      ensures Mirrors(multiset(types), dom)
    {
      types := [];
      var todo := dom;
      while todo != {}
        invariant todo <= dom && forall x :: multiset(types)[x] == One(x in dom && x !in todo)
        decreases todo
      {
        var d :| d in todo;
        todo := todo - {d};
        types := types + [d];
      }
    }

    /** The filter leaves its holder: a callback with an id other than zero is forgotten, and a holder
        that wants to know is told once more about every type it loses.  In step, it ends empty. */
    method FadminRemoval(id: nat, tells: bool) returns (last: seq<Pattern>)
      requires Valid()
      modifies `callbacks
      ensures Valid() && callbacks == old(callbacks) - {id}
      ensures !tells ==> last == []
      ensures tells ==> Mirrors(multiset(last), dom)
      ensures tells ==> forall filed | Mirrors(filed, dom) :: Refiled(filed, [], last) == multiset{}
    {
      if id != 0 && |callbacks| != 0 {
        callbacks := callbacks - {id};
      } else {
        assert callbacks - {id} == callbacks;
      }
      last := [];
      if tells {
        last := Snapshot();
      }
    }

    // -------------------------------------------------------------------------------------------
    // Matching
    // -------------------------------------------------------------------------------------------

    /** Whether the filter accepts an event, told by the texts of its constraints. */
    method RdiMatch(event: Event) returns (r: bool)
      requires Valid()
      ensures r <==> Accepted(constraints, event, eval)
    {
      if |impls| == 0 {
        return true;
      }
      for idx := 0 to |constraints|
        invariant forall i | 0 <= i < idx :: !Matches(constraints[i].types, constraints[i].expr, event, eval)
      {
        var isDominated := false;
        var types := constraints[idx].types;
        for i := 0 to |types|
          invariant !isDominated && forall j | 0 <= j < i :: !Covers(types[j], Read(event.etype))
        {
          if Covers(types[i], Read(event.etype)) {
            isDominated := true;
            break;
          }
        }
        if !isDominated {
          continue;
        }
        CompiledDecides(constraints[idx].expr, event, eval);
        assert constraints[idx] in constraints;
        if impls[idx].justTypes {
          return true;
        }
        if eval(impls[idx].code, event) {
          return true;
        }
      }
      return false;
    }
  }

  // ---------------------------------------------------------------------------------------------
  // Histories
  // ---------------------------------------------------------------------------------------------

  /** What callers do with a filter; the holder that departs may want to be told. */
  datatype Call = Operate(op: Op) | Attach(needSchange: bool) | Depart(id: nat, tells: bool)

  function RunCalls(parses: Grammar, s: FilterState, calls: seq<Call>): FilterState {
    if calls == [] then s
    else
      var before, call := RunCalls(parses, s, calls[..|calls| - 1]), calls[|calls| - 1];
      if call.Operate? then Step(parses, before, call.op) else before
  }

  /** The next free id, and the subscribers that are attached. */
  function Serial(serial: nat, calls: seq<Call>): nat {
    if calls == [] then serial
    else Serial(serial, calls[..|calls| - 1]) + if calls[|calls| - 1].Attach? then 1 else 0
  }

  function Attached(ids: set<nat>, serial: nat, calls: seq<Call>): set<nat> {
    if calls == [] then ids
    else
      var rest := calls[..|calls| - 1];
      var before := Attached(ids, serial, rest);
      match calls[|calls| - 1]
      case Operate(_) => before
      case Attach(_) => before + {Serial(serial, rest)}
      case Depart(id, _) => before - {id}
  }

  /** The subscribers that have been told everything exactly: those of `ids`, and those attached since, as long as
      every operation told its changes exactly. */
  ghost function Following(parses: Grammar, s: FilterState, ids: set<nat>, serial: nat, calls: seq<Call>): set<nat> {
    if calls == [] then ids
    else
      var rest := calls[..|calls| - 1];
      var before := Following(parses, s, ids, serial, rest);
      match calls[|calls| - 1]
      case Operate(op) => if TellsExactly(parses, RunCalls(parses, s, rest), op) then before else {}
      case Attach(needSchange) => if needSchange then before + {Serial(serial, rest)} else before
      case Depart(id, _) => before - {id}
  }

  ghost predicate Reached(parses: Grammar, start: Subscribers, calls: seq<Call>, now: Subscribers) {
    && now.state == RunCalls(parses, start.state, calls)
    && now.serial == Serial(start.serial, calls)
    && now.ids == Attached(start.ids, start.serial, calls)
    && Following(parses, start.state, start.inStep, start.serial, calls) <= now.inStep
  }

  /** A call after the history `before` does not put the subscriber out of step. */
  ghost predicate Spares(parses: Grammar, s: FilterState, before: seq<Call>, call: Call, id: nat) {
    match call
    case Operate(op) => TellsExactly(parses, RunCalls(parses, s, before), op)
    case Attach(_) => true
    case Depart(k, _) => k != id
  }

  lemma FollowsOneMore(parses: Grammar, start: Subscribers, rest: seq<Call>, call: Call, id: nat)
    requires id in Following(parses, start.state, start.inStep, start.serial, rest)
    requires Spares(parses, start.state, rest, call, id)
    ensures id in Following(parses, start.state, start.inStep, start.serial, rest + [call])
  {
    assert (rest + [call])[..|rest|] == rest;
  }

  /** In particular a subscriber attached after `before` follows the table to the end of any history `more`
      that spares it, whatever has happened to the others. */
  lemma {:induction false} AttachedFollows(parses: Grammar, start: Subscribers, before: seq<Call>, more: seq<Call>)
    requires forall i | 0 <= i < |more| ::
               Spares(parses, start.state, before + [Attach(true)] + more[..i], more[i], Serial(start.serial, before))
    ensures Serial(start.serial, before)
            in Following(parses, start.state, start.inStep, start.serial, before + [Attach(true)] + more)
  {
    var calls := before + [Attach(true)];
    if more == [] {
      assert calls[..|before|] == before && calls + more == calls;
    } else {
      var rest, last := more[..|more| - 1], more[|more| - 1];
      assert forall i | 0 <= i < |rest| :: rest[i] == more[i] && rest[..i] == more[..i];
      AttachedFollows(parses, start, before, rest);
      FollowsOneMore(parses, start, calls + rest, last, Serial(start.serial, before));
      assert calls + more == calls + rest + [last];
    }
  }

  /** What one call does. */
  ghost predicate Moved(parses: Grammar, before: Subscribers, now: Subscribers, call: Call) {
    match call
    case Operate(op) =>
      && now.state == Step(parses, before.state, op) && now.serial == before.serial && now.ids == before.ids
      && if TellsExactly(parses, before.state, op) then before.inStep <= now.inStep else before.inStep !! now.inStep
    case Attach(needSchange) =>
      && now.state == before.state && now.serial == before.serial + 1 && now.ids == before.ids + {before.serial}
      && now.inStep == before.inStep + if needSchange then {before.serial} else {}
    case Depart(id, _) =>
      && now.state == before.state && now.serial == before.serial
      && now.ids == before.ids - {id} && now.inStep == before.inStep - {id}
  }

  lemma ReachedOneMore(parses: Grammar, start: Subscribers, calls: seq<Call>, n: nat, before: Subscribers,
                       now: Subscribers)
    requires n < |calls| && Reached(parses, start, calls[..n], before) && Moved(parses, before, now, calls[n])
    ensures Reached(parses, start, calls[..n + 1], now)
  {
    assert calls[..n + 1][..n] == calls[..n];
  }

  /** Of the first `n` calls, every departure of a subscriber in step left it with nothing filed. */
  ghost predicate EndEmpty(parses: Grammar, start: Subscribers, calls: seq<Call>, n: nat,
                           left: map<nat, multiset<Pattern>>)
    requires n <= |calls|
  {
    forall i: nat | i < n && Departs(parses, start, calls, i) :: i in left && left[i] == multiset{}
  }

  ghost predicate Departs(parses: Grammar, start: Subscribers, calls: seq<Call>, i: nat)
    requires i < |calls|
  {
    && calls[i].Depart? && calls[i].tells
    && calls[i].id in Following(parses, start.state, start.inStep, start.serial, calls[..i])
  }

  lemma EndEmptyOneMore(parses: Grammar, start: Subscribers, calls: seq<Call>, n: nat, before: Subscribers,
                        so: map<nat, multiset<Pattern>>, left: map<nat, multiset<Pattern>>)
    requires n < |calls| && Reached(parses, start, calls[..n], before) && EndEmpty(parses, start, calls, n, so)
    requires forall i: nat | i < n && i in so :: i in left && left[i] == so[i]
    requires calls[n].Depart? && calls[n].tells && calls[n].id in before.inStep ==> n in left && left[n] == multiset{}
    ensures EndEmpty(parses, start, calls, n + 1, left)
  {
  }

  /** Plays any history of operations, attaching and departing subscribers.  Whoever was in step at the start or
      has been attached since is in step as long as every operation since tells its changes exactly; and a
      departing subscriber in step ends with nothing filed, as `left` records by the position of the call. */
  method PerformAll(f: Filter, calls: seq<Call>) returns (left: map<nat, multiset<Pattern>>)
    requires f.Valid() && forall i | 0 <= i < |calls| && calls[i].Operate? :: Legal(calls[i].op)
    modifies f
    ensures f.Valid() && Reached(f.parses, old(f.Now()), calls, f.Now())
    ensures EndEmpty(f.parses, old(f.Now()), calls, |calls|, left)
  {
    ghost var start := f.Now();
    left := map[];
    for ix := 0 to |calls|
      invariant f.Valid() && Reached(f.parses, start, calls[..ix], f.Now())
      invariant EndEmpty(f.parses, start, calls, ix, left)
    {
      ghost var before, so := f.Now(), left;
      var rest := Perform(f, calls[ix]);
      ReachedOneMore(f.parses, start, calls, ix, before, f.Now());
      if rest.Some? {
        left := left[ix := rest.value];
      }
      EndEmptyOneMore(f.parses, start, calls, ix, before, so, left);
    }
    assert calls[..|calls|] == calls;
  }

  /** One call of a history. */
  method Perform(f: Filter, call: Call) returns (left: Option<multiset<Pattern>>)
    requires f.Valid() && (call.Operate? ==> Legal(call.op))
    modifies f
    ensures f.Valid()
    ensures Moved(f.parses, old(f.Now()), f.Now(), call)
    ensures call.Depart? && call.tells && call.id in old(f.Now()).inStep ==> left == Some(multiset{})
  {
    left := None;
    match call {
      case Operate(Add(clist)) =>
        AddTellsExactly(f.parses, f.State(), clist);
        var _, _ := f.AddConstraints(clist);
      case Operate(Modify(dels, mods)) =>
        var _ := f.ModifyConstraints(dels, mods);
      case Operate(RemoveEverything) =>
        f.RemoveAllConstraints();
      case Attach(needSchange) =>
        var _ := f.AttachCallback(needSchange);
      case Depart(id, tells) =>
        var held := if id in f.callbacks then f.callbacks[id].mirror else multiset{};
        var last := f.FadminRemoval(id, tells);
        var rest := f.Refile(held, [], last);
        left := Some(rest);
    }
  }

  function OperationsOf(calls: seq<Call>): seq<Op> {
    if calls == [] then []
    else
      var last := calls[|calls| - 1];
      OperationsOf(calls[..|calls| - 1]) + if last.Operate? then [last.op] else []
  }

  /** Attaching and departing subscribers leave the constraints alone. */
  lemma {:induction false} CallsRunOperations(parses: Grammar, s: FilterState, calls: seq<Call>)
    requires forall i | 0 <= i < |calls| && calls[i].Operate? :: Legal(calls[i].op)
    ensures RunCalls(parses, s, calls) == FilterHistory.Run(parses, s, OperationsOf(calls))
    ensures forall i | 0 <= i < |OperationsOf(calls)| :: Legal(OperationsOf(calls)[i])
  {
    if calls != [] {
      var rest, last := calls[..|calls| - 1], calls[|calls| - 1];
      CallsRunOperations(parses, s, rest);
      if last.Operate? {
        assert OperationsOf(calls)[..|OperationsOf(calls)| - 1] == OperationsOf(rest);
      } else {
        assert OperationsOf(calls) == OperationsOf(rest);
      }
    }
  }

  /** A new filter, any history of calls, and then an event: it is accepted if and only if some constraint that is
      live by then matches it as its caller wrote it, or none is live. */
  method MatchAfter(parses: Grammar, eval: Evaluator, calls: seq<Call>, event: Event) returns (r: bool)
    requires forall i | 0 <= i < |calls| && calls[i].Operate? :: Legal(calls[i].op)
    ensures var live := KeptAll(parses, OperationsOf(calls)).live;
            r <==> live == map[] || exists id :: id in live && Matches(live[id].types, live[id].expr, event, eval)
  {
    var f := new Filter(parses, eval);
    var _ := PerformAll(f, calls);
    CallsRunOperations(parses, INITIAL, calls);
    HistoryDecides(parses, OperationsOf(calls), event, eval);
    r := f.RdiMatch(event);
  }
}
