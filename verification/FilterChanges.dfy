/** Batches of changes to the event-type tables of a filter and the one notification sent about each:
    when a subscriber that knew the dominating table before knows it afterwards (lib/Filter_i.cc). */
module FilterChanges {
  import opened Counting
  import opened EventTypes
  import opened FilterTables
  import opened FilterLaws

  /** The types of one constraint enter or leave the tables. */
  datatype Change = Enter(types: seq<Pattern>) | Leave(types: seq<Pattern>)

  function Apply(t: Tables, c: Change): Tables {
    match c
    case Enter(es) => AddTypes(t, es)
    case Leave(es) => RemoveTypes(t, es)
  }

  function ApplyAll(t: Tables, cs: seq<Change>): Tables {
    if cs == [] then t else Apply(ApplyAll(t, cs[..|cs| - 1]), cs[|cs| - 1])
  }

  /** What one change records as added, entry by entry, and as removed. */
  function Added(t: Tables, c: Change): multiset<Pattern> {
    match c
    case Enter(es) => AddedBy(t, es)
    case Leave(es) => PromotedFor(t, es)
  }

  function Removed(t: Tables, c: Change): set<Pattern> {
    match c
    case Enter(es) => DisplacedBy(t, es)
    case Leave(es) => SetOf(LostDominators(t, es))
  }

  function AddedAll(t: Tables, cs: seq<Change>): multiset<Pattern> {
    if cs == [] then multiset{}
    else AddedAll(t, cs[..|cs| - 1]) + Added(ApplyAll(t, cs[..|cs| - 1]), cs[|cs| - 1])
  }

  function RemovedAll(t: Tables, cs: seq<Change>): set<Pattern> {
    if cs == [] then {}
    else RemovedAll(t, cs[..|cs| - 1]) + Removed(ApplyAll(t, cs[..|cs| - 1]), cs[|cs| - 1])
  }

  lemma OneMoreChange(t: Tables, cs: seq<Change>, c: Change)
    ensures ApplyAll(t, cs + [c]) == Apply(ApplyAll(t, cs), c)
    ensures AddedAll(t, cs + [c]) == AddedAll(t, cs) + Added(ApplyAll(t, cs), c)
    ensures RemovedAll(t, cs + [c]) == RemovedAll(t, cs) + Removed(ApplyAll(t, cs), c)
  {
    assert (cs + [c])[..|cs|] == cs;
  }

  lemma SplitLast(cs: seq<Change>, ds: seq<Change>)
    requires ds != []
    ensures cs + ds == (cs + ds[..|ds| - 1]) + [ds[|ds| - 1]]
  {
  }

  lemma Regroup(a: multiset<Pattern>, b: multiset<Pattern>, c: multiset<Pattern>,
                d: set<Pattern>, e: set<Pattern>, f: set<Pattern>)
    ensures (a + b) + c == a + (b + c) && (d + e) + f == d + (e + f)
  {
  }

  lemma {:induction false} MoreChanges(t: Tables, cs: seq<Change>, ds: seq<Change>)
    ensures ApplyAll(t, cs + ds) == ApplyAll(ApplyAll(t, cs), ds)
    ensures AddedAll(t, cs + ds) == AddedAll(t, cs) + AddedAll(ApplyAll(t, cs), ds)
    ensures RemovedAll(t, cs + ds) == RemovedAll(t, cs) + RemovedAll(ApplyAll(t, cs), ds)
  {
    if ds == [] {
      assert cs + ds == cs;
    } else {
      var rest, d := ds[..|ds| - 1], ds[|ds| - 1];
      var mid := ApplyAll(t, cs);
      MoreChanges(t, cs, rest);
      SplitLast(cs, ds);
      OneMoreChange(t, cs + rest, d);
      Regroup(AddedAll(t, cs), AddedAll(mid, rest), Added(ApplyAll(mid, rest), d),
              RemovedAll(t, cs), RemovedAll(mid, rest), Removed(ApplyAll(mid, rest), d));
    }
  }

  lemma ApplyKeepsInv(t: Tables, c: Change)
    requires Inv(t)
    ensures Inv(Apply(t, c))
  {
    if c.Enter? {
      AddTypesKeepsInv(t, c.types);
    } else {
      RemoveTypesKeepsInv(t, c.types);
    }
  }

  lemma {:induction false} ApplyAllKeepsInv(t: Tables, cs: seq<Change>)
    requires Inv(t)
    ensures Inv(ApplyAll(t, cs))
  {
    if cs != [] {
      ApplyAllKeepsInv(t, cs[..|cs| - 1]);
      ApplyKeepsInv(ApplyAll(t, cs[..|cs| - 1]), cs[|cs| - 1]);
    }
  }

  // ---------------------------------------------------------------------------------------------
  // Notifications
  // ---------------------------------------------------------------------------------------------

  /** How often a subscriber has a type filed that it had filed `n` times, after a notification whose
      lists named it `added` times as added and, perhaps, as removed: entries in both lists cancel. */
  function Told(n: int, added: nat, removed: bool): int {
    if removed then if added > 0 then n else 0 else n + added
  }

  /** The notification is exact: who had every type of `before` filed once, and no other, has every type
      of `after` filed once, and no other. */
  ghost predicate Exact(before: set<Pattern>, after: set<Pattern>, added: multiset<Pattern>, removed: set<Pattern>) {
    forall x {:trigger added[x]} :: One(x in after) == Told(One(x in before), added[x], x in removed)
  }

  /** The types of `after` are told, whatever their multiplicity. */
  ghost predicate Reaches(before: set<Pattern>, after: set<Pattern>, added: multiset<Pattern>, removed: set<Pattern>) {
    forall x {:trigger added[x]} :: x in after <==> Told(One(x in before), added[x], x in removed) > 0
  }

  /** How often a subscriber who knew the table `t` has `x` filed after the notification about `cs`. */
  function Knows(t: Tables, cs: seq<Change>, x: Pattern): int {
    Told(One(x in t.dom), AddedAll(t, cs)[x], x in RemovedAll(t, cs))
  }

  ghost predicate ToldExactly(t: Tables, cs: seq<Change>) {
    Exact(t.dom, ApplyAll(t, cs).dom, AddedAll(t, cs), RemovedAll(t, cs))
  }

  // ---------------------------------------------------------------------------------------------
  // Any changes
  // ---------------------------------------------------------------------------------------------

  /** A type never listed as added only leaves, when listed as removed; one added and never removed is in. */
  ghost predicate Books(t: Tables, t': Tables, added: multiset<Pattern>, removed: set<Pattern>) {
    forall x {:trigger added[x]} {:trigger x in removed} {:trigger x in t'.dom} ::
      && (added[x] == 0 ==> (x in t'.dom <==> x in t.dom && x !in removed))
      && (added[x] > 0 && x !in removed ==> x in t'.dom)
  }

  lemma BooksOneMore(t: Tables, b: Tables, b': Tables, added: multiset<Pattern>, removed: set<Pattern>,
                     a: multiset<Pattern>, d: set<Pattern>)
    requires Books(t, b, added, removed) && Books(b, b', a, d)
    ensures Books(t, b', added + a, removed + d)
  {
    forall x
      ensures (added + a)[x] == 0 ==> (x in b'.dom <==> x in t.dom && x !in removed + d)
      ensures (added + a)[x] > 0 && x !in removed + d ==> x in b'.dom
    {
      assert (added + a)[x] == added[x] + a[x];
      assert x in b.dom || x !in b.dom;
    }
  }

  lemma {:induction false} Bookkeeping(t: Tables, cs: seq<Change>)
    requires Inv(t)
    ensures Books(t, ApplyAll(t, cs), AddedAll(t, cs), RemovedAll(t, cs))
  {
    if cs != [] {
      var rest, c := cs[..|cs| - 1], cs[|cs| - 1];
      var b := ApplyAll(t, rest);
      Bookkeeping(t, rest);
      ApplyAllKeepsInv(t, rest);
      if c.Enter? {
        AddTypesBookkeeping(b, c.types);
      } else {
        RemoveTypesBookkeeping(b, c.types);
      }
      BooksOneMore(t, b, Apply(b, c), AddedAll(t, rest), RemovedAll(t, rest), Added(b, c), Removed(b, c));
    }
  }

  /** Whatever was added and removed, one notification about it all is exact if and only if every type it
      lists as added ends as it began, where it is also listed as removed, and otherwise was not dominating
      and is listed once. */
  lemma ChangesAreExact(t: Tables, cs: seq<Change>)
    requires Inv(t)
    ensures var t', added, removed := ApplyAll(t, cs), AddedAll(t, cs), RemovedAll(t, cs);
            ToldExactly(t, cs) <==>
              forall x | x in added ::
                if x in removed then x in t.dom <==> x in t'.dom else x !in t.dom && added[x] == 1
  {
    var t', added, removed := ApplyAll(t, cs), AddedAll(t, cs), RemovedAll(t, cs);
    Bookkeeping(t, cs);
    forall x
      ensures One(x in t'.dom) == Told(One(x in t.dom), added[x], x in removed)
              <==> (x in added ==> if x in removed then x in t.dom <==> x in t'.dom else x !in t.dom && added[x] == 1)
    {
      assert x in t'.dom || x !in t'.dom;
    }
  }

  // ---------------------------------------------------------------------------------------------
  // Additions only
  // ---------------------------------------------------------------------------------------------

  ghost predicate OnlyEnter(cs: seq<Change>) {
    forall i | 0 <= i < |cs| :: cs[i].Enter?
  }

  lemma AddBooksCompose(t: Tables, b: Tables, c: Tables, added: multiset<Pattern>, removed: set<Pattern>,
                        added': multiset<Pattern>, removed': set<Pattern>)
    requires t.dom <= t.all.Keys && AddBooks(t, b, added, removed) && AddBooks(b, c, added', removed')
    ensures AddBooks(t, c, added + added', removed + removed')
  {
    var p, r := added + added', removed + removed';
    forall x
      ensures (x in t.all ==> x in c.all && p[x] == 0) && (p[x] > 0 ==> x in c.all && p[x] == 1)
      ensures (x in r ==> x in t.dom || p[x] > 0) && (x in c.dom <==> (x in t.dom || p[x] > 0) && x !in r)
    {
      assert p[x] == added[x] + added'[x];
    }
  }

  lemma {:induction false} AddAllBookkeeping(t: Tables, cs: seq<Change>)
    requires Inv(t) && OnlyEnter(cs)
    ensures AddBooks(t, ApplyAll(t, cs), AddedAll(t, cs), RemovedAll(t, cs))
  {
    if cs != [] {
      var rest, c := cs[..|cs| - 1], cs[|cs| - 1];
      var b := ApplyAll(t, rest);
      AddAllBookkeeping(t, rest);
      ApplyAllKeepsInv(t, rest);
      AddTypesBookkeeping(b, c.types);
      AddBooksCompose(t, b, Apply(b, c), AddedAll(t, rest), RemovedAll(t, rest), Added(b, c), Removed(b, c));
    }
  }

  /** After any batch of additions the notification is exact. */
  lemma AdditionsAreExact(t: Tables, cs: seq<Change>)
    requires Inv(t) && OnlyEnter(cs)
    ensures ToldExactly(t, cs)
  {
    AddAllBookkeeping(t, cs);
  }

  // ---------------------------------------------------------------------------------------------
  // Removals only
  // ---------------------------------------------------------------------------------------------

  ghost predicate OnlyLeave(cs: seq<Change>) {
    forall i | 0 <= i < |cs| :: cs[i].Leave?
  }

  ghost predicate LeaveBooks(t: Tables, t': Tables, added: multiset<Pattern>, removed: set<Pattern>) {
    forall x {:trigger added[x]} {:trigger x in removed} {:trigger x in t'.dom} ::
      && (x in t'.all ==> x in t.all && x !in removed)
      && (x in t'.dom <==> (x in t.dom || added[x] > 0) && x !in removed)
  }

  lemma LeaveBooksOneMore(t: Tables, b: Tables, b': Tables, added: multiset<Pattern>, removed: set<Pattern>,
                          p: multiset<Pattern>, l: set<Pattern>)
    requires LeaveBooks(t, b, added, removed) && RemoveBooks(b, b', p, l)
    ensures LeaveBooks(t, b', added + p, removed + l)
  {
    forall x
      ensures x in b'.all ==> x in t.all && x !in removed + l
      ensures x in b'.dom <==> (x in t.dom || (added + p)[x] > 0) && x !in removed + l
    {
      assert (added + p)[x] == added[x] + p[x];
      assert x in b.dom <==> (x in t.dom || added[x] > 0) && x !in removed;
    }
  }

  lemma {:induction false} LeaveBookkeeping(t: Tables, cs: seq<Change>)
    requires Inv(t) && OnlyLeave(cs)
    ensures LeaveBooks(t, ApplyAll(t, cs), AddedAll(t, cs), RemovedAll(t, cs))
  {
    if cs != [] {
      var rest, c := cs[..|cs| - 1], cs[|cs| - 1];
      var b := ApplyAll(t, rest);
      LeaveBookkeeping(t, rest);
      ApplyAllKeepsInv(t, rest);
      RemoveTypesBookkeeping(b, c.types);
      LeaveBooksOneMore(t, b, Apply(b, c), AddedAll(t, rest), RemovedAll(t, rest), Added(b, c), Removed(b, c));
    }
  }

  /** At some point of the removals `x` is still in use and `w` is not. */
  predicate Outlives(t: Tables, cs: seq<Change>, x: Pattern, w: Pattern) {
    || (x in ApplyAll(t, cs).all && w !in ApplyAll(t, cs).all)
    || (cs != [] && Outlives(t, cs[..|cs| - 1], x, w))
  }

  /** A dominating type outlives another one that covers it. */
  ghost predicate Relisted(t: Tables, cs: seq<Change>, x: Pattern) {
    x in t.dom && exists w :: w in t.dom && w != x && Covers(w, x) && Outlives(t, cs, x, w)
  }

  /** A concrete type remains in use after both wildcards over it, in use without "*::*", are gone. */
  predicate Doubled(t: Tables, cs: seq<Change>, x: Pattern) {
    var after := ApplyAll(t, cs).all;
    && Concrete(x) && x in after
    && OverName(x) !in after && Outlives(t, cs, OverName(x), STAR_STAR)
    && OverDomain(x) !in after && Outlives(t, cs, OverDomain(x), STAR_STAR)
  }

  /** Nothing comes into use by removals. */
  lemma {:induction false} OutlivedTypes(t: Tables, cs: seq<Change>, x: Pattern, w: Pattern)
    requires Inv(t) && OnlyLeave(cs)
    ensures x in ApplyAll(t, cs).all ==> x in t.all
    ensures w in ApplyAll(t, cs).all ==> !Outlives(t, cs, x, w)
    ensures Outlives(t, cs, x, w) ==> x in t.all
  {
    if cs != [] {
      var rest := cs[..|cs| - 1];
      OutlivedTypes(t, rest, x, w);
      ApplyAllKeepsInv(t, rest);
      DropTypesShrinks(ApplyAll(t, rest), cs[|cs| - 1].types);
    }
  }

  /** How often removals record a concrete type that stays in use: once for each wildcard over it that
      "*::*" did not hide at its end, and once if "*::*" leaves it uncovered. */
  lemma {:induction false} AddedConcrete(t: Tables, cs: seq<Change>, x: Pattern)
    requires Inv(t) && OnlyLeave(cs) && Concrete(x) && x in ApplyAll(t, cs).all
    ensures var after, a, b := ApplyAll(t, cs).all, OverName(x), OverDomain(x);
            var freeA, freeB := Outlives(t, cs, a, STAR_STAR), Outlives(t, cs, b, STAR_STAR);
            AddedAll(t, cs)[x] == One(freeA && a !in after) + One(freeB && b !in after)
                                  + One(Leaves(t.all, after, STAR_STAR) && !freeA && !freeB)
  {
    if cs != [] {
      var rest, es := cs[..|cs| - 1], cs[|cs| - 1].types;
      var before := ApplyAll(t, rest);
      ApplyAllKeepsInv(t, rest);
      DropTypesShrinks(before, es);
      OutlivedTypes(t, rest, OverName(x), STAR_STAR);
      OutlivedTypes(t, rest, OverDomain(x), STAR_STAR);
      AddedConcrete(t, rest, x);
      if STAR_STAR in before.all {
        OutlivedTypes(t, rest, STAR_STAR, STAR_STAR);
        PromotedAtStarStar(before, es, x);
      } else {
        PromotedOrdinary(before, es, x);
      }
    }
  }

  /** A wildcard is recorded at most once, and only when it comes out from under "*::*". */
  lemma {:induction false} AddedWildcard(t: Tables, cs: seq<Change>, x: Pattern)
    requires Inv(t) && OnlyLeave(cs) && !Concrete(x)
    ensures AddedAll(t, cs)[x] <= One(STAR_STAR in t.all && x != STAR_STAR)
    ensures AddedAll(t, cs)[x] > 0 ==> STAR_STAR !in ApplyAll(t, cs).all
  {
    if cs != [] {
      var rest, es := cs[..|cs| - 1], cs[|cs| - 1].types;
      var before := ApplyAll(t, rest);
      ApplyAllKeepsInv(t, rest);
      DropTypesShrinks(before, es);
      RemoveTypesBookkeeping(before, es);
      AddedWildcard(t, rest, x);
      OutlivedTypes(t, rest, STAR_STAR, STAR_STAR);
      if x in RemoveTypes(before, es).all {
        if STAR_STAR in before.all {
          PromotedAtStarStar(before, es, x);
        } else {
          PromotedOrdinary(before, es, x);
        }
      }
    }
  }

  /** What covers a dominating type beside itself is one of its two wildcards, and dominating too. */
  lemma OtherCovers(t: Tables, x: Pattern, w: Pattern)
    requires Inv(t) && x in t.dom && w != x && Covers(w, x)
    ensures w in t.all ==> w in t.dom && Concrete(x) && STAR_STAR !in t.all && (w == OverName(x) || w == OverDomain(x))
  {
    StarStarDominates(t);
    assert w == Pattern(w.domain, w.name) && x == Pattern(x.domain, x.name);
  }

  /** One more removal records a dominating type exactly if the type comes to outlive a cover by it. */
  lemma RelistedByOneMore(t: Tables, rest: seq<Change>, es: seq<Pattern>, x: Pattern, w: Pattern)
    requires Inv(t) && OnlyLeave(rest) && x in t.dom && w in t.dom && w != x && Covers(w, x)
    requires Outlives(t, rest + [Leave(es)], x, w)
    ensures Outlives(t, rest, x, w) || PromotedFor(ApplyAll(t, rest), es)[x] > 0
  {
    var before := ApplyAll(t, rest);
    assert (rest + [Leave(es)])[..|rest|] == rest;
    OtherCovers(t, x, w);
    ApplyAllKeepsInv(t, rest);
    DropTypesShrinks(before, es);
    OutlivedTypes(t, rest, STAR_STAR, STAR_STAR);
    if !Outlives(t, rest, x, w) {
      assert rest == [] || x in before.all;
      PromotedOrdinary(before, es, x);
    }
  }

  lemma RelistedForOneMore(t: Tables, rest: seq<Change>, es: seq<Pattern>, x: Pattern) returns (w: Pattern)
    requires Inv(t) && OnlyLeave(rest) && x in t.dom && PromotedFor(ApplyAll(t, rest), es)[x] > 0
    ensures w in t.dom && w != x && Covers(w, x) && Outlives(t, rest + [Leave(es)], x, w)
  {
    var before := ApplyAll(t, rest);
    assert (rest + [Leave(es)])[..|rest|] == rest;
    ApplyAllKeepsInv(t, rest);
    RemoveTypesBookkeeping(before, es);
    StarStarDominates(t);
    OutlivedTypes(t, rest, STAR_STAR, STAR_STAR);
    OutlivedTypes(t, rest, OverName(x), STAR_STAR);
    OutlivedTypes(t, rest, OverDomain(x), STAR_STAR);
    if STAR_STAR in before.all {
      PromotedAtStarStar(before, es, x);
    } else {
      PromotedOrdinary(before, es, x);
    }
    w := if Leaves(before.all, RemoveTypes(before, es).all, OverName(x)) then OverName(x) else OverDomain(x);
  }

  /** A dominating type is recorded as added exactly if it outlives another one that covers it. */
  lemma {:induction false} RelistedExactly(t: Tables, cs: seq<Change>, x: Pattern)
    requires Inv(t) && OnlyLeave(cs) && x in t.dom
    ensures AddedAll(t, cs)[x] > 0 <==> Relisted(t, cs, x)
  {
    if cs == [] {
      forall w | w in t.dom
        ensures !Outlives(t, cs, x, w)
      {
      }
    } else {
      var rest, es := cs[..|cs| - 1], cs[|cs| - 1].types;
      assert cs == rest + [Leave(es)];
      RelistedExactly(t, rest, x);
      if AddedAll(t, rest)[x] > 0 {
        var w :| w in t.dom && w != x && Covers(w, x) && Outlives(t, rest, x, w);
        assert Outlives(t, cs, x, w);
      } else if PromotedFor(ApplyAll(t, rest), es)[x] > 0 {
        var w := RelistedForOneMore(t, rest, es, x);
      } else if Relisted(t, cs, x) {
        var w :| w in t.dom && w != x && Covers(w, x) && Outlives(t, cs, x, w);
        RelistedByOneMore(t, rest, es, x, w);
      }
    }
  }

  /** The one notification about any number of removals is exact if and only if no dominating type
      outlives another one that covers it, and no type is left by two wildcards since "*::*" was gone. */
  lemma RemovalsAreExact(t: Tables, cs: seq<Change>)
    requires Inv(t) && OnlyLeave(cs)
    ensures ToldExactly(t, cs) <==> forall x :: !Relisted(t, cs, x) && !Doubled(t, cs, x)
  {
    var t', added, removed := ApplyAll(t, cs), AddedAll(t, cs), RemovedAll(t, cs);
    forall x
      ensures One(x in t'.dom) == Told(One(x in t.dom), added[x], x in removed)
              <==> !Relisted(t, cs, x) && !Doubled(t, cs, x)
    {
      RemovalIsExactFor(t, cs, x);
    }
  }

  lemma RemovalIsExactFor(t: Tables, cs: seq<Change>, x: Pattern)
    requires Inv(t) && OnlyLeave(cs)
    ensures One(x in ApplyAll(t, cs).dom) == Knows(t, cs, x)
            <==> !Relisted(t, cs, x) && !Doubled(t, cs, x)
  {
    LeaveBookkeeping(t, cs);
    ApplyAllKeepsInv(t, cs);
    if x in t.dom {
      RelistedExactly(t, cs, x);
    }
    if !Concrete(x) {
      AddedWildcard(t, cs, x);
    } else if x in ApplyAll(t, cs).all {
      AddedConcrete(t, cs, x);
    }
  }

  /** Whatever the multiplicity, the types themselves are told if and only if no dominating type that is
      gone in the end outlives another one that covers it. */
  lemma RemovalsReach(t: Tables, cs: seq<Change>)
    requires Inv(t) && OnlyLeave(cs)
    ensures Reaches(t.dom, ApplyAll(t, cs).dom, AddedAll(t, cs), RemovedAll(t, cs))
            <==> forall x :: Relisted(t, cs, x) ==> x in ApplyAll(t, cs).all
  {
    var t', added, removed := ApplyAll(t, cs), AddedAll(t, cs), RemovedAll(t, cs);
    LeaveBookkeeping(t, cs);
    ApplyAllKeepsInv(t, cs);
    forall x
      ensures (x in t'.dom <==> Told(One(x in t.dom), added[x], x in removed) > 0)
              <==> (Relisted(t, cs, x) ==> x in t'.all)
    {
      if x in t.dom {
        RelistedExactly(t, cs, x);
      }
    }
  }

  /** From a minimal table the types are always told, and each once unless one is doubled. */
  lemma RemovalsFromMinimal(t: Tables, cs: seq<Change>)
    requires Inv(t) && Maximal(t) && OnlyLeave(cs)
    ensures Reaches(t.dom, ApplyAll(t, cs).dom, AddedAll(t, cs), RemovedAll(t, cs))
    ensures ToldExactly(t, cs) <==> forall x :: !Doubled(t, cs, x)
  {
    RemovalsReach(t, cs);
    RemovalsAreExact(t, cs);
    forall x
      ensures !Relisted(t, cs, x)
    {
      assert x in t.dom ==> Top(t.all, x);
    }
  }

  // ---------------------------------------------------------------------------------------------
  // One removal, one replacement
  // ---------------------------------------------------------------------------------------------

  lemma OneChange(t: Tables, c: Change)
    ensures ApplyAll(t, [c]) == Apply(t, c) && AddedAll(t, [c]) == Added(t, c) && RemovedAll(t, [c]) == Removed(t, c)
  {
    OneMoreChange(t, [], c);
  }

  /** Two different dominating types cover `x`; one loses its last use, the other too or is `x` itself. */
  ghost predicate Crowded(t: Tables, after: map<Pattern, nat>, x: Pattern) {
    exists v, w :: v in t.dom && w in t.dom && v != w && Covers(v, x) && Covers(w, x)
                   && w !in after && (v == x || v !in after)
  }

  lemma CoversWithoutStarStar(v: Pattern, x: Pattern)
    requires v != STAR_STAR
    ensures Covers(v, x) <==> v == x || (Concrete(x) && (v == OverName(x) || v == OverDomain(x)))
  {
    assert v == Pattern(v.domain, v.name) && x == Pattern(x.domain, x.name);
  }

  lemma CrowdedByWildcards(t: Tables, after: map<Pattern, nat>, x: Pattern)
    requires Inv(t) && STAR_STAR !in t.all && x in after
    ensures var a, b := Leaves(t.all, after, OverName(x)), Leaves(t.all, after, OverDomain(x));
            Crowded(t, after, x) <==> Concrete(x) && ((a && b) || (x in t.dom && (a || b)))
  {
    StarStarDominates(t);
    if Crowded(t, after, x) {
      var v, w :| v in t.dom && w in t.dom && v != w && Covers(v, x) && Covers(w, x)
                  && w !in after && (v == x || v !in after);
      CoversWithoutStarStar(v, x);
      CoversWithoutStarStar(w, x);
    }
    if Concrete(x) {
      CoversWithoutStarStar(OverName(x), x);
      CoversWithoutStarStar(OverDomain(x), x);
      assert Covers(x, x);
    }
  }

  lemma NotCrowdedAtStarStar(t: Tables, after: map<Pattern, nat>, x: Pattern)
    requires t.dom == {STAR_STAR}
    ensures !Crowded(t, after, x)
    ensures x in t.dom <==> x == STAR_STAR
  {
  }

  lemma CrowdedExactly(t: Tables, es: seq<Pattern>, x: Pattern)
    requires Inv(t) && x in RemoveTypes(t, es).all
    ensures Crowded(t, RemoveTypes(t, es).all, x)
            <==> PromotedFor(t, es)[x] > 1 || (PromotedFor(t, es)[x] > 0 && x in t.dom)
  {
    StarStarDominates(t);
    if STAR_STAR in t.all {
      PromotedAtStarStar(t, es, x);
      NotCrowdedAtStarStar(t, RemoveTypes(t, es).all, x);
    } else {
      PromotedOrdinary(t, es, x);
      CrowdedByWildcards(t, RemoveTypes(t, es).all, x);
    }
  }

  /** The notification about one removal is exact if and only if no type that stays in use is crowded. */
  lemma RemovalIsExact(t: Tables, es: seq<Pattern>)
    requires Inv(t)
    ensures ToldExactly(t, [Leave(es)])
            <==> forall x | x in RemoveTypes(t, es).all :: !Crowded(t, RemoveTypes(t, es).all, x)
  {
    var t', added, removed := RemoveTypes(t, es), PromotedFor(t, es), SetOf(LostDominators(t, es));
    OneChange(t, Leave(es));
    RemoveTypesBookkeeping(t, es);
    forall x
      ensures One(x in t'.dom) == Told(One(x in t.dom), added[x], x in removed)
              <==> (x in t'.all ==> !Crowded(t, t'.all, x))
    {
      if x in t'.all {
        CrowdedExactly(t, es, x);
      }
    }
  }

  /** One removal lists as added just the types that are new in the dominating table if and only if no
      type that was dominating and stays in use is covered by another one that loses its last use. */
  lemma RemovalListsNewTypes(t: Tables, es: seq<Pattern>)
    requires Inv(t)
    ensures var t', added := RemoveTypes(t, es), PromotedFor(t, es);
            (forall x :: added[x] > 0 <==> x in t'.dom && x !in t.dom)
            <==> forall x, w | x in t.dom && x in t'.all && w in t.dom && w !in t'.all :: !Covers(w, x)
  {
    var t', added := RemoveTypes(t, es), PromotedFor(t, es);
    RemoveTypesBookkeeping(t, es);
    forall x
      ensures (added[x] > 0 <==> x in t'.dom && x !in t.dom)
              <==> (x in t.dom && x in t'.all ==> forall w | w in t.dom && w !in t'.all :: !Covers(w, x))
    {
      if x in t.dom && x in t'.all {
        CrowdedExactly(t, es, x);
        assert Covers(x, x);
      }
    }
  }

  /** `x` is among the new types, before any that covers it, and nothing in use covers it. */
  ghost predicate Surfaces(all: map<Pattern, nat>, ns: seq<Pattern>, x: Pattern) {
    && !Dominated(all.Keys, x)
    && exists p :: 0 <= p < |ns| && ns[p] == x && forall q | 0 <= q < p :: !Covers(ns[q], x)
  }

  /** Another type that covers `x` comes into use with the new types. */
  ghost predicate Overtaken(all: map<Pattern, nat>, ns: seq<Pattern>, x: Pattern) {
    exists e :: e in ns && e !in all && e != x && Covers(e, x)
  }

  lemma {:induction false} InUseAfter(t: Tables, ns: seq<Pattern>, x: Pattern)
    ensures x in AddTypes(t, ns).all <==> x in t.all || x in ns
  {
    if ns != [] {
      var rest, e := ns[..|ns| - 1], ns[|ns| - 1];
      InUseAfter(t, rest, x);
      assert ns == rest + [e];
    }
  }

  lemma EntersExactly(t: Tables, rest: seq<Pattern>, e: Pattern)
    requires Inv(t)
    ensures Enters(AddTypes(t, rest), e)
            <==> !Dominated(t.all.Keys, e) && forall q | 0 <= q < |rest| :: !Covers(rest[q], e)
  {
    var b := AddTypes(t, rest);
    AddTypesKeepsInv(t, rest);
    DominatedByAll(b, e);
    assert Covers(e, e);
    forall d
      ensures d in b.all <==> d in t.all || d in rest
    {
      InUseAfter(t, rest, d);
    }
    if !Enters(b, e) {
      assert Dominated(b.all.Keys, e);
      var d :| d in b.all.Keys && Covers(d, e);
    }
  }

  lemma SurfacesOneMore(all: map<Pattern, nat>, rest: seq<Pattern>, e: Pattern, x: Pattern)
    ensures Surfaces(all, rest + [e], x)
            <==> Surfaces(all, rest, x)
                 || (x == e && !Dominated(all.Keys, x) && forall q | 0 <= q < |rest| :: !Covers(rest[q], x))
  {
    var ns := rest + [e];
    if Surfaces(all, rest, x) {
      var p :| 0 <= p < |rest| && rest[p] == x && forall q | 0 <= q < p :: !Covers(rest[q], x);
      assert ns[p] == x && forall q | 0 <= q < p :: ns[q] == rest[q];
    }
    if Surfaces(all, ns, x) {
      var p :| 0 <= p < |ns| && ns[p] == x && forall q | 0 <= q < p :: !Covers(ns[q], x);
      assert forall q | 0 <= q < |rest| :: rest[q] == ns[q];
      assert p < |rest| ==> rest[p] == x;
    }
    if x == e && !Dominated(all.Keys, x) && forall q | 0 <= q < |rest| :: !Covers(rest[q], x) {
      assert ns[|rest|] == x;
    }
  }

  /** An addition records exactly the new types that surface. */
  lemma {:induction false} AddedExactly(t: Tables, ns: seq<Pattern>, x: Pattern)
    requires Inv(t)
    ensures AddedBy(t, ns)[x] > 0 <==> Surfaces(t.all, ns, x)
  {
    if ns != [] {
      var rest, e := ns[..|ns| - 1], ns[|ns| - 1];
      assert ns == rest + [e];
      AddedExactly(t, rest, x);
      EntersExactly(t, rest, e);
      SurfacesOneMore(t.all, rest, e, x);
    }
  }

  /** A dominating type stays dominating through an addition exactly if it is not overtaken. */
  lemma {:induction false} StaysExactly(t: Tables, ns: seq<Pattern>, x: Pattern)
    requires Inv(t) && (x in t.dom || AddedBy(t, ns)[x] > 0)
    ensures x in AddTypes(t, ns).dom <==> !Overtaken(t.all, ns, x)
  {
    if ns != [] {
      var rest, e := ns[..|ns| - 1], ns[|ns| - 1];
      var b := AddTypes(t, rest);
      assert ns == rest + [e];
      AddTypesKeepsInv(t, rest);
      AddTypesBookkeeping(t, rest);
      InUseAfter(t, rest, e);
      if x in t.dom || AddedBy(t, rest)[x] > 0 {
        StaysExactly(t, rest, x);
        StaysForOneMore(t, rest, e, x);
      } else {
        assert Enters(b, e) && x == e;
        EntersExactly(t, rest, e);
        assert forall d | d in rest :: !Covers(d, x);
      }
    }
  }

  /** A new type that is dominated covers nothing dominating. */
  lemma HiddenTypeCoversNothing(b: Tables, e: Pattern, x: Pattern)
    requires Inv(b) && x in b.dom && e !in b.all && Dominated(b.dom, e)
    ensures !Covers(e, x)
  {
    var d :| d in b.dom && Covers(d, e);
    assert d == Pattern(d.domain, d.name) && e == Pattern(e.domain, e.name) && x == Pattern(x.domain, x.name);
  }

  lemma StaysForOneMore(t: Tables, rest: seq<Pattern>, e: Pattern, x: Pattern)
    requires Inv(t) && Inv(AddTypes(t, rest)) && x in AddTypes(t, rest).all
    requires x in AddTypes(t, rest).dom <==> !Overtaken(t.all, rest, x)
    requires e in AddTypes(t, rest).all <==> e in t.all || e in rest
    ensures x in AddType(AddTypes(t, rest), e).dom <==> !Overtaken(t.all, rest + [e], x)
  {
    var b := AddTypes(t, rest);
    if x in b.dom {
      if Enters(b, e) {
        DisplacedIsCovered(b.dom, e, x);
      } else if e !in b.all {
        HiddenTypeCoversNothing(b, e, x);
      }
    }
  }

  /** Why the notification about a replacement is wrong for `x`: a crowded type stays in use and is not
      hidden at once by the new types, or a lost type is listed again before a new type that covers it. */
  ghost predicate Misled(t: Tables, es: seq<Pattern>, ns: seq<Pattern>, x: Pattern) {
    var mid := RemoveTypes(t, es).all;
    || (x in mid && Crowded(t, mid, x) && (x in t.dom || !Overtaken(mid, ns, x)))
    || (x in t.dom && x !in mid && Surfaces(mid, ns, x) && Overtaken(mid, ns, x))
  }

  lemma TwoStepsTold(t: Tables, mid: Tables, after: Tables, p: multiset<Pattern>, l: set<Pattern>,
                     a: multiset<Pattern>, d: set<Pattern>, x: Pattern, crowded: bool, overtaken: bool)
    requires mid.dom <= mid.all.Keys && RemoveBooks(t, mid, p, l) && AddBooks(mid, after, a, d)
    requires x in mid.all ==> (crowded <==> p[x] > 1 || (p[x] > 0 && x in t.dom))
    requires x in mid.dom || a[x] > 0 ==> (x in after.dom <==> !overtaken)
    ensures One(x in after.dom) == Told(One(x in t.dom), (p + a)[x], x in l + d)
            <==> !((x in mid.all && crowded && (x in t.dom || !overtaken))
                   || (x in t.dom && x !in mid.all && a[x] > 0 && overtaken))
  {
    assert (p + a)[x] == p[x] + a[x];
    assert x in after.dom <==> (x in mid.dom || a[x] > 0) && x !in d;
    assert x in mid.dom <==> (x in t.dom && x !in l) || p[x] > 0;
  }

  /** The notification about one replaced constraint is exact if and only if it misleads about no type. */
  lemma ReplacementIsExact(t: Tables, es: seq<Pattern>, ns: seq<Pattern>)
    requires Inv(t)
    ensures ToldExactly(t, [Leave(es), Enter(ns)]) <==> forall x :: !Misled(t, es, ns, x)
  {
    var cs, mid := [Leave(es)], RemoveTypes(t, es);
    var p, l, a, d := PromotedFor(t, es), SetOf(LostDominators(t, es)), AddedBy(mid, ns), DisplacedBy(mid, ns);
    OneChange(t, Leave(es));
    assert cs + [Enter(ns)] == [Leave(es), Enter(ns)];
    OneMoreChange(t, cs, Enter(ns));
    RemoveTypesBookkeeping(t, es);
    RemoveTypesKeepsInv(t, es);
    AddTypesBookkeeping(mid, ns);
    forall x
      ensures One(x in AddTypes(mid, ns).dom) == Told(One(x in t.dom), (p + a)[x], x in l + d)
              <==> !Misled(t, es, ns, x)
    {
      AddedExactly(mid, ns, x);
      if x in mid.dom || a[x] > 0 {
        StaysExactly(mid, ns, x);
      }
      if x in mid.all {
        CrowdedExactly(t, es, x);
      }
      TwoStepsTold(t, mid, AddTypes(mid, ns), p, l, a, d, x, Crowded(t, mid.all, x), Overtaken(mid.all, ns, x));
    }
  }

  // ---------------------------------------------------------------------------------------------
  // Any changes, told from the uses alone
  // ---------------------------------------------------------------------------------------------

  /** What becomes of one type: whether it is dominating, how often it was listed as added, whether as removed. */
  datatype Course = Course(dominating: bool, added: nat, removed: bool)

  /** New types `ns` come into use beside `all`. */
  ghost function Entering(c: Course, all: map<Pattern, nat>, ns: seq<Pattern>, x: Pattern): Course {
    var here := c.dominating || Surfaces(all, ns, x);
    Course(here && !Overtaken(all, ns, x), c.added + if Surfaces(all, ns, x) then 1 else 0,
           c.removed || (here && Overtaken(all, ns, x)))
  }

  /** How many types that go out of use bring back `x`, which stays. */
  function Uncoverings(before: map<Pattern, nat>, after: map<Pattern, nat>, x: Pattern): nat {
    var a, b := OverName(x), OverDomain(x);
    if x !in after then 0
    else if STAR_STAR in before then
      if STAR_STAR !in after && (Concrete(x) ==> a !in after && b !in after) then 1 else 0
    else if Concrete(x) then
      (if Leaves(before, after, a) then 1 else 0) + (if Leaves(before, after, b) then 1 else 0)
    else 0
  }

  function Leaving(c: Course, before: map<Pattern, nat>, after: map<Pattern, nat>, x: Pattern): Course {
    var n := Uncoverings(before, after, x);
    Course((c.dominating && x in after) || n > 0, c.added + n, c.removed || (c.dominating && x !in after))
  }

  /** The uses after the changes `cs`: they do not depend on the dominating table. */
  function UsesAfter(all: map<Pattern, nat>, cs: seq<Change>): map<Pattern, nat> {
    ApplyAll(Tables(all, {}), cs).all
  }

  /** The course of `x` over the changes `cs`, from whether it was dominating, the uses, and the types in `cs`. */
  ghost function CourseOf(began: bool, all: map<Pattern, nat>, cs: seq<Change>, x: Pattern): Course {
    if cs == [] then Course(began, 0, false)
    else
      var rest := cs[..|cs| - 1];
      var c, before := CourseOf(began, all, rest, x), UsesAfter(all, rest);
      match cs[|cs| - 1]
      case Enter(ns) => Entering(c, before, ns, x)
      case Leave(_) => Leaving(c, before, UsesAfter(all, cs), x)
  }

  lemma {:induction false} AddTypesUses(t: Tables, u: Tables, es: seq<Pattern>)
    requires t.all == u.all
    ensures AddTypes(t, es).all == AddTypes(u, es).all
  {
    if es != [] {
      AddTypesUses(t, u, es[..|es| - 1]);
    }
  }

  lemma {:induction false} DropTypesUses(t: Tables, u: Tables, es: seq<Pattern>)
    requires t.all == u.all
    ensures DropTypes(t, es).all == DropTypes(u, es).all
  {
    if es != [] {
      DropTypesUses(t, u, es[..|es| - 1]);
    }
  }

  lemma {:induction false} UsesAreTheirOwn(t: Tables, u: Tables, cs: seq<Change>)
    requires t.all == u.all
    ensures ApplyAll(t, cs).all == ApplyAll(u, cs).all
  {
    if cs != [] {
      var rest, c := cs[..|cs| - 1], cs[|cs| - 1];
      UsesAreTheirOwn(t, u, rest);
      match c
      case Enter(ns) => AddTypesUses(ApplyAll(t, rest), ApplyAll(u, rest), ns);
      case Leave(es) => DropTypesUses(ApplyAll(t, rest), ApplyAll(u, rest), es);
    }
  }

  lemma EnteringIsExact(t: Tables, ns: seq<Pattern>, c: Course, x: Pattern)
    requires Inv(t) && c.dominating == (x in t.dom)
    ensures Entering(c, t.all, ns, x)
            == Course(x in AddTypes(t, ns).dom, c.added + AddedBy(t, ns)[x], c.removed || x in DisplacedBy(t, ns))
  {
    AddTypesBookkeeping(t, ns);
    AddedExactly(t, ns, x);
    if x in t.dom || AddedBy(t, ns)[x] > 0 {
      StaysExactly(t, ns, x);
    }
  }

  lemma LeavingIsExact(t: Tables, es: seq<Pattern>, c: Course, x: Pattern)
    requires Inv(t) && c.dominating == (x in t.dom)
    ensures var t' := RemoveTypes(t, es);
            Leaving(c, t.all, t'.all, x)
            == Course(x in t'.dom, c.added + PromotedFor(t, es)[x], c.removed || x in SetOf(LostDominators(t, es)))
  {
    RemoveTypesBookkeeping(t, es);
    RemoveTypesKeepsInv(t, es);
    if x in RemoveTypes(t, es).all {
      if STAR_STAR in t.all {
        PromotedAtStarStar(t, es, x);
      } else {
        PromotedOrdinary(t, es, x);
      }
    }
  }

  lemma {:induction false} CourseIsExact(t: Tables, cs: seq<Change>, x: Pattern)
    requires Inv(t)
    ensures CourseOf(x in t.dom, t.all, cs, x)
            == Course(x in ApplyAll(t, cs).dom, AddedAll(t, cs)[x], x in RemovedAll(t, cs))
  {
    if cs != [] {
      var rest, c := cs[..|cs| - 1], cs[|cs| - 1];
      var b, course := ApplyAll(t, rest), CourseOf(x in t.dom, t.all, rest, x);
      CourseIsExact(t, rest, x);
      ApplyAllKeepsInv(t, rest);
      UsesAreTheirOwn(t, Tables(t.all, {}), rest);
      UsesAreTheirOwn(t, Tables(t.all, {}), cs);
      match c
      case Enter(ns) => EnteringIsExact(b, ns, course, x);
      case Leave(es) => LeavingIsExact(b, es, course, x);
    }
  }

  /** A course that began with `x` dominating, or not, misleads a subscriber: `x` was listed as added, and either
      was also listed as removed and has not ended as it began, or was there already or was listed twice. */
  predicate Misleads(began: bool, c: Course) {
    c.added > 0 && if c.removed then c.dominating != began else began || c.added > 1
  }

  /** The notification about any number of deletions and replacements is exact if and only if no type takes a
      course that misleads. */
  lemma CoursesDecide(t: Tables, cs: seq<Change>)
    requires Inv(t)
    ensures ToldExactly(t, cs) <==> forall x :: !Misleads(x in t.dom, CourseOf(x in t.dom, t.all, cs, x))
  {
    ChangesAreExact(t, cs);
    forall x
      ensures Misleads(x in t.dom, CourseOf(x in t.dom, t.all, cs, x)) <==>
                x in AddedAll(t, cs)
                && !if x in RemovedAll(t, cs) then x in t.dom <==> x in ApplyAll(t, cs).dom
                    else x !in t.dom && AddedAll(t, cs)[x] == 1
    {
      CourseIsExact(t, cs, x);
    }
  }

  // ---------------------------------------------------------------------------------------------
  // Staying minimal
  // ---------------------------------------------------------------------------------------------

  /** Every addition is gentle; a removal is if "*::*" was in use or no type is left half uncovered. */
  ghost predicate Gentle(t: Tables, c: Change) {
    c.Leave? ==> STAR_STAR in t.all || forall k :: !HalfUncovered(t.all, Apply(t, c).all, k)
  }

  ghost predicate AllGentle(t: Tables, cs: seq<Change>) {
    cs != [] ==> AllGentle(t, cs[..|cs| - 1]) && Gentle(ApplyAll(t, cs[..|cs| - 1]), cs[|cs| - 1])
  }

  /** The table is minimal after every single one of the changes. */
  ghost predicate AlwaysMinimal(t: Tables, cs: seq<Change>) {
    Maximal(ApplyAll(t, cs)) && (cs != [] ==> AlwaysMinimal(t, cs[..|cs| - 1]))
  }

  lemma {:induction false} AlwaysMinimalExactly(t: Tables, cs: seq<Change>)
    requires Inv(t) && Maximal(t)
    ensures AlwaysMinimal(t, cs) <==> AllGentle(t, cs)
  {
    if cs != [] {
      var rest, c := cs[..|cs| - 1], cs[|cs| - 1];
      AlwaysMinimalExactly(t, rest);
      ApplyAllKeepsInv(t, rest);
      if AlwaysMinimal(t, rest) {
        if c.Enter? {
          AddTypesKeepsMaximal(ApplyAll(t, rest), c.types);
        } else {
          RemoveKeepsMaximalExactly(ApplyAll(t, rest), c.types);
        }
      }
    }
  }

  /** The only wildcard that a removal takes out of the dominating table is "*::*". */
  ghost predicate Mild(t: Tables, c: Change) {
    c.Leave? ==> forall e | e in t.dom && e !in Apply(t, c).all :: Concrete(e) || e == STAR_STAR
  }

  ghost predicate AllMild(t: Tables, cs: seq<Change>) {
    cs != [] ==> AllMild(t, cs[..|cs| - 1]) && Mild(ApplyAll(t, cs[..|cs| - 1]), cs[|cs| - 1])
  }

  lemma {:induction false} MildIsMinimal(t: Tables, cs: seq<Change>)
    requires Inv(t) && Maximal(t) && AllMild(t, cs)
    ensures AlwaysMinimal(t, cs)
  {
    if cs != [] {
      var rest, c := cs[..|cs| - 1], cs[|cs| - 1];
      MildIsMinimal(t, rest);
      ApplyAllKeepsInv(t, rest);
      if c.Enter? {
        AddTypesKeepsMaximal(ApplyAll(t, rest), c.types);
      } else {
        RemoveKeepsMaximalButStarStar(ApplyAll(t, rest), c.types);
      }
    }
  }

  // ---------------------------------------------------------------------------------------------
  // Inputs about which a subscriber is misled
  // ---------------------------------------------------------------------------------------------

  /** "*::T", "D::*" and "D::T" in use, with the two wildcards dominating. */
  lemma ThreeTypes(w: Pattern, d: Pattern, c: Pattern)
    requires Concrete(c) && w == OverName(c) && d == OverDomain(c)
    ensures AddTypes(EMPTY, [w, d, c]) == Tables(map[w := 1, d := 1, c := 1], {w, d})
    ensures Inv(AddTypes(EMPTY, [w, d, c]))
  {
    assert [w, d, c][..2] == [w, d] && [w, d][..1] == [w] && [w][..0] == [];
    assert AddTypes(EMPTY, [w]) == Tables(map[w := 1], {w});
    assert AddTypes(EMPTY, [w, d]) == Tables(map[w := 1, d := 1], {w, d});
    assert Covers(w, c);
    AddTypesKeepsInv(EMPTY, [w, d, c]);
  }

  /** Losing both wildcards in one removal lists "D::T" twice: a subscriber files it twice. */
  lemma ListedTwice(w: Pattern, d: Pattern, c: Pattern)
    requires Concrete(c) && w == OverName(c) && d == OverDomain(c)
    ensures var t := AddTypes(EMPTY, [w, d, c]);
            PromotedFor(t, [w, d])[c] == 2 && Knows(t, [Leave([w, d])], c) == 2
  {
    var t := AddTypes(EMPTY, [w, d, c]);
    ThreeTypes(w, d, c);
    assert [w, d][..1] == [w] && [w][..0] == [];
    assert DropTypes(t, [w]) == Tables(map[d := 1, c := 1], {d});
    assert DropTypes(t, [w, d]) == Tables(map[c := 1], {});
    PromotedOrdinary(t, [w, d], c);
    OneChange(t, Leave([w, d]));
    RemoveTypesBookkeeping(t, [w, d]);
  }

  lemma OneType(t: Tables, e: Pattern)
    ensures AddTypes(t, [e]) == AddType(t, e) && RemoveTypes(t, [e]).all == DropType(t, e).all
    ensures AddedBy(t, [e]) == if Enters(t, e) then multiset{e} else multiset{}
    ensures LostDominators(t, [e]) == if e in t.dom && e !in DropType(t, e).all then [e] else []
  {
    assert [e][..0] == [] && AddedBy(t, []) == multiset{} && LostDominators(t, []) == [];
    assert DropTypes(t, [e]) == DropType(t, e);
  }

  lemma TwoChanges(t: Tables, c: Change, d: Change)
    ensures ApplyAll(t, [c, d]) == Apply(Apply(t, c), d)
    ensures AddedAll(t, [c, d]) == Added(t, c) + Added(Apply(t, c), d)
    ensures RemovedAll(t, [c, d]) == Removed(t, c) + Removed(Apply(t, c), d)
  {
    OneChange(t, c);
    assert [c, d] == [c] + [d];
    OneMoreChange(t, [c], d);
  }

  lemma WithoutMiddle(w: Pattern, d: Pattern, c: Pattern)
    requires w != d && d != c
    ensures map[w := 1, d := 1, c := 1] - {d} == map[w := 1, c := 1]
  {
  }

  /** Removing "D::*" from these brings "D::T" into the table although "*::T" covers it. */
  lemma BothDominate(full: Tables, w: Pattern, d: Pattern, c: Pattern)
    requires Concrete(c) && w == OverName(c) && d == OverDomain(c)
    requires Inv(full) && full == Tables(map[w := 1, d := 1, c := 1], {w, d})
    ensures var t := RemoveTypes(full, [d]); Inv(t) && t.all == map[w := 1, c := 1] && t.dom == {w, c}
  {
    OneType(full, d);
    WithoutMiddle(w, d, c);
    RemoveTypesKeepsInv(full, [d]);
    RemoveTypesBookkeeping(full, [d]);
    PromotedOrdinary(full, [d], c);
  }

  /** From there, losing "*::T" lists "D::T" although it was dominating all the time ... */
  lemma ListedAgain(t: Tables, w: Pattern, c: Pattern)
    requires Concrete(c) && w == OverName(c)
    requires Inv(t) && t.all == map[w := 1, c := 1] && t.dom == {w, c}
    ensures PromotedFor(t, [w])[c] == 1 && Knows(t, [Leave([w])], c) == 2
    ensures Inv(RemoveTypes(t, [w])) && RemoveTypes(t, [w]) == Tables(map[c := 1], {c})
  {
    OneChange(t, Leave([w]));
    OneType(t, w);
    PromotedOrdinary(t, [w], c);
    RemoveTypesBookkeeping(t, [w]);
    RemoveTypesKeepsInv(t, [w]);
  }

  lemma LastLeaves(u: Tables, c: Pattern)
    requires Concrete(c) && Inv(u) && u == Tables(map[c := 1], {c})
    ensures RemoveTypes(u, [c]) == EMPTY && SetOf(LostDominators(u, [c])) == {c}
    ensures forall x :: PromotedFor(u, [c])[x] == 0
  {
    OneType(u, c);
    RemoveTypesBookkeeping(u, [c]);
    assert RemoveTypes(u, [c]).all == map[];
    assert RemoveTypes(u, [c]).dom == {};
  }

  /** A history from the empty table after which one notification about two removals leaves a
      subscriber with "D::T" filed, though the table is empty. */
  lemma StaysFiled(w: Pattern, d: Pattern, c: Pattern)
    requires Concrete(c) && w == OverName(c) && d == OverDomain(c)
    ensures var t, cs := ApplyAll(EMPTY, [Enter([w, d, c]), Leave([d])]), [Leave([w]), Leave([c])];
            c in t.dom && ApplyAll(t, cs) == EMPTY && Knows(t, cs, c) == 1
  {
    var t := ApplyAll(EMPTY, [Enter([w, d, c]), Leave([d])]);
    ThreeTypes(w, d, c);
    TwoChanges(EMPTY, Enter([w, d, c]), Leave([d]));
    BothDominate(AddTypes(EMPTY, [w, d, c]), w, d, c);
    ListedAgain(t, w, c);
    LastLeaves(RemoveTypes(t, [w]), c);
    TwoChanges(t, Leave([w]), Leave([c]));
  }

  /** Replacing the types "D::T" of the only constraint by "D::T", "*::T": the new "D::T" cancels against
      the old one, and a subscriber keeps it filed while the table holds "*::T" alone. */
  lemma ReplacedTooEarly(w: Pattern, c: Pattern)
    requires Concrete(c) && w == OverName(c)
    ensures var t, cs := AddTypes(EMPTY, [c]), [Leave([c]), Enter([c, w])];
            t.dom == {c} && ApplyAll(t, cs).dom == {w} && Knows(t, cs, c) == 1
  {
    var t := AddTypes(EMPTY, [c]);
    OneType(EMPTY, c);
    AddTypesKeepsInv(EMPTY, [c]);
    LastLeaves(t, c);
    TwoChanges(t, Leave([c]), Enter([c, w]));
    NewOverNew(w, c);
  }

  lemma NewOverNew(w: Pattern, c: Pattern)
    requires Concrete(c) && w == OverName(c)
    ensures AddTypes(EMPTY, [c, w]).dom == {w} && AddedBy(EMPTY, [c, w])[c] == 1 && c in DisplacedBy(EMPTY, [c, w])
  {
    OneType(EMPTY, c);
    assert [c, w][..1] == [c];
    assert Displaced({c}, w) == {c};
    assert !Dominated({c}, w);
  }
}
