/** Laws of the event-type tables: when the dominating table is minimal, and what the recorded changes of
    one addition or one removal say. */
module FilterLaws {
  import opened Counting
  import opened EventTypes
  import opened FilterTables

  // ---------------------------------------------------------------------------------------------
  // Minimality
  // ---------------------------------------------------------------------------------------------

  ghost predicate Top(all: map<Pattern, nat>, e: Pattern) {
    e in all && forall d | d in all && Covers(d, e) :: d == e
  }

  /** The dominating table holds exactly the maximal types in use. */
  ghost predicate Maximal(t: Tables) {
    forall e {:trigger Top(t.all, e)} :: e in t.dom <==> Top(t.all, e)
  }

  lemma DisplacedIsCovered(dom: set<Pattern>, e: Pattern, k: Pattern)
    requires e !in dom
    ensures k in Displaced(dom, e) <==> k in dom && Covers(e, k)
  {
  }

  lemma AddTypeKeepsMaximal(t: Tables, e: Pattern)
    requires Inv(t) && Maximal(t)
    ensures Maximal(AddType(t, e))
  {
    var t' := AddType(t, e);
    forall k
      ensures k in t'.dom <==> Top(t'.all, k)
    {
      if k in t.all {
        OldTypeStaysTop(t, e, k);
      } else if k == e {
        NewTypeIsTop(t, e);
      }
    }
  }

  lemma NewTypeIsTop(t: Tables, e: Pattern)
    requires Inv(t) && e !in t.all
    ensures Top(AddType(t, e).all, e) <==> !Dominated(t.dom, e)
  {
    var t' := AddType(t, e);
    if Dominated(t.dom, e) {
      var w :| w in t.dom && Covers(w, e);
      assert w in t'.all && w != e;
    } else {
      forall d | d in t'.all && Covers(d, e)
        ensures d == e
      {
        if d in t.all {
          assert Dominated(t.dom, d);
          var w :| w in t.dom && Covers(w, d);
          assert Covers(w, e);
          assert false;
        }
      }
    }
  }

  lemma OldTypeStaysTop(t: Tables, e: Pattern, k: Pattern)
    requires Inv(t) && Maximal(t) && k in t.all
    ensures k in AddType(t, e).dom <==> Top(AddType(t, e).all, k)
  {
    var t' := AddType(t, e);
    assert Top(t.all, k) <==> k in t.dom;
    if e in t.all {
      assert t'.all.Keys == t.all.Keys;
      assert forall d :: d in t.all <==> d in t'.all;
    } else {
      assert forall d :: d in t'.all <==> d in t.all || d == e;
      assert Top(t'.all, k) <==> Top(t.all, k) && !Covers(e, k);
      if Dominated(t.dom, e) {
        var w :| w in t.dom && Covers(w, e);
        if Covers(e, k) {
          assert Covers(w, k) && w in t.all;
          assert w == k ==> k == e;
        }
      } else {
        DisplacedIsCovered(t.dom, e, k);
      }
    }
  }

  lemma {:induction false} AddTypesKeepsMaximal(t: Tables, es: seq<Pattern>)
    requires Inv(t) && Maximal(t)
    ensures Maximal(AddTypes(t, es))
  {
    if es != [] {
      var rest := es[..|es| - 1];
      AddTypesKeepsInv(t, rest);
      AddTypesKeepsMaximal(t, rest);
      AddTypeKeepsMaximal(AddTypes(t, rest), es[|es| - 1]);
    }
  }

  /** A concrete type in use has lost one of its two wildcards and kept the other. */
  ghost predicate HalfUncovered(before: map<Pattern, nat>, after: map<Pattern, nat>, k: Pattern) {
    var a, b := Pattern(Star, k.name), Pattern(k.domain, Star);
    && k in after && Concrete(k)
    && ((a in before && a !in after && b in after) || (b in before && b !in after && a in after))
  }

  lemma TopWithoutStarStar(all: map<Pattern, nat>, k: Pattern)
    requires STAR_STAR !in all
    ensures Top(all, k)
            <==> k in all && (Concrete(k) ==> Pattern(Star, k.name) !in all && Pattern(k.domain, Star) !in all)
  {
  }

  lemma StarStarDominates(t: Tables)
    requires Inv(t)
    ensures STAR_STAR in t.all <==> t.dom == {STAR_STAR}
    ensures STAR_STAR !in t.all ==> forall e | e in t.all && !Concrete(e) :: e in t.dom
  {
    forall e | e in t.all && !Concrete(e) && (e == STAR_STAR || STAR_STAR !in t.all)
      ensures e in t.dom
    {
      assert Dominated(t.dom, e);
      var d :| d in t.dom && Covers(d, e);
      assert d == Pattern(d.domain, d.name);
    }
  }

  lemma RemoveUnderStarStar(t: Tables, es: seq<Pattern>)
    requires Inv(t) && Maximal(t) && STAR_STAR in DropTypes(t, es).all
    ensures Maximal(RemoveTypes(t, es))
  {
    var t' := RemoveTypes(t, es);
    DropTypesShrinks(t, es);
    StarStarDominates(t);
    RemoveTypesKeepsInv(t, es);
    RemoveOrdinary(t, es);
    StarStarIsTop(t'.all);
  }

  lemma RemoveStarStar(t: Tables, es: seq<Pattern>)
    requires Inv(t) && Maximal(t) && STAR_STAR in t.all && STAR_STAR !in DropTypes(t, es).all
    ensures Maximal(RemoveTypes(t, es))
  {
    var t' := RemoveTypes(t, es);
    StarStarDominates(t);
    RemoveStarStarKeepsInv(t, es);
    forall k
      ensures k in t'.dom <==> Top(t'.all, k)
    {
      TopWithoutStarStar(t'.all, k);
      PromotedByStarStar(t'.all, k);
    }
  }

  lemma StarStarIsTop(all: map<Pattern, nat>)
    requires STAR_STAR in all
    ensures forall k :: Top(all, k) <==> k == STAR_STAR
  {
  }

  lemma PromotedByStarStar(all: map<Pattern, nat>, k: Pattern)
    requires STAR_STAR !in all
    ensures k in Promoted(all, {}, STAR_STAR)
            <==> k in all && (Concrete(k) ==> Pattern(Star, k.name) !in all && Pattern(k.domain, Star) !in all)
  {
    var wild, a, b := {} + Wildcards(all), Pattern(Star, k.name), Pattern(k.domain, Star);
    assert forall w :: w in wild <==> w in Wildcards(all);
    if k in all && Concrete(k) {
      assert Covers(a, k) && Covers(b, k);
      if Dominated(wild, k) {
        var w :| w in wild && Covers(w, k);
        assert w == Pattern(w.domain, w.name);
      }
    }
  }

  /** Exactly when removing the types of a constraint leaves a minimal table minimal: "*::*" was in
      use, or no remaining concrete type is left under just one of two former wildcards. */
  lemma RemoveKeepsMaximalExactly(t: Tables, es: seq<Pattern>)
    requires Inv(t) && Maximal(t)
    ensures Maximal(RemoveTypes(t, es))
            <==> STAR_STAR in t.all || forall k :: !HalfUncovered(t.all, RemoveTypes(t, es).all, k)
  {
    if STAR_STAR in DropTypes(t, es).all {
      DropTypesShrinks(t, es);
      RemoveUnderStarStar(t, es);
    } else if STAR_STAR in t.all {
      RemoveStarStar(t, es);
    } else {
      forall k
        ensures (k in RemoveTypes(t, es).dom <==> Top(RemoveTypes(t, es).all, k))
                <==> !HalfUncovered(t.all, RemoveTypes(t, es).all, k)
      {
        RemoveOneExactly(t, es, k);
      }
    }
  }

  lemma RemoveOneExactly(t: Tables, es: seq<Pattern>, k: Pattern)
    requires Inv(t) && Maximal(t) && STAR_STAR !in t.all
    ensures (k in RemoveTypes(t, es).dom <==> Top(RemoveTypes(t, es).all, k))
            <==> !HalfUncovered(t.all, RemoveTypes(t, es).all, k)
  {
    var d, lost, t' := DropTypes(t, es), LostDominators(t, es), RemoveTypes(t, es);
    DropTypesShrinks(t, es);
    LostDominatorsExactly(t, es);
    ListsMembers(lost, t, d);
    RemoveOrdinary(t, es);
    TopWithoutStarStar(t.all, k);
    TopWithoutStarStar(t'.all, k);
    var a, b := Pattern(Star, k.name), Pattern(k.domain, Star);
    TopWithoutStarStar(t.all, a);
    TopWithoutStarStar(t.all, b);
    if k in t'.all {
      PromotedByLost(d.all, lost, k);
    }
  }

  /** Of the wildcards in `lost`, only the two above a type can promote it. */
  lemma PromotedByLost(all: map<Pattern, nat>, lost: seq<Pattern>, k: Pattern)
    requires k in all && STAR_STAR !in lost && forall e | e in lost :: e !in all
    ensures (exists e | e in lost :: k in Promoted(all, {}, e))
            <==> Concrete(k) && (Pattern(Star, k.name) in lost || Pattern(k.domain, Star) in lost)
  {
  }

  /** In particular the table stays minimal when "*::*" is the only dominating wildcard that leaves. */
  lemma RemoveKeepsMaximalButStarStar(t: Tables, es: seq<Pattern>)
    requires Inv(t) && Maximal(t)
    requires forall e | e in t.dom && e !in RemoveTypes(t, es).all :: Concrete(e) || e == STAR_STAR
    ensures Maximal(RemoveTypes(t, es))
  {
    StarStarDominates(t);
    RemoveKeepsMaximalExactly(t, es);
  }

  // ---------------------------------------------------------------------------------------------
  // The recorded changes
  // ---------------------------------------------------------------------------------------------

  /** `added` holds new types only, each once, `removed` types that were or became dominating; together
      they lead from the dominating table of `t` to that of `t'`. */
  ghost predicate AddBooks(t: Tables, t': Tables, added: multiset<Pattern>, removed: set<Pattern>) {
    forall x {:trigger added[x]} {:trigger x in removed} {:trigger x in t'.dom} ::
      && (x in t.all ==> x in t'.all && added[x] == 0)
      && (added[x] > 0 ==> x in t'.all && added[x] == 1)
      && (x in removed ==> x in t.dom || added[x] > 0)
      && (x in t'.dom <==> (x in t.dom || added[x] > 0) && x !in removed)
  }

  lemma AddBooksOneMore(t: Tables, b: Tables, added: multiset<Pattern>, removed: set<Pattern>, e: Pattern)
    requires t.dom <= t.all.Keys && AddBooks(t, b, added, removed)
    ensures AddBooks(t, AddType(b, e), added + if Enters(b, e) then multiset{e} else multiset{},
                     removed + if Enters(b, e) then Displaced(b.dom, e) else {})
  {
    var b' := AddType(b, e);
    var added' := added + if Enters(b, e) then multiset{e} else multiset{};
    var removed' := removed + if Enters(b, e) then Displaced(b.dom, e) else {};
    assert Displaced(b.dom, e) <= b.dom;
    forall x
      ensures (x in t.all ==> x in b'.all && added'[x] == 0) && (added'[x] > 0 ==> x in b'.all && added'[x] == 1)
      ensures x in removed' ==> x in t.dom || added'[x] > 0
      ensures x in b'.dom <==> (x in t.dom || added'[x] > 0) && x !in removed'
    {
      assert x in b.dom <==> (x in t.dom || added[x] > 0) && x !in removed;
      assert added'[x] == added[x] + if Enters(b, e) && x == e then 1 else 0;
    }
  }

  lemma {:induction false} AddTypesBookkeeping(t: Tables, es: seq<Pattern>)
    requires Inv(t)
    ensures AddBooks(t, AddTypes(t, es), AddedBy(t, es), DisplacedBy(t, es))
  {
    if es != [] {
      var rest := es[..|es| - 1];
      AddTypesBookkeeping(t, rest);
      AddBooksOneMore(t, AddTypes(t, rest), AddedBy(t, rest), DisplacedBy(t, rest), es[|es| - 1]);
    }
  }

  /** The types recorded as added by one removal. */
  function PromotedFor(t: Tables, es: seq<Pattern>): multiset<Pattern> {
    var d := DropTypes(t, es);
    PromotedBy(d.all, d.dom, LostDominators(t, es))
  }

  /** `removed` holds the dominating types without a use left, `added` types still in use. */
  ghost predicate RemoveBooks(t: Tables, t': Tables, added: multiset<Pattern>, removed: set<Pattern>) {
    forall x {:trigger added[x]} {:trigger x in removed} {:trigger x in t'.dom} ::
      && (x in t'.all ==> x in t.all && x !in removed)
      && (added[x] > 0 ==> x in t'.all)
      && (x in removed ==> x in t.dom)
      && (x in t'.dom <==> (x in t.dom && x !in removed) || added[x] > 0)
  }

  lemma RemoveTypesBookkeeping(t: Tables, es: seq<Pattern>)
    requires Inv(t)
    ensures RemoveBooks(t, RemoveTypes(t, es), PromotedFor(t, es), SetOf(LostDominators(t, es)))
  {
    var d, lost := DropTypes(t, es), LostDominators(t, es);
    DropTypesShrinks(t, es);
    LostDominatorsExactly(t, es);
    ListsMembers(lost, t, d);
    PromoteAllBounds(d.all, d.dom, lost);
    forall x
      ensures x in SetOf(lost) <==> x in t.dom && x !in d.all
      ensures x in d.dom <==> x in t.dom && x !in SetOf(lost)
      ensures PromotedFor(t, es)[x] > 0 ==> x in d.all
    {
      assert x in d.dom <==> x in t.dom && x in d.all;
      assert x in PromotedBy(d.all, d.dom, lost) ==> x in PromoteAll(d.all, d.dom, lost);
    }
  }

  // ---------------------------------------------------------------------------------------------
  // How often a removal records a type as added
  // ---------------------------------------------------------------------------------------------

  /** The two wildcards that cover a concrete type. */
  function OverName(x: Pattern): Pattern {
    Pattern(Star, x.name)
  }

  function OverDomain(x: Pattern): Pattern {
    Pattern(x.domain, Star)
  }

  lemma PromotedUnderOne(all: map<Pattern, nat>, dom: set<Pattern>, e: Pattern, x: Pattern)
    requires e != STAR_STAR && e !in all && x in all
    ensures x in Promoted(all, dom, e) <==> Concrete(x) && (e == OverName(x) || e == OverDomain(x))
  {
    assert e == Pattern(e.domain, e.name);
  }

  lemma CountsOneMore(rest: seq<Pattern>, lost: seq<Pattern>, e: Pattern)
    requires lost != [] && rest == lost[..|lost| - 1] && e == lost[|lost| - 1]
    ensures forall w :: multiset(lost)[w] == multiset(rest)[w] + One(w == e)
  {
    assert lost == rest + [e];
  }

  /** Losing ordinary wildcards records a remaining concrete type once for each that covered it. */
  lemma {:induction false} PromotedByCounts(all: map<Pattern, nat>, dom: set<Pattern>, lost: seq<Pattern>, x: Pattern)
    requires STAR_STAR !in lost && x in all && forall e | e in lost :: e !in all
    ensures PromotedBy(all, dom, lost)[x]
            == if Concrete(x) then multiset(lost)[OverName(x)] + multiset(lost)[OverDomain(x)] else 0
  {
    if lost != [] {
      var rest, e := lost[..|lost| - 1], lost[|lost| - 1];
      PromotedByCounts(all, dom, rest, x);
      PromotedUnderOne(all, PromoteAll(all, dom, rest), e, x);
      CountsOneMore(rest, lost, e);
    }
  }

  /** The dominating table admits the same types as the table of all types. */
  lemma DominatedByAll(t: Tables, e: Pattern)
    requires Inv(t)
    ensures Dominated(t.dom, e) <==> Dominated(t.all.Keys, e)
  {
    if Dominated(t.all.Keys, e) {
      var p :| p in t.all.Keys && Covers(p, e);
      assert Dominated(t.dom, p);
      var d :| d in t.dom && Covers(d, p);
      assert Covers(d, e);
    }
  }

  /** A type that was in use and is not any more. */
  predicate Leaves(before: map<Pattern, nat>, after: map<Pattern, nat>, w: Pattern) {
    w in before && w !in after
  }

  lemma PromotedOrdinary(t: Tables, es: seq<Pattern>, x: Pattern)
    requires Inv(t) && STAR_STAR !in t.all && x in RemoveTypes(t, es).all
    ensures var after := RemoveTypes(t, es).all;
            PromotedFor(t, es)[x]
            == if !Concrete(x) then 0
               else One(Leaves(t.all, after, OverName(x))) + One(Leaves(t.all, after, OverDomain(x)))
  {
    var d, lost := DropTypes(t, es), LostDominators(t, es);
    DropTypesShrinks(t, es);
    LostDominatorsExactly(t, es);
    ListsMembers(lost, t, d);
    StarStarDominates(t);
    PromotedByCounts(d.all, d.dom, lost, x);
    assert forall w :: multiset(lost)[w] == One(w in t.dom && w !in d.dom);
  }

  lemma PromotedAtStarStar(t: Tables, es: seq<Pattern>, x: Pattern)
    requires Inv(t) && STAR_STAR in t.all && x in RemoveTypes(t, es).all
    ensures var after := RemoveTypes(t, es).all;
            PromotedFor(t, es)[x]
            == One(STAR_STAR !in after && (Concrete(x) ==> OverName(x) !in after && OverDomain(x) !in after))
  {
    var d, lost := DropTypes(t, es), LostDominators(t, es);
    DropTypesShrinks(t, es);
    StarStarDominates(t);
    if STAR_STAR in d.all {
      LostDominatorsExactly(t, es);
      assert d.dom == t.dom;
      ListsMembers(lost, t, d);
    } else {
      LostStarStar(t, es);
      PromotedByStarStar(d.all, x);
      assert [STAR_STAR][..0] == [];
      assert PromotedBy(d.all, {}, [STAR_STAR]) == multiset{} + multiset(Promoted(d.all, {}, STAR_STAR));
    }
  }
}
