/** The two event-type tables of a filter (lib/Filter_i.cc) as values, the effect of adding and removing
    the types of a constraint, and what every such change keeps. */
module FilterTables {
  import opened EventTypes

  /** `all` counts the uses of every type; `dom` holds the dominating types. */
  datatype Tables = Tables(all: map<Pattern, nat>, dom: set<Pattern>)

  const EMPTY := Tables(map[], {})

  predicate Dominated(dom: set<Pattern>, e: Pattern) {
    exists d {:trigger Covers(d, e)} :: d in dom && Covers(d, e)
  }

  predicate Concrete(e: Pattern) {
    !e.domain.Star? && !e.name.Star?
  }

  // ---------------------------------------------------------------------------------------------
  // Adding types
  // ---------------------------------------------------------------------------------------------

  /** The dominating entries a new undominated type pushes out, case by case. */
  function Displaced(dom: set<Pattern>, e: Pattern): set<Pattern> {
    if e.domain.Star? && e.name.Star? then dom
    else if e.domain.Star? then set d | d in dom && !d.domain.Star? && d.name == e.name
    else if e.name.Star? then set d | d in dom && d.domain == e.domain && !d.name.Star?
    else {}
  }

  predicate Enters(t: Tables, e: Pattern) {
    e !in t.all && !Dominated(t.dom, e)
  }

  function AddType(t: Tables, e: Pattern): Tables {
    if e in t.all then t.(all := t.all[e := t.all[e] + 1])
    else if Dominated(t.dom, e) then t.(all := t.all[e := 1])
    else Tables(t.all[e := 1], t.dom - Displaced(t.dom, e) + {e})
  }

  function AddTypes(t: Tables, es: seq<Pattern>): Tables {
    if es == [] then t else AddType(AddTypes(t, es[..|es| - 1]), es[|es| - 1])
  }

  /** The types recorded as added to the dominating table, as often as they are recorded. */
  function AddedBy(t: Tables, es: seq<Pattern>): multiset<Pattern> {
    if es == [] then multiset{}
    else
      var before := AddTypes(t, es[..|es| - 1]);
      AddedBy(t, es[..|es| - 1]) + if Enters(before, es[|es| - 1]) then multiset{es[|es| - 1]} else multiset{}
  }

  /** The types recorded as removed from the dominating table while adding. */
  function DisplacedBy(t: Tables, es: seq<Pattern>): set<Pattern> {
    if es == [] then {}
    else
      var before := AddTypes(t, es[..|es| - 1]);
      DisplacedBy(t, es[..|es| - 1])
      + if Enters(before, es[|es| - 1]) then Displaced(before.dom, es[|es| - 1]) else {}
  }

  // ---------------------------------------------------------------------------------------------
  // Removing types
  // ---------------------------------------------------------------------------------------------

  function DropType(t: Tables, e: Pattern): Tables {
    if e !in t.all then t
    else if t.all[e] > 1 then t.(all := t.all[e := t.all[e] - 1])
    else Tables(t.all - {e}, t.dom - {e})
  }

  function DropTypes(t: Tables, es: seq<Pattern>): Tables {
    if es == [] then t else DropType(DropTypes(t, es[..|es| - 1]), es[|es| - 1])
  }

  /** The dominating types that lose their last use, in the order the constraint lists them. */
  function LostDominators(t: Tables, es: seq<Pattern>): seq<Pattern> {
    if es == [] then []
    else
      var before, e := DropTypes(t, es[..|es| - 1]), es[|es| - 1];
      LostDominators(t, es[..|es| - 1]) + if e in before.dom && e !in DropType(before, e).all then [e] else []
  }

  function Wildcards(all: map<Pattern, nat>): set<Pattern> {
    set k | k in all && (k.name.Star? || k.domain.Star?)
  }

  function Uncovered(all: map<Pattern, nat>, dom: set<Pattern>): set<Pattern> {
    set k | k in all && !k.name.Star? && !k.domain.Star? && !Dominated(dom, k)
  }

  /** The types that the loss of the dominating type `e` brings (back) into the dominating table. */
  function Promoted(all: map<Pattern, nat>, dom: set<Pattern>, e: Pattern): set<Pattern> {
    if e.domain.Star? && e.name.Star? then
      var wild := Wildcards(all);
      wild + Uncovered(all, dom + wild)
    else if e.domain.Star? then set k | k in all && k.name == e.name
    else if e.name.Star? then set k | k in all && k.domain == e.domain
    else {}
  }

  function PromoteAll(all: map<Pattern, nat>, dom: set<Pattern>, lost: seq<Pattern>): set<Pattern> {
    if lost == [] then dom
    else
      var before := PromoteAll(all, dom, lost[..|lost| - 1]);
      before + Promoted(all, before, lost[|lost| - 1])
  }

  /** All the types recorded as added while removing: one entry for each lost type that brings them in. */
  function PromotedBy(all: map<Pattern, nat>, dom: set<Pattern>, lost: seq<Pattern>): multiset<Pattern> {
    if lost == [] then multiset{}
    else
      PromotedBy(all, dom, lost[..|lost| - 1])
      + multiset(Promoted(all, PromoteAll(all, dom, lost[..|lost| - 1]), lost[|lost| - 1]))
  }

  function RemoveTypes(t: Tables, es: seq<Pattern>): Tables {
    var dropped := DropTypes(t, es);
    Tables(dropped.all, PromoteAll(dropped.all, dropped.dom, LostDominators(t, es)))
  }

  // ---------------------------------------------------------------------------------------------
  // The invariant
  // ---------------------------------------------------------------------------------------------

  predicate Covered(t: Tables) {
    forall e {:trigger Dominated(t.dom, e)} | e in t.all :: Dominated(t.dom, e)
  }

  ghost predicate Inv(t: Tables) {
    && (forall e | e in t.all :: t.all[e] > 0)
    && t.dom <= t.all.Keys
    && Covered(t)
    && (STAR_STAR in t.dom ==> t.dom == {STAR_STAR})
  }

  lemma AddTypeKeepsInv(t: Tables, e: Pattern)
    requires Inv(t)
    ensures Inv(AddType(t, e))
  {
    var t' := AddType(t, e);
    if Enters(t, e) {
      forall k | k in t'.all
        ensures Dominated(t'.dom, k)
      {
        if k == e {
          assert Covers(e, e);
        } else {
          assert Dominated(t.dom, k);
          var d :| d in t.dom && Covers(d, k);
          if d in Displaced(t.dom, e) {
            assert Covers(e, k);
          } else {
            assert d in t'.dom;
          }
        }
      }
      if STAR_STAR in t.dom {
        assert Covers(STAR_STAR, e);
      }
    }
  }

  lemma {:induction false} AddTypesKeepsInv(t: Tables, es: seq<Pattern>)
    requires Inv(t)
    ensures Inv(AddTypes(t, es))
  {
    if es != [] {
      AddTypesKeepsInv(t, es[..|es| - 1]);
      AddTypeKeepsInv(AddTypes(t, es[..|es| - 1]), es[|es| - 1]);
    }
  }

  /** What dropping types can do to the tables: uses disappear, and a dominating type leaves exactly
      when its last use does. */
  ghost predicate Shrunk(t: Tables, d: Tables) {
    && (forall e | e in d.all :: e in t.all && d.all[e] > 0)
    && (forall e :: e in d.dom <==> e in t.dom && e in d.all)
  }

  lemma DropTypeShrinks(t: Tables, d: Tables, e: Pattern)
    requires Shrunk(t, d)
    ensures Shrunk(t, DropType(d, e))
  {
  }

  lemma {:induction false} DropTypesShrinks(t: Tables, es: seq<Pattern>)
    requires Inv(t)
    ensures Shrunk(t, DropTypes(t, es))
  {
    if es != [] {
      DropTypesShrinks(t, es[..|es| - 1]);
      DropTypeShrinks(t, DropTypes(t, es[..|es| - 1]), es[|es| - 1]);
    }
  }

  /** `lost` lists, each once, the dominating types of `t` that have left in `d`. */
  ghost predicate Lists(lost: seq<Pattern>, t: Tables, d: Tables) {
    multiset(lost) == multiset(t.dom - d.dom)
  }

  lemma ListsMembers(lost: seq<Pattern>, t: Tables, d: Tables)
    requires Lists(lost, t, d)
    ensures forall e :: e in lost <==> e in t.dom && e !in d.dom
    ensures t.dom == d.dom ==> lost == []
    ensures forall e | t.dom == d.dom + {e} && e !in d.dom :: lost == [e]
  {
    forall e
      ensures e in lost <==> e in t.dom && e !in d.dom
    {
      assert e in lost <==> e in multiset(lost);
    }
    if t.dom == d.dom {
      assert t.dom - d.dom == {};
      assert |multiset(lost)| == 0;
    }
    forall e | t.dom == d.dom + {e} && e !in d.dom
      ensures lost == [e]
    {
      assert t.dom - d.dom == {e};
      assert multiset(lost) == multiset{e};
      assert |multiset(lost)| == 1;
      assert lost[0] in multiset(lost);
    }
  }

  lemma ListsOneMore(lost: seq<Pattern>, t: Tables, d: Tables, e: Pattern)
    requires Shrunk(t, d) && Lists(lost, t, d)
    ensures Lists(lost + if e in d.dom && e !in DropType(d, e).all then [e] else [], t, DropType(d, e))
  {
  }

  lemma {:induction false} LostDominatorsExactly(t: Tables, es: seq<Pattern>)
    requires Inv(t)
    ensures Lists(LostDominators(t, es), t, DropTypes(t, es))
  {
    if es != [] {
      var rest := es[..|es| - 1];
      LostDominatorsExactly(t, rest);
      DropTypesShrinks(t, rest);
      ListsOneMore(LostDominators(t, rest), t, DropTypes(t, rest), es[|es| - 1]);
    }
  }

  lemma PromotedInUse(all: map<Pattern, nat>, dom: set<Pattern>, e: Pattern)
    ensures Promoted(all, dom, e) <= all.Keys
  {
  }

  lemma {:induction false} PromoteAllBounds(all: map<Pattern, nat>, dom: set<Pattern>, lost: seq<Pattern>)
    requires dom <= all.Keys
    ensures dom <= PromoteAll(all, dom, lost) <= all.Keys
    ensures forall k :: k in PromoteAll(all, dom, lost) <==> k in dom || k in PromotedBy(all, dom, lost)
  {
    if lost != [] {
      PromoteAllBounds(all, dom, lost[..|lost| - 1]);
      PromotedInUse(all, PromoteAll(all, dom, lost[..|lost| - 1]), lost[|lost| - 1]);
    }
  }

  /** When only ordinary wildcards were lost, the promotions do not depend on their order. */
  lemma {:induction false} PromotedByMembers(all: map<Pattern, nat>, dom: set<Pattern>, lost: seq<Pattern>)
    requires STAR_STAR !in lost
    ensures forall k :: k in PromotedBy(all, dom, lost) <==> exists e | e in lost :: k in Promoted(all, {}, e)
  {
    if lost != [] {
      var rest, last := lost[..|lost| - 1], lost[|lost| - 1];
      PromotedByMembers(all, dom, rest);
      assert lost == rest + [last];
      assert last == Pattern(last.domain, last.name);
      assert Promoted(all, PromoteAll(all, dom, rest), last) == Promoted(all, {}, last);
    }
  }

  lemma LostStarStar(t: Tables, es: seq<Pattern>)
    requires Inv(t) && STAR_STAR in t.dom && STAR_STAR !in DropTypes(t, es).all
    ensures LostDominators(t, es) == [STAR_STAR]
    ensures DropTypes(t, es).dom == {}
  {
    var d := DropTypes(t, es);
    DropTypesShrinks(t, es);
    LostDominatorsExactly(t, es);
    assert d.dom == {} && t.dom == d.dom + {STAR_STAR};
    ListsMembers(LostDominators(t, es), t, d);
  }

  /** With "*::*" gone, the promoted wildcards and the types none of them covers cover everything. */
  lemma RemoveStarStarKeepsInv(t: Tables, es: seq<Pattern>)
    requires Inv(t) && STAR_STAR in t.dom && STAR_STAR !in DropTypes(t, es).all
    ensures Inv(RemoveTypes(t, es))
    ensures RemoveTypes(t, es).dom == Promoted(DropTypes(t, es).all, {}, STAR_STAR)
  {
    var d, t' := DropTypes(t, es), RemoveTypes(t, es);
    DropTypesShrinks(t, es);
    LostStarStar(t, es);
    assert [STAR_STAR][..0] == [];
    assert PromoteAll(d.all, {}, []) == {};
    assert t'.dom == {} + Promoted(d.all, {}, STAR_STAR);
    forall k | k in t'.all
      ensures Dominated(t'.dom, k)
    {
      assert Covers(k, k);
      if k !in t'.dom {
        var w :| w in {} + Wildcards(d.all) && Covers(w, k);
        assert w in t'.dom;
      }
    }
  }

  /** Promotions by ordinary wildcards: the table grows by what each lost wildcard covers. */
  lemma RemoveOrdinary(t: Tables, es: seq<Pattern>)
    requires Inv(t) && (STAR_STAR in t.dom ==> STAR_STAR in DropTypes(t, es).all)
    ensures var d, lost, t' := DropTypes(t, es), LostDominators(t, es), RemoveTypes(t, es);
            && t'.all == d.all && t'.dom <= t'.all.Keys && STAR_STAR !in lost
            && forall k :: k in t'.dom <==> k in d.dom || exists e | e in lost :: k in Promoted(d.all, {}, e)
  {
    var d, lost, t' := DropTypes(t, es), LostDominators(t, es), RemoveTypes(t, es);
    DropTypesShrinks(t, es);
    LostDominatorsExactly(t, es);
    ListsMembers(lost, t, d);
    PromoteAllBounds(d.all, d.dom, lost);
    PromotedByMembers(d.all, d.dom, lost);
  }

  lemma RemoveOrdinaryCovers(t: Tables, es: seq<Pattern>)
    requires Inv(t) && (STAR_STAR in t.dom ==> STAR_STAR in DropTypes(t, es).all)
    ensures Covered(RemoveTypes(t, es))
  {
    var d, lost, t' := DropTypes(t, es), LostDominators(t, es), RemoveTypes(t, es);
    DropTypesShrinks(t, es);
    LostDominatorsExactly(t, es);
    ListsMembers(lost, t, d);
    RemoveOrdinary(t, es);
    forall k | k in t'.all
      ensures Dominated(t'.dom, k)
    {
      assert Dominated(t.dom, k);
      var w :| w in t.dom && Covers(w, k);
      if w !in d.dom {
        assert w in lost;
        PromotedUnderLost(d.all, w, k);
        assert k in t'.dom && Covers(k, k);
      }
    }
  }

  lemma RemoveOrdinaryKeepsStarAlone(t: Tables, es: seq<Pattern>)
    requires Inv(t) && (STAR_STAR in t.dom ==> STAR_STAR in DropTypes(t, es).all)
    requires STAR_STAR in RemoveTypes(t, es).dom
    ensures RemoveTypes(t, es).dom == {STAR_STAR}
  {
    var d, lost := DropTypes(t, es), LostDominators(t, es);
    DropTypesShrinks(t, es);
    LostDominatorsExactly(t, es);
    RemoveOrdinary(t, es);
    StarStarIsNotPromoted(d.all, lost);
    assert t.dom == {STAR_STAR} == d.dom;
    ListsMembers(lost, t, d);
    assert [] + lost == lost;
  }

  /** A remaining type that a lost ordinary dominator covers is promoted. */
  lemma PromotedUnderLost(all: map<Pattern, nat>, w: Pattern, k: Pattern)
    requires w != STAR_STAR && w !in all && k in all && Covers(w, k)
    ensures k in Promoted(all, {}, w)
  {
  }

  lemma StarStarIsNotPromoted(all: map<Pattern, nat>, lost: seq<Pattern>)
    requires STAR_STAR !in lost
    ensures forall e | e in lost :: STAR_STAR !in Promoted(all, {}, e)
  {
  }

  lemma RemoveTypesKeepsInv(t: Tables, es: seq<Pattern>)
    requires Inv(t)
    ensures Inv(RemoveTypes(t, es))
  {
    if STAR_STAR in t.dom && STAR_STAR !in DropTypes(t, es).all {
      RemoveStarStarKeepsInv(t, es);
    } else {
      DropTypesShrinks(t, es);
      RemoveOrdinary(t, es);
      RemoveOrdinaryCovers(t, es);
      if STAR_STAR in RemoveTypes(t, es).dom {
        RemoveOrdinaryKeepsStarAlone(t, es);
      }
    }
  }
}
