/** Event-type patterns of include/RDIEvent.h: normalisation, domination, and the two operations that
    apply a change list to a sequence of patterns. */
module EventTypes {
  import opened Bitmaps
  import opened Wrappers

  datatype EventType = EventType(domain: string, name: string)

  predicate Dominates(e1: EventType, e2: EventType) {
    if |e1.domain| == 0 || e1.domain == "*" then
      if e1.name == "*" || e1.name == "%ALL" then true else e1.name == e2.name
    else if e1.domain == e2.domain then
      if e1.name == "*" then true else e1.name == e2.name
    else
      false
  }

  /** What `valid_sequence` leaves behind: no empty part, no "%ALL", and no '*' inside a longer name. */
  predicate Normal(e: EventType) {
    && e.domain != "" && e.name != "" && e.name != "%ALL"
    && (|e.domain| > 1 ==> '*' !in e.domain)
    && (|e.name| > 1 ==> '*' !in e.name)
  }

  /** A normalised type with the wildcard told apart once and for all: the filter tables hold these. */
  datatype Part = Star | Name(text: string)

  datatype Pattern = Pattern(domain: Part, name: Part)

  const STAR_STAR := Pattern(Star, Star)

  function ReadPart(s: string): Part {
    if s == "*" then Star else Name(s)
  }

  function Read(e: EventType): Pattern {
    Pattern(ReadPart(e.domain), ReadPart(e.name))
  }

  predicate Covers(p: Pattern, e: Pattern) {
    (p.domain.Star? || p.domain == e.domain) && (p.name.Star? || p.name == e.name)
  }

  /** Reading loses nothing, and on normalised types domination is covering. */
  lemma DominatesIsCovers(p: EventType, e: EventType)
    ensures Read(p) == Read(e) ==> p == e
    ensures Normal(p) ==> (Dominates(p, e) <==> Covers(Read(p), Read(e)))
  {
  }

  /** The normalised types are partially ordered by domination. */
  lemma DominatesIsPartialOrder(c: EventType, d: EventType, e: EventType)
    ensures Dominates(e, e)
    ensures Normal(d) && Normal(e) && Dominates(d, e) && Dominates(e, d) ==> d == e
    ensures Normal(c) && Normal(d) && Dominates(c, d) && Dominates(d, e) ==> Dominates(c, e)
  {
  }

  /** The four keys under which an index by type files the patterns that match an event. */
  function MatchKeys(e: Pattern): set<Pattern> {
    {STAR_STAR, Pattern(e.domain, Star), Pattern(Star, e.name), e}
  }

  lemma CoversByKeys(p: Pattern, e: Pattern)
    ensures Covers(p, e) <==> p in MatchKeys(e)
  {
  }

  // ---------------------------------------------------------------------------------------------
  // Normalisation
  // ---------------------------------------------------------------------------------------------

  function Defaulted(e: EventType): EventType {
    EventType(if e.domain == "" then "*" else e.domain, if e.name == "" then "*" else e.name)
  }

  function Normalised(e: EventType): (r: Option<EventType>)
    ensures r.Some? ==> Normal(r.value)
  {
    var d := Defaulted(e);
    if d.name == "%ALL" && d.domain != "*" then None
    else
      var n := if d.name == "%ALL" then EventType("*", "*") else d;
      if (|n.name| > 1 && '*' in n.name) || (|n.domain| > 1 && '*' in n.domain) then None else Some(n)
  }

  lemma NormalisedIsTheIdentityOnNormal(e: EventType)
    ensures Normal(e) <==> Normalised(e) == Some(e)
  {
  }

  /** Only a '*' inside a longer part and "%ALL" below a domain of its own are refused; an empty part and "%ALL"
      become wildcards. */
  lemma NormalisedExactly(e: EventType)
    ensures Normalised(e).Some?
            <==> (|e.domain| > 1 ==> '*' !in e.domain) && (|e.name| > 1 ==> '*' !in e.name)
                 && (e.name == "%ALL" ==> e.domain == "" || e.domain == "*")
    ensures Normalised(e).Some? ==>
              Normalised(e).value == EventType(if e.domain == "" then "*" else e.domain,
                                               if e.name == "" || e.name == "%ALL" then "*" else e.name)
  {
    assert '*' !in "%ALL";
  }

  /** Normalising never changes which events a pattern dominates, with one exception: an empty type
      name becomes a wildcard, although domination itself reads only an empty domain as one. */
  lemma NormalisedKeepsMeaning(e: EventType)
    requires Normalised(e).Some?
    ensures (forall x :: Dominates(Normalised(e).value, x) <==> Dominates(e, x)) <==> e.name != ""
  {
    if e.name == "" {
      var x := EventType(e.domain, "x");
      assert Dominates(Normalised(e).value, x) && !Dominates(e, x);
    }
  }

  /** Normalises a sequence in place; stops at the first pattern that cannot be normalised. */
  method ValidSequence(tseq: array<EventType>) returns (ok: bool, invalidIndex: nat)
    modifies tseq
    ensures ok ==> forall i | 0 <= i < tseq.Length :: Normalised(old(tseq[i])) == Some(tseq[i])
    ensures !ok ==> invalidIndex < tseq.Length && Normalised(old(tseq[invalidIndex])) == None
    ensures !ok ==> forall i | 0 <= i < invalidIndex :: Normalised(old(tseq[i])) == Some(tseq[i])
    ensures !ok ==> tseq[invalidIndex] == Defaulted(old(tseq[invalidIndex]))
    ensures !ok ==> forall i | invalidIndex < i < tseq.Length :: tseq[i] == old(tseq[i])
  {
    invalidIndex := 0;
    for ix := 0 to tseq.Length
      invariant forall i | 0 <= i < ix :: Normalised(old(tseq[i])) == Some(tseq[i])
      invariant forall i | ix <= i < tseq.Length :: tseq[i] == old(tseq[i])
    {
      if tseq[ix].name == "" {
        tseq[ix] := tseq[ix].(name := "*");
      }
      if tseq[ix].domain == "" {
        tseq[ix] := tseq[ix].(domain := "*");
      }
      if tseq[ix].name == "%ALL" {
        if tseq[ix].domain != "*" {
          return false, ix;
        }
        tseq[ix] := tseq[ix].(name := "*");
      }
      if |tseq[ix].name| > 1 && '*' in tseq[ix].name {
        return false, ix;
      }
      if |tseq[ix].domain| > 1 && '*' in tseq[ix].domain {
        return false, ix;
      }
    }
    return true, invalidIndex;
  }

  // ---------------------------------------------------------------------------------------------
  // Change lists
  // ---------------------------------------------------------------------------------------------

  function SetOf<T>(s: seq<T>): set<T> {
    set x | x in s
  }

  /** The elements of `s` that do not occur in `t`, in order and with repetitions. */
  function Without<T(==)>(s: seq<T>, t: seq<T>): seq<T> {
    if s == [] then []
    else Without(s[..|s| - 1], t) + if s[|s| - 1] in t then [] else [s[|s| - 1]]
  }

  lemma {:induction false} WithoutMembers<T>(s: seq<T>, t: seq<T>)
    ensures forall x :: x in Without(s, t) <==> x in s && x !in t
  {
    if s != [] {
      WithoutMembers(s[..|s| - 1], t);
    }
  }

  lemma WithoutLast<T>(s: seq<T>, x: T, t: seq<T>)
    ensures Without(s + [x], t) == Without(s, t) + if x in t then [] else [x]
    ensures Without([x], t) == if x in t then [] else [x]
  {
    assert (s + [x])[..|s|] == s;
  }

  lemma Associative<T>(a: seq<T>, b: seq<T>, c: seq<T>)
    ensures (a + b) + c == a + (b + c)
  {
  }

  /** Leaving out works element by element. */
  lemma {:induction false} WithoutDistributes<T>(s: seq<T>, u: seq<T>, t: seq<T>)
    ensures Without(s + u, t) == Without(s, t) + Without(u, t)
    decreases |u|
  {
    if u == [] {
      assert s + u == s;
    } else {
      var rest, last := u[..|u| - 1], [u[|u| - 1]];
      var kept := if last[0] in t then [] else last;
      calc {
        Without(s + u, t);
        { assert u == rest + last; Associative(s, rest, last); }
        Without((s + rest) + last, t);
        { WithoutLast(s + rest, last[0], t); }
        Without(s + rest, t) + kept;
        { WithoutDistributes(s, rest, t); }
        (Without(s, t) + Without(rest, t)) + kept;
        { Associative(Without(s, t), Without(rest, t), kept); }
        Without(s, t) + (Without(rest, t) + kept);
        { assert u == rest + last; WithoutLast(rest, last[0], t); }
        Without(s, t) + Without(u, t);
      }
    }
  }

  lemma WithoutGrows<T>(s: seq<T>, t: seq<T>, n: nat)
    requires n < |s|
    ensures Without(s[..n + 1], t) == Without(s[..n], t) + if s[n] in t then [] else [s[n]]
  {
    assert s[..n + 1][..n] == s[..n];
  }

  lemma {:induction false} WithoutNothing<T>(s: seq<T>, t: seq<T>)
    requires forall x | x in s :: x !in t
    ensures Without(s, t) == s
  {
    if s != [] {
      WithoutNothing(s[..|s| - 1], t);
    }
  }

  lemma {:induction false} WithoutDependsOnMembers<T>(s: seq<T>, t: seq<T>, u: seq<T>)
    requires forall x | x in s :: x in t <==> x in u
    ensures Without(s, t) == Without(s, u)
  {
    if s != [] {
      WithoutDependsOnMembers(s[..|s| - 1], t, u);
    }
  }

  /** A sequence after its deletions (an addition of the same type saves it) and its additions. */
  function Updated<T(==)>(orgnl: seq<T>, added: seq<T>, deled: seq<T>): seq<T> {
    Without(orgnl, Without(deled, added)) + Without(added, orgnl)
  }

  function ToAdd<T(==)>(orgnl: seq<T>, added: seq<T>): seq<T> {
    Without(added, orgnl)
  }

  /** The members of `orgnl` that the change really deletes, in the order of `orgnl`. */
  function ToDelete<T(==)>(orgnl: seq<T>, added: seq<T>, deled: seq<T>): seq<T> {
    Without(orgnl, Without(orgnl, Without(deled, added)))
  }

  lemma UpdatedMembers<T(!new)>(orgnl: seq<T>, added: seq<T>, deled: seq<T>)
    ensures forall x :: x in Updated(orgnl, added, deled) <==> (x in orgnl && x !in deled) || x in added
  {
    WithoutMembers(deled, added);
    WithoutMembers(orgnl, Without(deled, added));
    WithoutMembers(added, orgnl);
  }

  /** Applying a change list directly and applying the difference computed from it agree. */
  lemma UpdatedByDifference<T>(orgnl: seq<T>, added: seq<T>, deled: seq<T>)
    ensures Updated(orgnl, ToAdd(orgnl, added), ToDelete(orgnl, added, deled)) == Updated(orgnl, added, deled)
    ensures forall x | x in ToDelete(orgnl, added, deled) :: x in orgnl && x in deled && x !in added
    ensures forall x | x in ToAdd(orgnl, added) :: x in added && x !in orgnl
  {
    var add, del := ToAdd(orgnl, added), ToDelete(orgnl, added, deled);
    WithoutMembers(deled, added);
    WithoutMembers(added, orgnl);
    WithoutMembers(orgnl, Without(deled, added));
    WithoutMembers(orgnl, Without(orgnl, Without(deled, added)));
    WithoutMembers(del, add);
    WithoutDependsOnMembers(orgnl, Without(del, add), Without(deled, added));
    WithoutNothing(add, orgnl);
  }

  /** Marks the positions of `orgnl` that a deletion names. */
  method MarkDeleted(orgnl: seq<EventType>, deled: seq<EventType>, otmap: Bitmap)
    requires otmap.Valid() && otmap.nbit == |orgnl|
    requires otmap.flags == seq(|orgnl|, i => false)
    modifies otmap.bits, otmap`flags
    ensures otmap.Valid()
    ensures forall i | 0 <= i < |orgnl| :: otmap.flags[i] <==> orgnl[i] in deled
  {
    for iz := 0 to |orgnl|
      invariant otmap.Valid()
      invariant forall i | 0 <= i < |orgnl| :: otmap.flags[i] <==> i < iz && orgnl[i] in deled
    {
      for ix := 0 to |deled|
        invariant otmap.Valid()
        invariant forall i | 0 <= i < |orgnl| && i != iz :: otmap.flags[i] <==> i < iz && orgnl[i] in deled
        invariant otmap.flags[iz] <==> orgnl[iz] in deled[..ix]
      {
        if orgnl[iz] == deled[ix] {
          otmap.SetRange(iz, 1);
        }
      }
    }
  }

  /** Compares one entry of `orgnl` with every addition: an equal addition is marked as present, and
      the entry is no longer deleted. */
  method MarkAddedRow(entry: EventType, iz: nat, added: seq<EventType>, otmap: Bitmap, ntmap: Bitmap)
    requires otmap.Valid() && iz < otmap.nbit
    requires ntmap.Valid() && ntmap.nbit == |added| && ntmap != otmap && ntmap.bits != otmap.bits
    modifies otmap.bits, otmap`flags, ntmap.bits, ntmap`flags
    ensures otmap.Valid() && ntmap.Valid()
    ensures otmap.flags == old(otmap.flags)[iz := old(otmap.flags)[iz] && entry !in added]
    ensures forall i | 0 <= i < |added| :: ntmap.flags[i] <==> old(ntmap.flags)[i] || added[i] == entry
  {
    ghost var before, present := otmap.flags, ntmap.flags;
    for ix := 0 to |added|
      invariant otmap.Valid() && ntmap.Valid()
      invariant otmap.flags == before[iz := before[iz] && forall i | 0 <= i < ix :: added[i] != entry]
      invariant forall i | 0 <= i < |added| :: ntmap.flags[i] <==> present[i] || (i < ix && added[i] == entry)
    {
      if entry == added[ix] {
        ntmap.SetRange(ix, 1);
        var marked := otmap.IsSet(iz);
        if marked {
          otmap.ClearRange(iz, 1);
        }
      }
    }
  }

  method MarkAdded(orgnl: seq<EventType>, added: seq<EventType>, ghost deled: seq<EventType>,
                   otmap: Bitmap, ntmap: Bitmap)
    requires otmap.Valid() && otmap.nbit == |orgnl|
    requires ntmap.Valid() && ntmap.nbit == |added| && ntmap != otmap && ntmap.bits != otmap.bits
    requires forall i | 0 <= i < |orgnl| :: otmap.flags[i] <==> orgnl[i] in deled
    requires ntmap.flags == seq(|added|, i => false)
    modifies otmap.bits, otmap`flags, ntmap.bits, ntmap`flags
    ensures otmap.Valid() && ntmap.Valid()
    ensures forall i | 0 <= i < |orgnl| :: otmap.flags[i] <==> orgnl[i] in deled && orgnl[i] !in added
    ensures forall i | 0 <= i < |added| :: ntmap.flags[i] <==> added[i] in orgnl
  {
    for iz := 0 to |orgnl|
      invariant otmap.Valid() && ntmap.Valid()
      invariant forall i | 0 <= i < |orgnl| :: otmap.flags[i] <==> orgnl[i] in deled && (i < iz ==> orgnl[i] !in added)
      invariant forall i | 0 <= i < |added| :: ntmap.flags[i] <==> added[i] in orgnl[..iz]
    {
      MarkAddedRow(orgnl[iz], iz, added, otmap, ntmap);
    }
  }

  method Mark(orgnl: seq<EventType>, added: seq<EventType>, deled: seq<EventType>)
    returns (otmap: Bitmap, ntmap: Bitmap)
    requires |orgnl| < UINT_RANGE && |added| < UINT_RANGE
    ensures fresh(otmap) && fresh(otmap.bits) && otmap.Valid() && otmap.nbit == |orgnl|
    ensures fresh(ntmap) && fresh(ntmap.bits) && ntmap.Valid() && ntmap.nbit == |added|
    ensures forall i | 0 <= i < |orgnl| :: otmap.flags[i] <==> orgnl[i] in deled && orgnl[i] !in added
    ensures forall i | 0 <= i < |added| :: ntmap.flags[i] <==> added[i] in orgnl
  {
    otmap := new Bitmap(|orgnl|);
    ntmap := new Bitmap(|added|);
    otmap.ClearAll();
    ntmap.ClearAll();
    if |deled| != 0 {
      MarkDeleted(orgnl, deled, otmap);
    }
    if |added| != 0 {
      MarkAdded(orgnl, added, deled, otmap, ntmap);
    }
  }

  method ComputeDiff(orgnl: seq<EventType>, added: seq<EventType>, deled: seq<EventType>)
    returns (toadd: seq<EventType>, todel: seq<EventType>)
    requires |orgnl| < UINT_RANGE && |added| < UINT_RANGE
    ensures toadd == ToAdd(orgnl, added) == Without(added, orgnl)
    ensures todel == ToDelete(orgnl, added, deled) == Without(orgnl, Without(orgnl, Without(deled, added)))
  {
    toadd, todel := [], [];
    WithoutMembers(deled, added);
    WithoutMembers(orgnl, Without(deled, added));
    var otmap, ntmap := Mark(orgnl, added, deled);
    for iz := 0 to |orgnl|
      invariant todel == Without(orgnl[..iz], Without(orgnl, Without(deled, added)))
      modifies {}
    {
      WithoutGrows(orgnl, Without(orgnl, Without(deled, added)), iz);
      var marked := otmap.IsSet(iz);
      if marked {
        todel := todel + [orgnl[iz]];
      }
    }
    assert orgnl[..|orgnl|] == orgnl;
    toadd := AddNew(orgnl, added, ntmap, []);
  }

  method AddNew(orgnl: seq<EventType>, added: seq<EventType>, ntmap: Bitmap, start: seq<EventType>)
    returns (r: seq<EventType>)
    requires ntmap.Valid() && ntmap.nbit == |added|
    requires forall i | 0 <= i < |added| :: ntmap.flags[i] <==> added[i] in orgnl
    ensures r == start + Without(added, orgnl)
  {
    r := start;
    for iz := 0 to |added|
      invariant r == start + Without(added[..iz], orgnl)
    {
      WithoutGrows(added, orgnl, iz);
      var clear := ntmap.IsClear(iz);
      if clear {
        r := r + [added[iz]];
      }
    }
    assert added[..|added|] == added;
  }

  lemma MovedDown(s: seq<EventType>, ix: nat, x: EventType)
    requires ix < |s|
    ensures s[ix := x][..ix + 1] == s[..ix] + [x]
  {
  }

  lemma BeforeFirst(s: seq<EventType>, gone: seq<EventType>, ix: nat)
    requires ix < |s| && s[ix] in gone && forall j | 0 <= j < ix :: s[j] !in gone
    ensures Without(s[..ix + 1], gone) == s[..ix]
  {
    WithoutNothing(s[..ix], gone);
    WithoutGrows(s, gone, ix);
  }

  /** Squeezes the marked entries out in place, starting at the first of them. */
  method Compact(orgnl: seq<EventType>, otmap: Bitmap, ghost gone: seq<EventType>)
    returns (result: seq<EventType>)
    requires otmap.Valid() && otmap.nbit == |orgnl|
    requires forall i | 0 <= i < |orgnl| :: otmap.flags[i] <==> orgnl[i] in gone
    requires exists i | 0 <= i < |orgnl| :: otmap.flags[i]
    ensures result == Without(orgnl, gone)
  {
    result := orgnl;
    var ix := otmap.FirstSet(0);
    BeforeFirst(orgnl, gone, ix);
    for iz := ix + 1 to |orgnl|
      invariant 0 <= ix < iz && |result| == |orgnl|
      invariant result[..ix] == Without(orgnl[..iz], gone)
      invariant forall j | iz <= j < |orgnl| :: result[j] == orgnl[j]
      modifies {}
    {
      WithoutGrows(orgnl, gone, iz);
      var clear := otmap.IsClear(iz);
      if clear {
        MovedDown(result, ix, result[iz]);
        result := result[ix := result[iz]];
        ix := ix + 1;
      }
    }
    result := result[..ix];
    assert orgnl[..|orgnl|] == orgnl;
  }

  method Update(orgnl: seq<EventType>, added: seq<EventType>, deled: seq<EventType>)
    returns (result: seq<EventType>)
    requires |orgnl| < UINT_RANGE && |added| < UINT_RANGE
    ensures result == Updated(orgnl, added, deled)
            == Without(orgnl, Without(deled, added)) + Without(added, orgnl)
  {
    ghost var gone := Without(deled, added);
    WithoutMembers(deled, added);
    var otmap, ntmap := Mark(orgnl, added, deled);
    result := orgnl;
    var nset := otmap.NumSet();
    CountTrueIsZero(otmap.flags, otmap.nbit);
    if nset != 0 {
      result := Compact(orgnl, otmap, gone);
    } else {
      WithoutNothing(orgnl, gone);
    }
    result := AddNew(orgnl, added, ntmap, result);
  }
}
