/** The whole state of a filter as a value, the effect of every public operation on it, and what holds
    after any history of operations (lib/Filter_i.cc). */
module FilterHistory {
  import opened EventTypes
  import opened FilterTables
  import opened FilterLaws
  import opened FilterChanges
  import opened Wrappers

  /** A constraint as the caller writes it; an empty list of types stands for "*::*". */
  datatype ConstraintExp = ConstraintExp(types: seq<Pattern>, expr: string)

  datatype ConstraintInfo = ConstraintInfo(id: nat, exp: ConstraintExp)

  datatype Constraint = Constraint(id: nat, types: seq<Pattern>, expr: string)

  /** `code` stands for the parse result of the expression; "true" needs none. */
  datatype ConstraintImpl = ConstraintImpl(justTypes: bool, code: string)

  datatype FilterState = FilterState(
    constraints: seq<Constraint>, impls: seq<ConstraintImpl>, tables: Tables, idCounter: nat)

  /** Which strings the constraint grammar accepts. */
  type Grammar = string -> bool

  const INITIAL := FilterState([], [], EMPTY, 0)

  predicate SaysTrue(expr: string) {
    |expr| == 4 && expr[0] in "tT" && expr[1] in "rR" && expr[2] in "uU" && expr[3] in "eE"
  }

  function Compile(expr: string): ConstraintImpl {
    ConstraintImpl(SaysTrue(expr), if SaysTrue(expr) then "" else expr)
  }

  function Create(parses: Grammar, exp: ConstraintExp): Option<ConstraintImpl> {
    if SaysTrue(exp.expr) || parses(exp.expr) then Some(Compile(exp.expr)) else None
  }

  function TypesOf(exp: ConstraintExp): seq<Pattern> {
    if exp.types == [] then [STAR_STAR] else exp.types
  }

  function Position(cs: seq<Constraint>, id: nat): (i: nat)
    ensures i <= |cs|
  {
    if cs == [] then 0 else if cs[0].id == id then 0 else 1 + Position(cs[1..], id)
  }

  predicate Exists(cs: seq<Constraint>, id: nat) {
    Position(cs, id) < |cs|
  }

  lemma {:induction false} PositionIsFirst(cs: seq<Constraint>, id: nat)
    ensures Exists(cs, id) ==> cs[Position(cs, id)].id == id
    ensures forall j | 0 <= j < Position(cs, id) :: cs[j].id != id
    ensures Exists(cs, id) <==> exists i :: 0 <= i < |cs| && cs[i].id == id
  {
    if cs != [] && cs[0].id != id {
      PositionIsFirst(cs[1..], id);
      assert forall j | 1 <= j < |cs| :: cs[j] == cs[1..][j - 1];
    }
  }

  // ---------------------------------------------------------------------------------------------
  // Operations
  // ---------------------------------------------------------------------------------------------

  function Append(s: FilterState, id: nat, exp: ConstraintExp): FilterState {
    s.(constraints := s.constraints + [Constraint(id, TypesOf(exp), exp.expr)],
       impls := s.impls + [Compile(exp.expr)],
       tables := AddTypes(s.tables, TypesOf(exp)))
  }

  function AddOne(s: FilterState, exp: ConstraintExp): FilterState {
    Append(s, s.idCounter, exp).(idCounter := s.idCounter + 1)
  }

  function AddAll(s: FilterState, clist: seq<ConstraintExp>): FilterState {
    if clist == [] then s else AddOne(AddAll(s, clist[..|clist| - 1]), clist[|clist| - 1])
  }

  /** The last element takes the place of the removed one. */
  function SwapOut<T>(s: seq<T>, i: nat): seq<T>
    requires i < |s|
  {
    if i != |s| - 1 then s[i := s[|s| - 1]][..|s| - 1] else s[..|s| - 1]
  }

  function RemoveAt(s: FilterState, i: nat): FilterState
    requires i < |s.constraints| == |s.impls|
  {
    FilterState(SwapOut(s.constraints, i), SwapOut(s.impls, i),
                RemoveTypes(s.tables, s.constraints[i].types), s.idCounter)
  }

  function RemoveId(s: FilterState, id: nat): FilterState {
    var i := Position(s.constraints, id);
    if i < |s.constraints| == |s.impls| then RemoveAt(s, i) else s
  }

  function RemoveIds(s: FilterState, ids: seq<nat>): FilterState {
    if ids == [] then s else RemoveId(RemoveIds(s, ids[..|ids| - 1]), ids[|ids| - 1])
  }

  function ReplaceAll(s: FilterState, mods: seq<ConstraintInfo>): FilterState {
    if mods == [] then s
    else
      var before, m := ReplaceAll(s, mods[..|mods| - 1]), mods[|mods| - 1];
      Append(RemoveId(before, m.id), m.id, m.exp)
  }

  function Ids(cs: seq<Constraint>): (ids: seq<nat>)
    ensures |ids| == |cs|
  {
    seq(|cs|, i requires 0 <= i < |cs| => cs[i].id)
  }

  datatype Op =
    | Add(clist: seq<ConstraintExp>)
    | Modify(dels: seq<nat>, mods: seq<ConstraintInfo>)
    | RemoveEverything

  predicate Accepts(parses: Grammar, clist: seq<ConstraintExp>) {
    forall i | 0 <= i < |clist| :: Create(parses, clist[i]).Some?
  }

  predicate AllExist(cs: seq<Constraint>, dels: seq<nat>, mods: seq<ConstraintInfo>) {
    (forall i | 0 <= i < |dels| :: Exists(cs, dels[i])) && (forall i | 0 <= i < |mods| :: Exists(cs, mods[i].id))
  }

  predicate AcceptsMods(parses: Grammar, mods: seq<ConstraintInfo>) {
    forall i | 0 <= i < |mods| :: Create(parses, mods[i].exp).Some?
  }

  /** The effect of an operation; one that names an unknown id or a malformed expression has none. */
  function Step(parses: Grammar, s: FilterState, op: Op): FilterState {
    match op
    case Add(clist) => if Accepts(parses, clist) then AddAll(s, clist) else s
    case Modify(dels, mods) =>
      if AllExist(s.constraints, dels, mods) && AcceptsMods(parses, mods)
      then ReplaceAll(RemoveIds(s, dels), mods) else s
    case RemoveEverything => RemoveIds(s, Ids(s.constraints))
  }

  predicate Disjoint(dels: seq<nat>, mods: seq<ConstraintInfo>) {
    && (forall i, j | 0 <= i < j < |dels| :: dels[i] != dels[j])
    && (forall i, j | 0 <= i < j < |mods| :: mods[i].id != mods[j].id)
    && (forall i, j | 0 <= i < |dels| && 0 <= j < |mods| :: dels[i] != mods[j].id)
  }

  /** The ids named by one call are different from each other. */
  predicate Legal(op: Op) {
    op.Modify? ==> Disjoint(op.dels, op.mods)
  }

  function Run(parses: Grammar, s: FilterState, ops: seq<Op>): FilterState {
    if ops == [] then s else Step(parses, Run(parses, s, ops[..|ops| - 1]), ops[|ops| - 1])
  }

  // ---------------------------------------------------------------------------------------------
  // The invariant of every history
  // ---------------------------------------------------------------------------------------------

  /** How often a type occurs in a list of types, and in all stored constraints. */
  function Times(es: seq<Pattern>, e: Pattern): nat {
    if es == [] then 0 else Times(es[..|es| - 1], e) + if es[|es| - 1] == e then 1 else 0
  }

  function Uses(cs: seq<Constraint>, e: Pattern): nat {
    if cs == [] then 0 else Uses(cs[..|cs| - 1], e) + Times(cs[|cs| - 1].types, e)
  }

  predicate Counts(all: map<Pattern, nat>, e: Pattern, n: nat) {
    if e in all then all[e] == n else n == 0
  }

  /** The reference counts are the numbers of occurrences. */
  ghost predicate Accounted(all: map<Pattern, nat>, cs: seq<Constraint>) {
    forall e {:trigger Uses(cs, e)} :: Counts(all, e, Uses(cs, e))
  }

  ghost predicate Aligned(cs: seq<Constraint>, impls: seq<ConstraintImpl>) {
    |cs| == |impls| && forall i | 0 <= i < |cs| :: impls[i] == Compile(cs[i].expr) && cs[i].types != []
  }

  ghost predicate IdsFresh(cs: seq<Constraint>, idCounter: nat) {
    && (forall i | 0 <= i < |cs| :: cs[i].id < idCounter)
    && (forall i, j | 0 <= i < j < |cs| :: cs[i].id != cs[j].id)
  }

  ghost predicate WellFormed(s: FilterState) {
    && Inv(s.tables)
    && Accounted(s.tables.all, s.constraints)
    && Aligned(s.constraints, s.impls)
    && IdsFresh(s.constraints, s.idCounter)
  }

  lemma {:induction false} AddTypesCounts(t: Tables, es: seq<Pattern>, e: Pattern, n: nat)
    requires Counts(t.all, e, n)
    ensures Counts(AddTypes(t, es).all, e, n + Times(es, e))
  {
    if es != [] {
      AddTypesCounts(t, es[..|es| - 1], e, n);
    }
  }

  lemma {:induction false} DropTypesCounts(t: Tables, es: seq<Pattern>, e: Pattern, n: nat)
    requires Counts(t.all, e, n) && Times(es, e) <= n && (e in t.all ==> t.all[e] > 0)
    ensures Counts(DropTypes(t, es).all, e, n - Times(es, e))
    ensures e in DropTypes(t, es).all <==> n > Times(es, e)
  {
    if es != [] {
      DropTypesCounts(t, es[..|es| - 1], e, n);
    }
  }

  lemma UsesLast(cs: seq<Constraint>, rest: seq<Constraint>, c: Constraint, e: Pattern)
    requires cs == rest + [c]
    ensures Uses(cs, e) == Uses(rest, e) + Times(c.types, e)
  {
  }

  lemma {:induction false} UsesReplace(cs: seq<Constraint>, i: nat, c: Constraint, e: Pattern)
    requires i < |cs|
    ensures Uses(cs[i := c], e) + Times(cs[i].types, e) == Uses(cs, e) + Times(c.types, e)
  {
    var rest, last := cs[..|cs| - 1], cs[|cs| - 1];
    if i == |cs| - 1 {
      UsesLast(cs[i := c], rest, c, e);
    } else {
      UsesReplace(rest, i, c, e);
      UsesLast(cs[i := c], rest[i := c], last, e);
    }
  }

  lemma UsesSwapOut(cs: seq<Constraint>, i: nat, e: Pattern)
    requires i < |cs|
    ensures Uses(SwapOut(cs, i), e) + Times(cs[i].types, e) == Uses(cs, e)
  {
    var rest, last := cs[..|cs| - 1], cs[|cs| - 1];
    if i != |cs| - 1 {
      UsesReplace(rest, i, last, e);
      assert SwapOut(cs, i) == rest[i := last];
    }
  }

  lemma AlignedSwapOut(cs: seq<Constraint>, impls: seq<ConstraintImpl>, i: nat)
    requires Aligned(cs, impls) && i < |cs|
    ensures Aligned(SwapOut(cs, i), SwapOut(impls, i))
  {
  }

  lemma RemoveAtCounts(s: FilterState, i: nat)
    requires WellFormed(s) && i < |s.constraints|
    ensures Accounted(RemoveAt(s, i).tables.all, RemoveAt(s, i).constraints)
  {
    forall e
      ensures Counts(RemoveAt(s, i).tables.all, e, Uses(RemoveAt(s, i).constraints, e))
    {
      UsesSwapOut(s.constraints, i, e);
      DropTypesCounts(s.tables, s.constraints[i].types, e, Uses(s.constraints, e));
    }
  }

  /** The removal of a constraint finds every type it looks up. */
  lemma RemovedTypesAreInUse(s: FilterState, i: nat, k: nat)
    requires WellFormed(s) && i < |s.constraints| && k < |s.constraints[i].types|
    ensures s.constraints[i].types[k] in DropTypes(s.tables, s.constraints[i].types[..k]).all
  {
    var es := s.constraints[i].types;
    UsesSwapOut(s.constraints, i, es[k]);
    TimesOfPrefix(es, k, |es|);
    DropTypesCounts(s.tables, es[..k], es[k], Uses(s.constraints, es[k]));
  }

  lemma {:induction false} TimesOfPrefix(es: seq<Pattern>, k: nat, n: nat)
    requires k < n <= |es|
    ensures Times(es[..k], es[k]) < Times(es[..n], es[k])
    ensures n == |es| ==> es[..n] == es
  {
    assert es[..n][..n - 1] == es[..n - 1];
    if k < n - 1 {
      TimesOfPrefix(es, k, n - 1);
    }
  }

  lemma AppendCounts(s: FilterState, id: nat, exp: ConstraintExp)
    requires WellFormed(s)
    ensures Accounted(Append(s, id, exp).tables.all, Append(s, id, exp).constraints)
  {
    var c := Constraint(id, TypesOf(exp), exp.expr);
    forall e
      ensures Counts(Append(s, id, exp).tables.all, e, Uses(Append(s, id, exp).constraints, e))
    {
      UsesLast(s.constraints + [c], s.constraints, c, e);
      AddTypesCounts(s.tables, c.types, e, Uses(s.constraints, e));
    }
  }

  lemma AppendKeepsWellFormed(s: FilterState, id: nat, exp: ConstraintExp, idCounter: nat)
    requires WellFormed(s)
    requires id < idCounter && s.idCounter <= idCounter && !Exists(s.constraints, id)
    ensures WellFormed(Append(s, id, exp).(idCounter := idCounter))
  {
    AddTypesKeepsInv(s.tables, TypesOf(exp));
    AppendCounts(s, id, exp);
    PositionIsFirst(s.constraints, id);
  }

  lemma AddOneKeepsWellFormed(s: FilterState, exp: ConstraintExp)
    requires WellFormed(s)
    ensures WellFormed(AddOne(s, exp))
  {
    PositionIsFirst(s.constraints, s.idCounter);
    AppendKeepsWellFormed(s, s.idCounter, exp, s.idCounter + 1);
  }

  lemma {:induction false} AddAllKeepsWellFormed(s: FilterState, clist: seq<ConstraintExp>)
    requires WellFormed(s)
    ensures WellFormed(AddAll(s, clist))
  {
    if clist != [] {
      AddAllKeepsWellFormed(s, clist[..|clist| - 1]);
      AddOneKeepsWellFormed(AddAll(s, clist[..|clist| - 1]), clist[|clist| - 1]);
    }
  }

  lemma SwapOutKeepsIds(cs: seq<Constraint>, i: nat, idCounter: nat)
    requires i < |cs| && IdsFresh(cs, idCounter)
    ensures IdsFresh(SwapOut(cs, i), idCounter)
  {
  }

  ghost predicate Distinct(cs: seq<Constraint>) {
    forall i, j | 0 <= i < j < |cs| :: cs[i].id != cs[j].id
  }

  lemma SwapOutLeaves(cs: seq<Constraint>, i: nat, id: nat)
    requires i < |cs| && Distinct(cs)
    ensures Exists(SwapOut(cs, i), id) <==> Exists(cs, id) && id != cs[i].id
    ensures Distinct(SwapOut(cs, i))
  {
    var r := SwapOut(cs, i);
    PositionIsFirst(cs, id);
    PositionIsFirst(r, id);
    if Exists(cs, id) && id != cs[i].id {
      var j :| 0 <= j < |cs| && cs[j].id == id;
      assert r[if j == |cs| - 1 then i else j].id == id;
    }
    if Exists(r, id) {
      var j :| 0 <= j < |r| && r[j].id == id;
      assert cs[if j == i then |cs| - 1 else j].id == id;
    }
  }

  lemma RemoveAtKeepsWellFormed(s: FilterState, i: nat)
    requires WellFormed(s) && i < |s.constraints|
    ensures WellFormed(RemoveAt(s, i))
  {
    RemoveTypesKeepsInv(s.tables, s.constraints[i].types);
    RemoveAtCounts(s, i);
    AlignedSwapOut(s.constraints, s.impls, i);
    SwapOutKeepsIds(s.constraints, i, s.idCounter);
  }

  lemma RemoveIdKeepsWellFormed(s: FilterState, id: nat)
    requires WellFormed(s)
    ensures WellFormed(RemoveId(s, id)) && RemoveId(s, id).idCounter == s.idCounter
  {
    PositionIsFirst(s.constraints, id);
    if Exists(s.constraints, id) {
      RemoveAtKeepsWellFormed(s, Position(s.constraints, id));
    }
  }

  lemma RemoveIdLeaves(s: FilterState, id: nat, k: nat)
    requires |s.impls| == |s.constraints| && Distinct(s.constraints)
    ensures var r := RemoveId(s, id);
            && |r.impls| == |r.constraints| && Distinct(r.constraints)
            && (Exists(r.constraints, k) <==> Exists(s.constraints, k) && k != id)
  {
    PositionIsFirst(s.constraints, id);
    if Exists(s.constraints, id) {
      SwapOutLeaves(s.constraints, Position(s.constraints, id), k);
    }
  }

  lemma {:induction false} RemoveIdsKeepsWellFormed(s: FilterState, ids: seq<nat>)
    requires WellFormed(s)
    ensures WellFormed(RemoveIds(s, ids)) && RemoveIds(s, ids).idCounter == s.idCounter
  {
    if ids != [] {
      RemoveIdsKeepsWellFormed(s, ids[..|ids| - 1]);
      RemoveIdKeepsWellFormed(RemoveIds(s, ids[..|ids| - 1]), ids[|ids| - 1]);
    }
  }

  lemma {:induction false} RemoveIdsLeaves(s: FilterState, ids: seq<nat>, k: nat)
    requires |s.impls| == |s.constraints| && Distinct(s.constraints)
    ensures var r := RemoveIds(s, ids);
            && |r.impls| == |r.constraints| && Distinct(r.constraints)
            && (Exists(r.constraints, k) <==> Exists(s.constraints, k) && k !in ids)
  {
    if ids != [] {
      var rest, last := ids[..|ids| - 1], ids[|ids| - 1];
      RemoveIdsLeaves(s, rest, k);
      RemoveIdLeaves(RemoveIds(s, rest), last, k);
      assert ids == rest + [last];
    }
  }

  // ---------------------------------------------------------------------------------------------
  // Which constraints are left
  // ---------------------------------------------------------------------------------------------

  lemma SwapOutMembers(cs: seq<Constraint>, i: nat, c: Constraint)
    requires i < |cs| && Distinct(cs)
    ensures c in SwapOut(cs, i) <==> c in cs && c.id != cs[i].id
  {
    var r := SwapOut(cs, i);
    if c in cs && c.id != cs[i].id {
      var j :| 0 <= j < |cs| && cs[j] == c;
      assert r[if j == |cs| - 1 then i else j] == c;
    }
    if c in r {
      var j :| 0 <= j < |r| && r[j] == c;
      assert cs[if j == i then |cs| - 1 else j] == c;
    }
  }

  lemma RemoveIdMembers(s: FilterState, id: nat, c: Constraint)
    requires |s.impls| == |s.constraints| && Distinct(s.constraints)
    ensures c in RemoveId(s, id).constraints <==> c in s.constraints && c.id != id
  {
    PositionIsFirst(s.constraints, id);
    if Exists(s.constraints, id) {
      SwapOutMembers(s.constraints, Position(s.constraints, id), c);
    }
  }

  /** The last constraint takes the place of the removed one. */
  lemma RemoveIdPlaces(s: FilterState, id: nat)
    requires WellFormed(s) && Exists(s.constraints, id)
    ensures var cs, r := s.constraints, RemoveId(s, id).constraints;
            |r| == |cs| - 1 && forall k | 0 <= k < |r| :: r[k] == if cs[k].id == id then cs[|r|] else cs[k]
  {
    PositionIsFirst(s.constraints, id);
  }

  /** Deleting leaves every other constraint as it was. */
  lemma {:induction false} RemoveIdsMembers(s: FilterState, ids: seq<nat>, c: Constraint)
    requires |s.impls| == |s.constraints| && Distinct(s.constraints)
    ensures c in RemoveIds(s, ids).constraints <==> c in s.constraints && c.id !in ids
  {
    if ids != [] {
      var rest, last := ids[..|ids| - 1], ids[|ids| - 1];
      RemoveIdsMembers(s, rest, c);
      RemoveIdsLeaves(s, rest, last);
      RemoveIdMembers(RemoveIds(s, rest), last, c);
      assert ids == rest + [last];
    }
  }

  /** No replacement is about this constraint. */
  predicate Unnamed(mods: seq<ConstraintInfo>, id: nat) {
    forall j | 0 <= j < |mods| :: mods[j].id != id
  }

  function Stored(m: ConstraintInfo): Constraint {
    Constraint(m.id, TypesOf(m.exp), m.exp.expr)
  }

  function Replacements(mods: seq<ConstraintInfo>): seq<Constraint> {
    seq(|mods|, j requires 0 <= j < |mods| => Stored(mods[j]))
  }

  lemma ReplacementMembers(mods: seq<ConstraintInfo>, c: Constraint)
    ensures c in Replacements(mods) <==> exists j :: 0 <= j < |mods| && c == Stored(mods[j])
  {
    if j :| 0 <= j < |mods| && c == Stored(mods[j]) {
      assert Replacements(mods)[j] == c;
    }
    if c in Replacements(mods) {
      var j :| 0 <= j < |Replacements(mods)| && Replacements(mods)[j] == c;
      assert c == Stored(mods[j]);
    }
  }

  lemma ReplacementsGrow(mods: seq<ConstraintInfo>, c: Constraint)
    requires mods != []
    ensures var rest, m := mods[..|mods| - 1], mods[|mods| - 1];
            && (c in Replacements(mods) <==> c in Replacements(rest) || c == Stored(m))
            && (Unnamed(mods, c.id) <==> Unnamed(rest, c.id) && m.id != c.id)
  {
    var rest, m := mods[..|mods| - 1], mods[|mods| - 1];
    assert mods == rest + [m] && Replacements(mods) == Replacements(rest) + [Stored(m)];
  }

  lemma ReplacedBefore(mods: seq<ConstraintInfo>, c: Constraint)
    requires mods != [] && forall i, j | 0 <= i < j < |mods| :: mods[i].id != mods[j].id
    requires c in Replacements(mods[..|mods| - 1])
    ensures c.id != mods[|mods| - 1].id
  {
    ReplacementMembers(mods[..|mods| - 1], c);
  }

  lemma ReplaceOneMembers(before: FilterState, m: ConstraintInfo, c: Constraint)
    requires |before.impls| == |before.constraints| && Distinct(before.constraints)
    ensures c in Append(RemoveId(before, m.id), m.id, m.exp).constraints
            <==> (c in before.constraints && c.id != m.id) || c == Stored(m)
  {
    RemoveIdMembers(before, m.id, c);
  }

  /** Replacing leaves every other constraint as it was and stores the new ones under their ids. */
  lemma {:induction false} ReplaceAllMembers(s: FilterState, mods: seq<ConstraintInfo>, c: Constraint)
    requires WellFormed(s) && forall i | 0 <= i < |mods| :: Exists(s.constraints, mods[i].id)
    requires forall i, j | 0 <= i < j < |mods| :: mods[i].id != mods[j].id
    ensures c in ReplaceAll(s, mods).constraints
            <==> (c in s.constraints && Unnamed(mods, c.id)) || c in Replacements(mods)
  {
    if mods != [] {
      var rest, m := mods[..|mods| - 1], mods[|mods| - 1];
      ReplaceAllMembers(s, rest, c);
      ReplaceAllKeepsWellFormed(s, rest);
      ReplaceOneMembers(ReplaceAll(s, rest), m, c);
      ReplacementsGrow(mods, c);
      if c in Replacements(rest) {
        ReplacedBefore(mods, c);
      }
    }
  }

  /** Adding leaves the stored constraints as they were and puts the new ones behind them, under fresh ids. */
  lemma {:induction false} AddAllAppends(s: FilterState, clist: seq<ConstraintExp>)
    ensures var cs, n := AddAll(s, clist).constraints, |s.constraints|;
            && AddAll(s, clist).idCounter == s.idCounter + |clist|
            && |cs| == n + |clist| && cs[..n] == s.constraints
            && forall i | 0 <= i < |clist| :: cs[n + i] == Stored(ConstraintInfo(s.idCounter + i, clist[i]))
  {
    if clist != [] {
      AddAllAppends(s, clist[..|clist| - 1]);
    }
  }

  lemma IdIsBelowCounter(s: FilterState, id: nat)
    requires WellFormed(s) && Exists(s.constraints, id)
    ensures id < s.idCounter
  {
    PositionIsFirst(s.constraints, id);
  }

  lemma {:induction false} ReplaceAllKeepsWellFormed(s: FilterState, mods: seq<ConstraintInfo>)
    requires WellFormed(s)
    requires forall i | 0 <= i < |mods| :: Exists(s.constraints, mods[i].id)
    ensures WellFormed(ReplaceAll(s, mods)) && ReplaceAll(s, mods).idCounter == s.idCounter
  {
    if mods != [] {
      var rest, m := mods[..|mods| - 1], mods[|mods| - 1];
      ReplaceAllKeepsWellFormed(s, rest);
      var before := ReplaceAll(s, rest);
      RemoveIdKeepsWellFormed(before, m.id);
      RemoveIdLeaves(before, m.id, m.id);
      IdIsBelowCounter(s, m.id);
      AppendKeepsWellFormed(RemoveId(before, m.id), m.id, m.exp, s.idCounter);
    }
  }

  lemma {:induction false} ReplaceAllLeaves(s: FilterState, mods: seq<ConstraintInfo>, k: nat)
    requires WellFormed(s)
    requires forall i | 0 <= i < |mods| :: Exists(s.constraints, mods[i].id)
    ensures Exists(ReplaceAll(s, mods).constraints, k) <==> Exists(s.constraints, k)
  {
    if mods != [] {
      var rest, m := mods[..|mods| - 1], mods[|mods| - 1];
      var before := ReplaceAll(s, rest);
      ReplaceAllLeaves(s, rest, k);
      ReplaceAllLeaves(s, rest, m.id);
      ReplaceAllKeepsWellFormed(s, rest);
      RemoveIdLeaves(before, m.id, k);
      var removed := RemoveId(before, m.id).constraints;
      AppendLeaves(removed, Constraint(m.id, TypesOf(m.exp), m.exp.expr), k);
    }
  }

  lemma AppendLeaves(cs: seq<Constraint>, c: Constraint, k: nat)
    ensures Exists(cs + [c], k) <==> Exists(cs, k) || k == c.id
  {
    PositionIsFirst(cs, k);
    PositionIsFirst(cs + [c], k);
    if Exists(cs, k) {
      assert (cs + [c])[Position(cs, k)].id == k;
    }
    assert (cs + [c])[|cs|] == c;
  }

  lemma StepKeepsWellFormed(parses: Grammar, s: FilterState, op: Op)
    requires WellFormed(s) && Legal(op)
    ensures WellFormed(Step(parses, s, op))
  {
    match op {
      case Add(clist) =>
        AddAllKeepsWellFormed(s, clist);
      case Modify(dels, mods) =>
        if AllExist(s.constraints, dels, mods) && AcceptsMods(parses, mods) {
          RemoveIdsKeepsWellFormed(s, dels);
          forall i | 0 <= i < |mods|
            ensures Exists(RemoveIds(s, dels).constraints, mods[i].id)
          {
            RemoveIdsLeaves(s, dels, mods[i].id);
          }
          ReplaceAllKeepsWellFormed(RemoveIds(s, dels), mods);
        }
      case RemoveEverything =>
        RemoveIdsKeepsWellFormed(s, Ids(s.constraints));
    }
  }

  /** After any history of additions, modifications and removals: the tables are covering, with "*::*"
      alone when it dominates; counts are numbers of occurrences; ids are unique and below the counter;
      and every constraint still stands beside its own implementation. */
  lemma {:induction false} EveryHistoryIsWellFormed(parses: Grammar, ops: seq<Op>)
    requires forall i | 0 <= i < |ops| :: Legal(ops[i])
    ensures WellFormed(Run(parses, INITIAL, ops))
  {
    if ops != [] {
      EveryHistoryIsWellFormed(parses, ops[..|ops| - 1]);
      StepKeepsWellFormed(parses, Run(parses, INITIAL, ops[..|ops| - 1]), ops[|ops| - 1]);
    }
  }

  lemma {:induction false} RemoveEverythingEmpties(parses: Grammar, s: FilterState)
    requires WellFormed(s)
    ensures Step(parses, s, RemoveEverything).constraints == [] && Step(parses, s, RemoveEverything).tables == EMPTY
  {
    var ids, r := Ids(s.constraints), Step(parses, s, RemoveEverything);
    RemoveIdsKeepsWellFormed(s, ids);
    assert forall i | 0 <= i < |s.constraints| :: s.constraints[i].id == ids[i];
    if r.constraints != [] {
      var k := r.constraints[0].id;
      RemoveIdsLeaves(s, ids, k);
      PositionIsFirst(r.constraints, k);
      PositionIsFirst(s.constraints, k);
    }
    forall e
      ensures e !in r.tables.all
    {
      assert Counts(r.tables.all, e, Uses(r.constraints, e));
    }
    assert r.tables.all == map[];
  }

  // ---------------------------------------------------------------------------------------------
  // The changes of the tables behind an operation
  // ---------------------------------------------------------------------------------------------

  function TypesAt(s: FilterState, id: nat): seq<Pattern> {
    var i := Position(s.constraints, id);
    if i < |s.constraints| == |s.impls| then s.constraints[i].types else []
  }

  function EnterChanges(clist: seq<ConstraintExp>): (cs: seq<Change>)
    ensures OnlyEnter(cs)
  {
    if clist == [] then [] else EnterChanges(clist[..|clist| - 1]) + [Enter(TypesOf(clist[|clist| - 1]))]
  }

  function LeaveChanges(s: FilterState, ids: seq<nat>): (cs: seq<Change>)
    ensures OnlyLeave(cs)
  {
    if ids == [] then []
    else LeaveChanges(s, ids[..|ids| - 1]) + [Leave(TypesAt(RemoveIds(s, ids[..|ids| - 1]), ids[|ids| - 1]))]
  }

  function ReplaceChanges(s: FilterState, mods: seq<ConstraintInfo>): seq<Change> {
    if mods == [] then []
    else
      var rest, m := mods[..|mods| - 1], mods[|mods| - 1];
      ReplaceChanges(s, rest) + [Leave(TypesAt(ReplaceAll(s, rest), m.id)), Enter(TypesOf(m.exp))]
  }

  /** The types that enter and leave the tables in one operation, constraint by constraint. */
  function Changes(parses: Grammar, s: FilterState, op: Op): seq<Change> {
    match op
    case Add(clist) => if Accepts(parses, clist) then EnterChanges(clist) else []
    case Modify(dels, mods) =>
      if AllExist(s.constraints, dels, mods) && AcceptsMods(parses, mods)
      then LeaveChanges(s, dels) + ReplaceChanges(RemoveIds(s, dels), mods) else []
    case RemoveEverything => LeaveChanges(s, Ids(s.constraints))
  }

  function RunChanges(parses: Grammar, s: FilterState, ops: seq<Op>): seq<Change> {
    if ops == [] then []
    else
      var rest := ops[..|ops| - 1];
      RunChanges(parses, s, rest) + Changes(parses, Run(parses, s, rest), ops[|ops| - 1])
  }

  lemma {:induction false} AddAllChanges(s: FilterState, clist: seq<ConstraintExp>)
    ensures AddAll(s, clist).tables == ApplyAll(s.tables, EnterChanges(clist))
  {
    if clist != [] {
      var rest := clist[..|clist| - 1];
      AddAllChanges(s, rest);
      OneMoreChange(s.tables, EnterChanges(rest), Enter(TypesOf(clist[|clist| - 1])));
    }
  }

  lemma RemoveIdChanges(s: FilterState, id: nat)
    ensures RemoveId(s, id).tables == RemoveTypes(s.tables, TypesAt(s, id))
  {
  }

  lemma {:induction false} RemoveIdsChanges(s: FilterState, ids: seq<nat>)
    ensures RemoveIds(s, ids).tables == ApplyAll(s.tables, LeaveChanges(s, ids))
  {
    if ids != [] {
      var rest, id := ids[..|ids| - 1], ids[|ids| - 1];
      RemoveIdsChanges(s, rest);
      RemoveIdChanges(RemoveIds(s, rest), id);
      OneMoreChange(s.tables, LeaveChanges(s, rest), Leave(TypesAt(RemoveIds(s, rest), id)));
    }
  }

  lemma {:induction false} ReplaceAllChanges(s: FilterState, mods: seq<ConstraintInfo>)
    ensures ReplaceAll(s, mods).tables == ApplyAll(s.tables, ReplaceChanges(s, mods))
  {
    if mods != [] {
      var rest, m := mods[..|mods| - 1], mods[|mods| - 1];
      var before := ReplaceAll(s, rest);
      var c, d := Leave(TypesAt(before, m.id)), Enter(TypesOf(m.exp));
      ReplaceAllChanges(s, rest);
      RemoveIdChanges(before, m.id);
      MoreChanges(s.tables, ReplaceChanges(s, rest), [c, d]);
      TwoChanges(before.tables, c, d);
    }
  }

  lemma StepChanges(parses: Grammar, s: FilterState, op: Op)
    ensures Step(parses, s, op).tables == ApplyAll(s.tables, Changes(parses, s, op))
  {
    match op {
      case Add(clist) =>
        AddAllChanges(s, clist);
      case Modify(dels, mods) =>
        RemoveIdsChanges(s, dels);
        ReplaceAllChanges(RemoveIds(s, dels), mods);
        MoreChanges(s.tables, LeaveChanges(s, dels), ReplaceChanges(RemoveIds(s, dels), mods));
      case RemoveEverything =>
        RemoveIdsChanges(s, Ids(s.constraints));
    }
  }

  lemma {:induction false} RunIsChanges(parses: Grammar, s: FilterState, ops: seq<Op>)
    ensures Run(parses, s, ops).tables == ApplyAll(s.tables, RunChanges(parses, s, ops))
  {
    if ops != [] {
      var rest, op := ops[..|ops| - 1], ops[|ops| - 1];
      var before := Run(parses, s, rest);
      RunIsChanges(parses, s, rest);
      StepChanges(parses, before, op);
      MoreChanges(s.tables, RunChanges(parses, s, rest), Changes(parses, before, op));
    }
  }

  /** Over any history the dominating table is the set of maximal types in use, after every change of
      every operation, if and only if every removal is gentle; in particular if every removal is mild. */
  lemma GentleHistoryIsMaximal(parses: Grammar, ops: seq<Op>)
    ensures var cs := RunChanges(parses, INITIAL, ops);
            && Run(parses, INITIAL, ops).tables == ApplyAll(EMPTY, cs)
            && (AlwaysMinimal(EMPTY, cs) <==> AllGentle(EMPTY, cs))
            && (AlwaysMinimal(EMPTY, cs) ==> Maximal(Run(parses, INITIAL, ops).tables))
            && (AllMild(EMPTY, cs) ==> AllGentle(EMPTY, cs))
  {
    var cs := RunChanges(parses, INITIAL, ops);
    RunIsChanges(parses, INITIAL, ops);
    AlwaysMinimalExactly(EMPTY, cs);
    if AllMild(EMPTY, cs) {
      MildIsMinimal(EMPTY, cs);
    }
  }

  /** The one notification that an operation sends is exact. */
  ghost predicate TellsExactly(parses: Grammar, s: FilterState, op: Op) {
    ToldExactly(s.tables, Changes(parses, s, op))
  }

  lemma AddTellsExactly(parses: Grammar, s: FilterState, clist: seq<ConstraintExp>)
    requires WellFormed(s)
    ensures TellsExactly(parses, s, Add(clist))
  {
    AdditionsAreExact(s.tables, Changes(parses, s, Add(clist)));
  }

  /** Removing everything is told exactly if and only if no dominating type outlives another one that
      covers it. */
  lemma RemoveEverythingTellsExactly(parses: Grammar, s: FilterState)
    requires WellFormed(s)
    ensures TellsExactly(parses, s, RemoveEverything)
            <==> forall x :: !Relisted(s.tables, LeaveChanges(s, Ids(s.constraints)), x)
  {
    var cs := LeaveChanges(s, Ids(s.constraints));
    RemovalsAreExact(s.tables, cs);
    RemoveIdsChanges(s, Ids(s.constraints));
    RemoveEverythingEmpties(parses, s);
  }

  lemma OnlyDeletions(parses: Grammar, s: FilterState, dels: seq<nat>)
    requires AllExist(s.constraints, dels, [])
    ensures Changes(parses, s, Modify(dels, [])) == LeaveChanges(s, dels)
  {
    assert ReplaceChanges(RemoveIds(s, dels), []) == [];
  }

  /** Deletions are told exactly if and only if no dominating type outlives another one that covers it
      and no type is left by two wildcards. */
  lemma DeletionsTellExactly(parses: Grammar, s: FilterState, dels: seq<nat>)
    requires WellFormed(s) && AllExist(s.constraints, dels, [])
    ensures var cs := LeaveChanges(s, dels);
            TellsExactly(parses, s, Modify(dels, []))
            <==> forall x :: !Relisted(s.tables, cs, x) && !Doubled(s.tables, cs, x)
  {
    OnlyDeletions(parses, s, dels);
    RemovalsAreExact(s.tables, LeaveChanges(s, dels));
  }

  lemma OneReplacement(parses: Grammar, s: FilterState, m: ConstraintInfo)
    requires AllExist(s.constraints, [], [m]) && AcceptsMods(parses, [m])
    ensures Changes(parses, s, Modify([], [m])) == [Leave(TypesAt(s, m.id)), Enter(TypesOf(m.exp))]
  {
    var cs := [Leave(TypesAt(s, m.id)), Enter(TypesOf(m.exp))];
    assert [m][..0] == [] && ReplaceAll(s, []) == s && ReplaceChanges(s, []) == [];
    assert ReplaceChanges(s, [m]) == [] + cs == cs;
    assert RemoveIds(s, []) == s && LeaveChanges(s, []) == [] && [] + cs == cs;
  }

  /** A replacement is told exactly if and only if it misleads about no type. */
  lemma ReplacementTellsExactly(parses: Grammar, s: FilterState, m: ConstraintInfo)
    requires WellFormed(s) && AllExist(s.constraints, [], [m]) && AcceptsMods(parses, [m])
    ensures TellsExactly(parses, s, Modify([], [m]))
            <==> forall x :: !Misled(s.tables, TypesAt(s, m.id), TypesOf(m.exp), x)
  {
    OneReplacement(parses, s, m);
    ReplacementIsExact(s.tables, TypesAt(s, m.id), TypesOf(m.exp));
  }

  /** Any call that deletes and replaces constraints is told exactly if and only if no type takes a course that
      misleads: one can tell before the call, from the uses, who is dominating and the types in the call. */
  lemma ModificationTellsExactly(parses: Grammar, s: FilterState, dels: seq<nat>, mods: seq<ConstraintInfo>)
    requires WellFormed(s)
    ensures var cs := Changes(parses, s, Modify(dels, mods));
            TellsExactly(parses, s, Modify(dels, mods))
            <==> forall x :: !Misleads(x in s.tables.dom, CourseOf(x in s.tables.dom, s.tables.all, cs, x))
  {
    CoursesDecide(s.tables, Changes(parses, s, Modify(dels, mods)));
  }
}
