/** Which events a filter accepts, told by the constraints as their callers wrote them. */
module FilterMatching {
  import opened EventTypes
  import opened FilterTables
  import opened FilterHistory
  import opened Wrappers

  datatype Event = Event(etype: EventType, body: string)

  type Evaluator = (string, Event) -> bool

  function Lower(c: char): char {
    if 'A' <= c <= 'Z' then (c as int - 'A' as int + 'a' as int) as char else c
  }

  function Lowered(s: string): string {
    seq(|s|, i requires 0 <= i < |s| => Lower(s[i]))
  }

  /** The expression "true", in any case of letters, holds of every event; the others are evaluated. */
  predicate Holds(expr: string, event: Event, eval: Evaluator) {
    Lowered(expr) == "true" || eval(expr, event)
  }

  /** A constraint matches the events of its types, or of all types if it names none, of which it holds. */
  predicate Matches(types: seq<Pattern>, expr: string, event: Event, eval: Evaluator) {
    && (types == [] || exists i :: 0 <= i < |types| && Covers(types[i], Read(event.etype)))
    && Holds(expr, event, eval)
  }

  ghost predicate AnyMatches(cs: seq<Constraint>, event: Event, eval: Evaluator) {
    exists c :: c in cs && Matches(c.types, c.expr, event, eval)
  }

  /** A filter without constraints accepts everything. */
  ghost predicate Accepted(cs: seq<Constraint>, event: Event, eval: Evaluator) {
    cs == [] || AnyMatches(cs, event, eval)
  }

  ghost predicate SomeMatches(clist: seq<ConstraintExp>, event: Event, eval: Evaluator) {
    exists i :: 0 <= i < |clist| && Matches(clist[i].types, clist[i].expr, event, eval)
  }

  /** What a filter with constraints `cs` accepts once those of `clist` have been added. */
  ghost predicate AcceptedWith(cs: seq<Constraint>, clist: seq<ConstraintExp>, event: Event, eval: Evaluator) {
    || (cs == [] && clist == [])
    || AnyMatches(cs, event, eval)
    || SomeMatches(clist, event, eval)
  }

  /** The constraint is neither deleted nor replaced. */
  predicate Stays(dels: seq<nat>, mods: seq<ConstraintInfo>, c: Constraint) {
    c.id !in dels && Unnamed(mods, c.id)
  }

  ghost predicate SomeReplaces(mods: seq<ConstraintInfo>, event: Event, eval: Evaluator) {
    exists j :: 0 <= j < |mods| && Matches(mods[j].exp.types, mods[j].exp.expr, event, eval)
  }

  /** What it accepts once it has been modified: the constraints that stay decide, and the replacements. */
  ghost predicate AcceptedAfter(cs: seq<Constraint>, dels: seq<nat>, mods: seq<ConstraintInfo>, event: Event,
                                eval: Evaluator) {
    || (mods == [] && forall c | c in cs :: !Stays(dels, mods, c))
    || (exists c :: c in cs && Stays(dels, mods, c) && Matches(c.types, c.expr, event, eval))
    || SomeReplaces(mods, event, eval)
  }

  /** The constraints `now` accept every event as stated. */
  ghost predicate AcceptsAlso(before: seq<Constraint>, clist: seq<ConstraintExp>, now: seq<Constraint>,
                              eval: Evaluator) {
    forall event :: Accepted(now, event, eval) <==> AcceptedWith(before, clist, event, eval)
  }

  ghost predicate AcceptsInstead(before: seq<Constraint>, dels: seq<nat>, mods: seq<ConstraintInfo>,
                                 now: seq<Constraint>, eval: Evaluator) {
    forall event :: Accepted(now, event, eval) <==> AcceptedAfter(before, dels, mods, event, eval)
  }

  function NumberedFrom(base: nat, clist: seq<ConstraintExp>): seq<ConstraintInfo> {
    seq(|clist|, i requires 0 <= i < |clist| => ConstraintInfo(base + i, clist[i]))
  }

  /** The constraints `now` are those of before, followed by the listed ones. */
  ghost predicate StoredBehind(before: seq<Constraint>, infos: seq<ConstraintInfo>, now: seq<Constraint>) {
    var n := |before|;
    && |now| == n + |infos| && now[..n] == before
    && forall i | 0 <= i < |infos| ::
         var types := infos[i].exp.types;
         now[n + i] == Constraint(infos[i].id, if types == [] then [STAR_STAR] else types, infos[i].exp.expr)
  }

  predicate WellWritten(parses: Grammar, expr: string) {
    Lowered(expr) == "true" || parses(expr)
  }

  ghost predicate HasId(cs: seq<Constraint>, id: nat) {
    exists i :: 0 <= i < |cs| && cs[i].id == id
  }

  // ---------------------------------------------------------------------------------------------
  // What is stored
  // ---------------------------------------------------------------------------------------------

  lemma SaysTrueExactly(expr: string)
    ensures SaysTrue(expr) <==> Lowered(expr) == "true"
  {
    if SaysTrue(expr) {
      assert Lowered(expr) == "true";
    } else if Lowered(expr) == "true" {
      assert forall i | 0 <= i < 4 :: Lower(expr[i]) == "true"[i];
    }
  }

  /** The implementation of a stored constraint decides as its text does. */
  lemma CompiledDecides(expr: string, event: Event, eval: Evaluator)
    ensures Compile(expr).justTypes || eval(Compile(expr).code, event) <==> Holds(expr, event, eval)
  {
    SaysTrueExactly(expr);
  }

  lemma CreatedExactly(parses: Grammar, exp: ConstraintExp)
    ensures Create(parses, exp).Some? <==> WellWritten(parses, exp.expr)
  {
    SaysTrueExactly(exp.expr);
  }

  lemma StoredMatches(m: ConstraintInfo, event: Event, eval: Evaluator)
    ensures Stored(m) == Constraint(m.id, if m.exp.types == [] then [STAR_STAR] else m.exp.types, m.exp.expr)
    ensures Matches(Stored(m).types, Stored(m).expr, event, eval) <==> Matches(m.exp.types, m.exp.expr, event, eval)
  {
    if m.exp.types == [] {
      assert Covers(Stored(m).types[0], Read(event.etype));
    }
  }

  /** Additions are stored behind the others, under fresh ids, with the types as given. */
  lemma AdditionIsStored(s: FilterState, clist: seq<ConstraintExp>)
    ensures StoredBehind(s.constraints, NumberedFrom(s.idCounter, clist), AddAll(s, clist).constraints)
  {
    AddAllAppends(s, clist);
  }

  lemma MatchOfBoth(a: seq<Constraint>, b: seq<Constraint>, event: Event, eval: Evaluator)
    ensures AnyMatches(a + b, event, eval) <==> AnyMatches(a, event, eval) || AnyMatches(b, event, eval)
  {
    if c :| c in a && Matches(c.types, c.expr, event, eval) {
      assert c in a + b;
    }
    if c :| c in b && Matches(c.types, c.expr, event, eval) {
      assert c in a + b;
    }
  }

  lemma MatchOfStored(added: seq<Constraint>, clist: seq<ConstraintExp>, event: Event, eval: Evaluator)
    requires |added| == |clist|
    requires forall i | 0 <= i < |clist| :: added[i] == Stored(ConstraintInfo(added[i].id, clist[i]))
    ensures AnyMatches(added, event, eval) <==> SomeMatches(clist, event, eval)
  {
    forall i | 0 <= i < |clist|
      ensures Matches(added[i].types, added[i].expr, event, eval)
              <==> Matches(clist[i].types, clist[i].expr, event, eval)
    {
      StoredMatches(ConstraintInfo(added[i].id, clist[i]), event, eval);
    }
    if i :| 0 <= i < |clist| && Matches(clist[i].types, clist[i].expr, event, eval) {
      assert added[i] in added;
    }
  }

  /** After additions: what the old constraints match, and what the new ones match. */
  lemma AdditionAccepts(s: FilterState, clist: seq<ConstraintExp>, event: Event, eval: Evaluator)
    ensures Accepted(AddAll(s, clist).constraints, event, eval) <==> AcceptedWith(s.constraints, clist, event, eval)
  {
    AddAllAppends(s, clist);
    var cs, n := AddAll(s, clist).constraints, |s.constraints|;
    assert cs == s.constraints + cs[n..];
    MatchOfBoth(s.constraints, cs[n..], event, eval);
    MatchOfStored(cs[n..], clist, event, eval);
  }

  lemma AdditionAcceptsAll(s: FilterState, clist: seq<ConstraintExp>, eval: Evaluator)
    ensures AcceptsAlso(s.constraints, clist, AddAll(s, clist).constraints, eval)
  {
    forall event
      ensures Accepted(AddAll(s, clist).constraints, event, eval) <==> AcceptedWith(s.constraints, clist, event, eval)
    {
      AdditionAccepts(s, clist, event, eval);
    }
  }

  /** Which constraints there are after a modification: those that stay, as they were, and the replacements. */
  lemma ModificationMembers(s: FilterState, dels: seq<nat>, mods: seq<ConstraintInfo>, c: Constraint)
    requires WellFormed(s) && Disjoint(dels, mods) && AllExist(s.constraints, dels, mods)
    ensures c in ReplaceAll(RemoveIds(s, dels), mods).constraints
            <==> (c in s.constraints && Stays(dels, mods, c)) || c in Replacements(mods)
  {
    var mid := RemoveIds(s, dels);
    RemoveIdsKeepsWellFormed(s, dels);
    RemoveIdsMembers(s, dels, c);
    forall i | 0 <= i < |mods|
      ensures Exists(mid.constraints, mods[i].id)
    {
      RemoveIdsLeaves(s, dels, mods[i].id);
    }
    ReplaceAllMembers(mid, mods, c);
  }

  lemma MatchOfReplacements(mods: seq<ConstraintInfo>, event: Event, eval: Evaluator)
    ensures AnyMatches(Replacements(mods), event, eval) <==> SomeReplaces(mods, event, eval)
  {
    forall m | m in mods
      ensures Matches(Stored(m).types, Stored(m).expr, event, eval) <==> Matches(m.exp.types, m.exp.expr, event, eval)
    {
      StoredMatches(m, event, eval);
    }
    if AnyMatches(Replacements(mods), event, eval) {
      var c :| c in Replacements(mods) && Matches(c.types, c.expr, event, eval);
      ReplacementMembers(mods, c);
      var j :| 0 <= j < |mods| && c == Stored(mods[j]);
      assert mods[j] in mods;
    }
    if SomeReplaces(mods, event, eval) {
      var j :| 0 <= j < |mods| && Matches(mods[j].exp.types, mods[j].exp.expr, event, eval);
      assert mods[j] in mods;
      ReplacementMembers(mods, Stored(mods[j]));
    }
  }

  lemma ModificationAccepts(s: FilterState, dels: seq<nat>, mods: seq<ConstraintInfo>, event: Event, eval: Evaluator)
    requires WellFormed(s) && Disjoint(dels, mods) && AllExist(s.constraints, dels, mods)
    ensures Accepted(ReplaceAll(RemoveIds(s, dels), mods).constraints, event, eval)
            <==> AcceptedAfter(s.constraints, dels, mods, event, eval)
  {
    var cs := ReplaceAll(RemoveIds(s, dels), mods).constraints;
    forall c
      ensures c in cs <==> (c in s.constraints && Stays(dels, mods, c)) || c in Replacements(mods)
    {
      ModificationMembers(s, dels, mods, c);
    }
    MatchOfReplacements(mods, event, eval);
    if cs != [] {
      assert cs[0] in cs;
    }
    if mods != [] {
      assert Replacements(mods)[0] in Replacements(mods);
    }
  }

  lemma ModificationAcceptsAll(s: FilterState, dels: seq<nat>, mods: seq<ConstraintInfo>, eval: Evaluator)
    requires WellFormed(s) && Disjoint(dels, mods) && AllExist(s.constraints, dels, mods)
    ensures AcceptsInstead(s.constraints, dels, mods, ReplaceAll(RemoveIds(s, dels), mods).constraints, eval)
  {
    forall event
      ensures Accepted(ReplaceAll(RemoveIds(s, dels), mods).constraints, event, eval)
              <==> AcceptedAfter(s.constraints, dels, mods, event, eval)
    {
      ModificationAccepts(s, dels, mods, event, eval);
    }
  }

  // ---------------------------------------------------------------------------------------------
  // A filter as a map from ids to constraints
  // ---------------------------------------------------------------------------------------------

  /** The live constraints as their callers wrote them, and the next id. */
  datatype Book = Book(live: map<nat, ConstraintExp>, next: nat)

  /** The listed constraints entered one after the other. */
  function Replaced(live: map<nat, ConstraintExp>, mods: seq<ConstraintInfo>): map<nat, ConstraintExp> {
    if mods == [] then live
    else Replaced(live, mods[..|mods| - 1])[mods[|mods| - 1].id := mods[|mods| - 1].exp]
  }

  ghost predicate CanModify(parses: Grammar, b: Book, dels: seq<nat>, mods: seq<ConstraintInfo>) {
    && (forall i | 0 <= i < |dels| :: dels[i] in b.live)
    && forall j | 0 <= j < |mods| :: mods[j].id in b.live && WellWritten(parses, mods[j].exp.expr)
  }

  /** What a caller expects of an operation. */
  ghost function Kept(parses: Grammar, b: Book, op: Op): Book {
    match op
    case Add(clist) =>
      if forall i | 0 <= i < |clist| :: WellWritten(parses, clist[i].expr)
      then Book(Replaced(b.live, NumberedFrom(b.next, clist)), b.next + |clist|) else b
    case Modify(dels, mods) =>
      if CanModify(parses, b, dels, mods) then b.(live := Replaced(b.live - SetOf(dels), mods)) else b
    case RemoveEverything => b.(live := map[])
  }

  ghost function KeptAll(parses: Grammar, ops: seq<Op>): Book {
    if ops == [] then Book(map[], 0) else Kept(parses, KeptAll(parses, ops[..|ops| - 1]), ops[|ops| - 1])
  }

  /** The filter stores the constraints of the map, each as written. */
  ghost predicate Stores(s: FilterState, b: Book) {
    && s.idCounter == b.next
    && forall c {:trigger c in s.constraints} ::
         c in s.constraints <==> c.id in b.live && c == Stored(ConstraintInfo(c.id, b.live[c.id]))
  }

  lemma StoredId(s: FilterState, b: Book, id: nat)
    requires Stores(s, b)
    ensures HasId(s.constraints, id) <==> id in b.live
  {
    if id in b.live {
      var c := Stored(ConstraintInfo(id, b.live[id]));
      assert c in s.constraints;
      var i :| 0 <= i < |s.constraints| && s.constraints[i] == c;
    }
    if i :| 0 <= i < |s.constraints| && s.constraints[i].id == id {
      assert s.constraints[i] in s.constraints;
    }
  }

  lemma {:induction false} ReplacedExactly(live: map<nat, ConstraintExp>, mods: seq<ConstraintInfo>, c: Constraint)
    requires forall i, j | 0 <= i < j < |mods| :: mods[i].id != mods[j].id
    ensures var r := Replaced(live, mods);
            (c.id in r && c == Stored(ConstraintInfo(c.id, r[c.id])))
            <==> (Unnamed(mods, c.id) && c.id in live && c == Stored(ConstraintInfo(c.id, live[c.id])))
                 || c in Replacements(mods)
  {
    if mods != [] {
      ReplacedExactly(live, mods[..|mods| - 1], c);
      ReplacementsGrow(mods, c);
      if c in Replacements(mods[..|mods| - 1]) {
        ReplacedBefore(mods, c);
      }
    }
  }

  lemma AdditionMembers(s: FilterState, clist: seq<ConstraintExp>)
    ensures AddAll(s, clist).constraints == s.constraints + Replacements(NumberedFrom(s.idCounter, clist))
  {
    AddAllAppends(s, clist);
    var cs, n := AddAll(s, clist).constraints, |s.constraints|;
    assert cs == cs[..n] + cs[n..];
    assert cs[n..] == Replacements(NumberedFrom(s.idCounter, clist));
  }

  lemma OldIdsAreUnnamed(s: FilterState, clist: seq<ConstraintExp>, c: Constraint)
    requires WellFormed(s) && c in s.constraints
    ensures Unnamed(NumberedFrom(s.idCounter, clist), c.id)
  {
    var i :| 0 <= i < |s.constraints| && s.constraints[i] == c;
    assert c.id < s.idCounter;
  }

  lemma AdditionIsKept(s: FilterState, b: Book, clist: seq<ConstraintExp>, c: Constraint)
    requires WellFormed(s) && Stores(s, b)
    ensures var live := Replaced(b.live, NumberedFrom(b.next, clist));
            c in AddAll(s, clist).constraints <==> c.id in live && c == Stored(ConstraintInfo(c.id, live[c.id]))
  {
    AdditionMembers(s, clist);
    ReplacedExactly(b.live, NumberedFrom(b.next, clist), c);
    if c in s.constraints {
      OldIdsAreUnnamed(s, clist, c);
    }
  }

  lemma AdditionsAreKept(s: FilterState, b: Book, clist: seq<ConstraintExp>)
    requires WellFormed(s) && Stores(s, b)
    ensures Stores(AddAll(s, clist), Book(Replaced(b.live, NumberedFrom(b.next, clist)), b.next + |clist|))
  {
    AddAllAppends(s, clist);
    var live := Replaced(b.live, NumberedFrom(b.next, clist));
    forall c: Constraint
      ensures c in AddAll(s, clist).constraints <==> c.id in live && c == Stored(ConstraintInfo(c.id, live[c.id]))
    {
      AdditionIsKept(s, b, clist, c);
    }
  }

  lemma AcceptsExactly(parses: Grammar, clist: seq<ConstraintExp>)
    ensures Accepts(parses, clist) <==> forall i | 0 <= i < |clist| :: WellWritten(parses, clist[i].expr)
  {
    forall i | 0 <= i < |clist|
      ensures Create(parses, clist[i]).Some? <==> WellWritten(parses, clist[i].expr)
    {
      CreatedExactly(parses, clist[i]);
    }
  }

  lemma IdsAreKnown(parses: Grammar, s: FilterState, b: Book, dels: seq<nat>, mods: seq<ConstraintInfo>)
    requires Stores(s, b)
    ensures AllExist(s.constraints, dels, mods) && AcceptsMods(parses, mods) <==> CanModify(parses, b, dels, mods)
  {
    forall id: nat
      ensures Exists(s.constraints, id) <==> id in b.live
    {
      PositionIsFirst(s.constraints, id);
      StoredId(s, b, id);
    }
    forall j | 0 <= j < |mods|
      ensures Create(parses, mods[j].exp).Some? <==> WellWritten(parses, mods[j].exp.expr)
    {
      CreatedExactly(parses, mods[j].exp);
    }
  }

  lemma StepIsKept(parses: Grammar, s: FilterState, b: Book, op: Op)
    requires WellFormed(s) && Stores(s, b) && Legal(op)
    ensures Stores(Step(parses, s, op), Kept(parses, b, op))
  {
    match op
    case Add(clist) =>
      AcceptsExactly(parses, clist);
      if Accepts(parses, clist) {
        AdditionsAreKept(s, b, clist);
      }
    case Modify(dels, mods) =>
      IdsAreKnown(parses, s, b, dels, mods);
      if CanModify(parses, b, dels, mods) {
        ModificationIsKept(s, b, dels, mods);
      }
    case RemoveEverything =>
      RemoveEverythingEmpties(parses, s);
      RemoveIdsKeepsWellFormed(s, Ids(s.constraints));
  }

  lemma ModificationIsKept(s: FilterState, b: Book, dels: seq<nat>, mods: seq<ConstraintInfo>)
    requires WellFormed(s) && Stores(s, b) && Disjoint(dels, mods) && AllExist(s.constraints, dels, mods)
    ensures Stores(ReplaceAll(RemoveIds(s, dels), mods), b.(live := Replaced(b.live - SetOf(dels), mods)))
  {
    var live := Replaced(b.live - SetOf(dels), mods);
    forall c: Constraint
      ensures c in ReplaceAll(RemoveIds(s, dels), mods).constraints
              <==> c.id in live && c == Stored(ConstraintInfo(c.id, live[c.id]))
    {
      ModificationMembers(s, dels, mods, c);
      ReplacedExactly(b.live - SetOf(dels), mods, c);
    }
    ModificationKeepsCounter(s, dels, mods);
  }

  lemma ModificationKeepsCounter(s: FilterState, dels: seq<nat>, mods: seq<ConstraintInfo>)
    requires WellFormed(s) && Disjoint(dels, mods) && AllExist(s.constraints, dels, mods)
    ensures ReplaceAll(RemoveIds(s, dels), mods).idCounter == s.idCounter
  {
    RemoveIdsKeepsWellFormed(s, dels);
    forall i | 0 <= i < |mods|
      ensures Exists(RemoveIds(s, dels).constraints, mods[i].id)
    {
      RemoveIdsLeaves(s, dels, mods[i].id);
    }
    ReplaceAllKeepsWellFormed(RemoveIds(s, dels), mods);
  }

  lemma {:induction false} HistoryIsKept(parses: Grammar, ops: seq<Op>)
    requires forall i | 0 <= i < |ops| :: Legal(ops[i])
    ensures Stores(Run(parses, INITIAL, ops), KeptAll(parses, ops))
  {
    if ops != [] {
      HistoryIsKept(parses, ops[..|ops| - 1]);
      EveryHistoryIsWellFormed(parses, ops[..|ops| - 1]);
      StepIsKept(parses, Run(parses, INITIAL, ops[..|ops| - 1]), KeptAll(parses, ops[..|ops| - 1]), ops[|ops| - 1]);
    }
  }

  /** After any history a filter accepts exactly the events that some live constraint matches, or every event if
      there is none. */
  lemma HistoryDecides(parses: Grammar, ops: seq<Op>, event: Event, eval: Evaluator)
    requires forall i | 0 <= i < |ops| :: Legal(ops[i])
    ensures var live := KeptAll(parses, ops).live;
            Accepted(Run(parses, INITIAL, ops).constraints, event, eval)
            <==> live == map[] || exists id :: id in live && Matches(live[id].types, live[id].expr, event, eval)
  {
    HistoryIsKept(parses, ops);
    var s, live := Run(parses, INITIAL, ops), KeptAll(parses, ops).live;
    forall id: nat | id in live
      ensures var c := Stored(ConstraintInfo(id, live[id]));
              c in s.constraints && (Matches(c.types, c.expr, event, eval)
                                     <==> Matches(live[id].types, live[id].expr, event, eval))
    {
      assert Stored(ConstraintInfo(id, live[id])) in s.constraints;
      StoredMatches(ConstraintInfo(id, live[id]), event, eval);
    }
    if s.constraints != [] {
      assert s.constraints[0] in s.constraints;
    }
  }
}
