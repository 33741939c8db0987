/** The list with a built-in circular iterator of include/RDISafeList.h. Between two end markers a round is under
    way: some elements have been delivered in it, the others are pending. */
module SafeList {
  import opened Arithmetic
  import opened Sequences
  import opened Wrappers

  // ---------------------------------------------------------------------------------------------
  // Rounds
  // ---------------------------------------------------------------------------------------------

  /** The elements of the list are `delivered + pending`. */
  datatype Round<E> = Round(delivered: seq<E>, pending: seq<E>) {
    function Elts(): seq<E> {
      delivered + pending
    }
  }

  function WithInserted<E>(r: Round<E>, e: E): Round<E> {
    r.(pending := r.pending + [e])
  }

  function WithRemoved<E>(r: Round<E>, i: nat): Round<E>
    requires i < |r.Elts()|
  {
    var d := |r.delivered|;
    if i < d then r.(delivered := WithoutAt(r.delivered, i)) else r.(pending := WithoutAt(r.pending, i - d))
  }

  /** The next pending element; with none pending, an end marker and a new round. */
  function Advanced<E>(r: Round<E>): (Round<E>, Option<E>) {
    if r.pending == [] then (Round([], r.delivered), None)
    else (Round(r.delivered + [r.pending[0]], r.pending[1..]), Some(r.pending[0]))
  }

  datatype Op<E> = Insert(e: E) | Remove(i: nat) | IterNext

  function Apply<E>(r: Round<E>, op: Op<E>): Round<E> {
    match op
    case Insert(e) => WithInserted(r, e)
    case Remove(i) => if i < |r.Elts()| then WithRemoved(r, i) else r
    case IterNext => Advanced(r).0
  }

  /** What every operation makes of the elements and of the part delivered so far, which together are the round,
      and what the iterator hands out. */
  lemma OperationsAreExact<E>(r: Round<E>, op: Op<E>)
    ensures var s, d, r' := r.Elts(), |r.delivered|, Apply(r, op);
            match op
            case Insert(e) => r'.Elts() == s + [e] && |r'.delivered| == d
            case Remove(i) =>
              if i >= |s| then r' == r
              else r'.Elts() == WithoutAt(s, i) && |r'.delivered| == if i < d then d - 1 else d
            case IterNext =>
              && r'.Elts() == s && |r'.delivered| == (if d == |s| then 0 else d + 1)
              && Advanced(r).1 == if d == |s| then None else Some(s[d])
  {
    match op
    case Insert(e) => assert Apply(r, op).Elts() == r.Elts() + [e];
    case Remove(i) =>
      if i < |r.Elts()| {
        assert Apply(r, op).Elts() == WithoutAt(r.Elts(), i);
      }
    case IterNext => assert Apply(r, op).Elts() == r.Elts();
  }

  function Run<E>(r: Round<E>, ops: seq<Op<E>>): Round<E>
    decreases |ops|
  {
    if ops == [] then r else Run(Apply(r, ops[0]), ops[1..])
  }

  /** How often the iterator hands out `x` while the operations run. */
  function Deliveries<E(==)>(r: Round<E>, ops: seq<Op<E>>, x: E): nat
    decreases |ops|
  {
    if ops == [] then 0 else
    var now := if ops[0].IterNext? && Advanced(r).1 == Some(x) then 1 else 0;
    now + Deliveries(Apply(r, ops[0]), ops[1..], x)
  }

  /** The operations neither insert nor remove `x`, and no end marker is delivered among them. */
  predicate WithinRound<E(==)>(r: Round<E>, ops: seq<Op<E>>, x: E)
    decreases |ops|
  {
    ops == [] ||
    (&& (ops[0].Insert? ==> ops[0].e != x)
     && (ops[0].Remove? && ops[0].i < |r.Elts()| ==> r.Elts()[ops[0].i] != x)
     && (ops[0].IterNext? ==> Advanced(r).1.Some?)
     && WithinRound(Apply(r, ops[0]), ops[1..], x))
  }

  /** Within a round an element is handed out once for every pending occurrence that is used up. */
  lemma {:induction false} DeliveriesAreExact<E>(r: Round<E>, ops: seq<Op<E>>, x: E)
    requires WithinRound(r, ops, x)
    ensures Deliveries(r, ops, x) == Occurrences(r.pending, x) - Occurrences(Run(r, ops).pending, x)
    decreases |ops|
  {
    if ops != [] {
      var op, d := ops[0], |r.delivered|;
      DeliveriesAreExact(Apply(r, op), ops[1..], x);
      match op
      case Insert(e) => OccurrencesAppend(r.pending, [e], x);
      case Remove(i) =>
        if d <= i < |r.Elts()| {
          assert r.Elts()[i] == r.pending[i - d];
          OccurrencesWithoutAt(r.pending, i - d, x);
        }
      case IterNext =>
    }
  }

  /** Main result: from the beginning of a round to the next end marker an element that is continuously present
      is delivered as often as it is in the list, whatever is inserted and removed meanwhile. */
  lemma RoundDeliversEachOnce<E>(r: Round<E>, ops: seq<Op<E>>, x: E)
    requires r.delivered == [] && WithinRound(r, ops, x) && Advanced(Run(r, ops)).1 == None
    ensures Deliveries(r, ops, x) == Occurrences(r.Elts(), x)
  {
    DeliveriesAreExact(r, ops, x);
    assert r.Elts() == r.pending;
  }

  /** An element inserted in the middle of a round is delivered before the next end marker. */
  lemma InsertedJoinsRound<E>(r: Round<E>, ops: seq<Op<E>>, x: E)
    requires WithinRound(WithInserted(r, x), ops, x) && Advanced(Run(WithInserted(r, x), ops)).1 == None
    ensures Deliveries(WithInserted(r, x), ops, x) == Occurrences(r.pending, x) + 1
  {
    DeliveriesAreExact(WithInserted(r, x), ops, x);
    OccurrencesAppend(r.pending, [x], x);
  }

  /** The round after `n` calls of the iterator, and what they hand out. */
  function After<E>(r: Round<E>, n: nat): Round<E> {
    if n == 0 then r else Advanced(After(r, n - 1)).0
  }

  function Handed<E>(r: Round<E>, n: nat): seq<Option<E>> {
    if n == 0 then [] else Handed(r, n - 1) + [Advanced(After(r, n - 1)).1]
  }

  function Entries<E>(s: seq<E>): seq<Option<E>> {
    seq(|s|, i requires 0 <= i < |s| => Some(s[i]))
  }

  lemma {:induction false} PendingAreHanded<E>(r: Round<E>, n: nat)
    requires n <= |r.pending|
    ensures After(r, n) == Round(r.delivered + r.pending[..n], r.pending[n..])
    ensures Handed(r, n) == Entries(r.pending[..n])
  {
    if n > 0 {
      PendingAreHanded(r, n - 1);
      assert r.pending[..n] == r.pending[..n - 1] + [r.pending[n - 1]];
    }
  }

  lemma {:induction false} MoreCalls<E>(r: Round<E>, m: nat, n: nat)
    ensures After(r, m + n) == After(After(r, m), n)
    ensures Handed(r, m + n) == Handed(r, m) + Handed(After(r, m), n)
  {
    if n > 0 {
      MoreCalls(r, m, n - 1);
    }
  }

  lemma ToNextRound<E>(r: Round<E>)
    ensures var n := |r.pending| + 1;
            After(r, n) == Round([], r.delivered + r.pending) && Handed(r, n) == Entries(r.pending) + [None]
  {
    PendingAreHanded(r, |r.pending|);
    assert r.pending[..|r.pending|] == r.pending;
  }

  lemma StartOfRound<E>(d: seq<E>, p: seq<E>)
    ensures After(Round([], d + p), |d|) == Round(d, p) && Handed(Round([], d + p), |d|) == Entries(d)
  {
    PendingAreHanded(Round([], d + p), |d|);
    assert (d + p)[..|d|] == d && (d + p)[|d|..] == p;
  }

  /** One call more than there are elements hands out the pending ones, one end marker and the delivered
      ones, from wherever it starts, and leaves the iterator exactly where it was. */
  lemma FullTurn<E>(r: Round<E>, n: nat)
    requires n == |r.Elts()| + 1
    ensures After(r, n) == r && Handed(r, n) == Entries(r.pending) + [None] + Entries(r.delivered)
  {
    var m, mid := |r.pending| + 1, Round([], r.delivered + r.pending);
    ToNextRound(r);
    StartOfRound(r.delivered, r.pending);
    Joined(r, mid, m, n - m, Entries(r.pending) + [None], Entries(r.delivered));
  }

  lemma Joined<E>(r: Round<E>, mid: Round<E>, m: nat, n: nat, a: seq<Option<E>>, b: seq<Option<E>>)
    requires After(r, m) == mid && Handed(r, m) == a && Handed(mid, n) == b
    ensures After(r, m + n) == After(mid, n) && Handed(r, m + n) == a + b
  {
    MoreCalls(r, m, n);
  }

  /** The round while all elements are being visited once, before and after the end marker. */
  ghost predicate Visiting<E>(r: Round<E>, visited: seq<E>, d: seq<E>, p: seq<E>, wrapped: bool) {
    var i := |visited|;
    if wrapped then
      |p| <= i <= |p| + |d| && r == Round(d[..i - |p|], d[i - |p|..] + p) && visited == p + d[..i - |p|]
    else
      i <= |p| && r == Round(d + p[..i], p[i..]) && visited == p[..i]
  }

  lemma VisitedOneMore<E>(r: Round<E>, visited: seq<E>, d: seq<E>, p: seq<E>, wrapped: bool)
    requires Visiting(r, visited, d, p, wrapped) && |visited| < |d| + |p|
    ensures var (r', e) := Advanced(r);
            if e.Some? then Visiting(r', visited + [e.value], d, p, wrapped)
            else !wrapped && d != [] && |visited| == |p| && Visiting(r', visited, d, p, true)
  {
    var i := |visited|;
    if wrapped {
      assert d[..i - |p| + 1] == d[..i - |p|] + [d[i - |p|]];
    } else if i < |p| {
      assert p[..i + 1] == p[..i] + [p[i]];
    } else {
      assert p[..i] == p && d + p == d[0..] + p;
    }
  }

  // ---------------------------------------------------------------------------------------------
  // The list
  // ---------------------------------------------------------------------------------------------

  /** The entries from `idx` to before `i` replaced by their right neighbours. */
  ghost function Slid<E>(s: seq<E>, idx: nat, i: nat): seq<E>
    requires idx <= i < |s|
  {
    seq(|s|, k requires 0 <= k < |s| => if idx <= k < i then s[k + 1] else s[k])
  }

  lemma SlidIsWithoutAt<E>(s: seq<E>, idx: nat)
    requires idx < |s|
    ensures Slid(s, idx, |s| - 1)[..|s| - 1] == WithoutAt(s, idx)
  {
  }

  lemma PresentWithoutAt<E>(s: seq<E>, next: nat, idx: nat)
    requires idx < |s| && next < |s|
    ensures var r := WithoutAt(s, idx);
            && (idx < next ==> r[..next - 1] == WithoutAt(s[..next], idx) && r[next - 1..] == s[next..])
            && (idx >= next ==> r[..next] == s[..next] && r[next..] == WithoutAt(s[next..], idx - next))
  {
  }

  lemma PresentAfterNext<E>(s: seq<E>, next: nat)
    requires next < |s|
    ensures (next + 1) % |s| == if next + 1 == |s| then 0 else next + 1
    ensures s[..next + 1] == s[..next] + [s[next]] && s[next + 1..] == s[next..][1..] && s[next..][0] == s[next]
    ensures next + 1 == |s| ==> s == s[..next] + [s[next]] && s[next..][1..] == []
  {
    ModSmall(next + 1, |s|);
  }

  class List<E(==)> {
    var elts: seq<E>
    var nextIdx: nat
    var deliverEndMarker: bool

    ghost predicate Valid()
      reads this
    {
      && (nextIdx < |elts| || nextIdx == 0)
      && (deliverEndMarker ==> nextIdx == 0)
    }

    ghost function Present(): (r: Round<E>)
      reads this
      requires Valid()
      ensures r.Elts() == elts
    {
      if deliverEndMarker then Round(elts, []) else Round(elts[..nextIdx], elts[nextIdx..])
    }

    constructor ()
      ensures Valid() && Present() == Round([], [])
    {
      elts, nextIdx, deliverEndMarker := [], 0, false;
    }

    method Drain()
      modifies this
      ensures Valid() && Present() == Round([], [])
    {
      elts, nextIdx, deliverEndMarker := [], 0, false;
    }

    method Insert(e: E)
      requires Valid()
      modifies this
      ensures Valid() && Present() == WithInserted(old(Present()), e)
      ensures elts == old(elts) + [e] && |Present().delivered| == |old(Present().delivered)|
    {
      var len := |elts|;
      elts := elts + [e];
      if deliverEndMarker {
        nextIdx := len;
        deliverEndMarker := false;
      }
    }

    /** Removes one occurrence, looking first at the element delivered last, then on from the next one. */
    method Remove(e: E) returns (ghost idx: int, ghost dist: nat)
      requires Valid()
      modifies this
      ensures Valid() && (idx >= 0 <==> e in old(elts)) && -1 <= idx < |old(elts)|
      ensures idx < 0 ==> unchanged(this)
      ensures idx >= 0 ==> old(elts)[idx] == e && Present() == WithRemoved(old(Present()), idx)
      ensures idx >= 0 ==>
                var d := |old(Present().delivered)|;
                elts == WithoutAt(old(elts), idx) && |Present().delivered| == if idx < d then d - 1 else d
      ensures idx >= 0 ==>
                var n, start := |old(elts)|, old(nextIdx) + |old(elts)| - 1;
                idx == (start + dist) % n && forall k | start <= k < start + dist :: old(elts)[k % n] != e
    {
      var len := |elts|;
      idx, dist := -1, 0;
      if len == 0 {
        return;
      }
      var prevIdx := nextIdx + len - 1;
      var termIdx := prevIdx + len;
      var i := prevIdx;
      while i < termIdx
        invariant prevIdx <= i <= termIdx && unchanged(this) && dist == i - prevIdx
        invariant forall k | prevIdx <= k < i :: elts[k % len] != e
      {
        if elts[i % len] == e {
          idx := i % len;
          RemoveIdx(i % len);
          return;
        }
        i, dist := i + 1, dist + 1;
      }
      AllSeen(elts, prevIdx, e);
    }

    /** The entries after `idx` move down by one. */
    method CloseGap(idx: nat)
      requires idx < |elts|
      modifies `elts
      ensures elts == WithoutAt(old(elts), idx)
    {
      ghost var was := elts;
      var maxIdx := |elts| - 1;
      var i := idx;
      while i < maxIdx
        invariant idx <= i <= maxIdx && elts == Slid(was, idx, i)
      {
        elts := elts[i := elts[i + 1]];
        i := i + 1;
      }
      elts := elts[..maxIdx];
      SlidIsWithoutAt(was, idx);
    }

    /** The iterator goes on with the element it would have delivered, or with an end marker when the removed
        element was the last pending one and others remain. */
    method RemoveIdx(idx: nat)
      requires Valid() && idx < |elts|
      modifies this
      ensures Valid() && Present() == WithRemoved(old(Present()), idx) && elts == WithoutAt(old(elts), idx)
      ensures var d := |old(Present().delivered)|; |Present().delivered| == if idx < d then d - 1 else d
    {
      PresentWithoutAt(elts, nextIdx, idx);
      var maxIdx := |elts| - 1;
      if nextIdx > idx {
        nextIdx := nextIdx - 1;
      } else if nextIdx == maxIdx {
        nextIdx := 0;
        if maxIdx > 0 {
          deliverEndMarker := true;
        }
      }
      CloseGap(idx);
    }

    method IterNext() returns (res: Option<E>)
      requires Valid()
      modifies `nextIdx, `deliverEndMarker
      ensures Valid() && (Present(), res) == Advanced(old(Present()))
    {
      assert elts[..0] == [] && elts[0..] == elts;
      if deliverEndMarker {
        deliverEndMarker := false;
        return None;
      }
      var len := |elts|;
      if len == 0 {
        return None;
      }
      var curIdx := nextIdx;
      PresentAfterNext(elts, curIdx);
      nextIdx := (nextIdx + 1) % len;
      if nextIdx == 0 {
        deliverEndMarker := true;
      }
      return Some(elts[curIdx]);
    }

    /** The loop that the header recommends for visiting every element, whatever the iterator has done before:
        it ends where it started, except that at the start of a round an end marker is due afterwards. */
    method VisitAll() returns (visited: seq<E>)
      requires Valid()
      modifies `nextIdx, `deliverEndMarker
      ensures Valid() && visited == old(Present()).pending + old(Present()).delivered
      ensures Present() == if old(Present()).delivered == [] then Round(elts, []) else old(Present())
      ensures nextIdx == old(nextIdx)
    {
      ghost var d, p, wrapped := Present().delivered, Present().pending, false;
      visited := [];
      var len := |elts|;
      var i := 0;
      while i < len
        invariant i == |visited| <= len && Valid() && (wrapped ==> d != [])
        invariant Visiting(Present(), visited, d, p, wrapped)
        decreases len - i, !wrapped
      {
        VisitedOneMore(Present(), visited, d, p, wrapped);
        var entry := IterNext();
        if entry.Some? {
          i := i + 1;
          visited := visited + [entry.value];
        } else {
          wrapped := true;
        }
      }
    }
  }

  /** A search that starts anywhere and goes once around has seen every element. */
  lemma AllSeen<E>(s: seq<E>, start: nat, e: E)
    requires s != [] && forall k | start <= k < start + |s| :: s[k % |s|] != e
    ensures e !in s
  {
    forall j | 0 <= j < |s|
      ensures s[j] != e
    {
      var base := start % |s|;
      var k := start + (if j >= base then j - base else j + |s| - base);
      Around(start, |s|, j);
      assert s[k % |s|] != e;
    }
  }

  lemma Around(start: nat, n: nat, j: nat)
    requires j < n
    ensures (start + (if j >= start % n then j - start % n else j + n - start % n)) % n == j
  {
    var q, base := start / n, start % n;
    assert start == q * n + base;
    var k := start + (if j >= base then j - base else j + n - base);
    if j >= base {
      ModUnique(k, q, j, n);
    } else {
      assert (q + 1) * n == q * n + n;
      ModUnique(k, q + 1, j, n);
    }
  }
}
