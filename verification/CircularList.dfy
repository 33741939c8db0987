/** The circular list of include/RDIList.h: a sequence in an array that wraps around. */
module CircularList {
  import opened Arithmetic
  import opened Sequences

  /** The array index of logical position `i` from `head`. */
  function Slot(head: nat, i: nat, size: nat): nat
    requires head < size && i <= size
  {
    if head + i < size then head + i else head + i - size
  }

  ghost predicate Fits(size: nat, head: nat, n: nat) {
    n <= size && (n > 0 ==> head < size)
  }

  /** The sequence stored in the array. */
  ghost function View<T>(a: seq<T>, head: nat, n: nat): (v: seq<T>)
    requires Fits(|a|, head, n)
    ensures |v| == n
  {
    seq(n, i requires 0 <= i < n => a[Slot(head, i, |a|)])
  }

  function Pred(i: nat, size: nat): nat
    requires i < size
  {
    if i == 0 then size - 1 else i - 1
  }

  lemma ViewPushFront<T>(a: seq<T>, head: nat, n: nat, x: T)
    requires n < |a| && head < |a|
    ensures var h := Pred(head, |a|);
            View(a[h := x], h, n + 1) == [x] + View(a, head, n)
  {
  }

  lemma ViewPushBack<T>(a: seq<T>, head: nat, n: nat, x: T)
    requires n < |a| && head < |a|
    ensures View(a[Slot(head, n, |a|) := x], head, n + 1) == View(a, head, n) + [x]
  {
  }

  lemma ViewUpdate<T>(a: seq<T>, head: nat, n: nat, k: nat, x: T)
    requires Fits(|a|, head, n) && k < n
    ensures View(a[Slot(head, k, |a|) := x], head, n) == View(a, head, n)[k := x]
  {
  }

  /** `i` entries from position `p` on replaced by their right neighbours. */
  ghost function ShiftedDown<T>(v: seq<T>, p: nat, i: nat): (r: seq<T>)
    requires p + i < |v|
  {
    seq(|v|, j requires 0 <= j < |v| => if p <= j < p + i then v[j + 1] else v[j])
  }

  /** `i` entries up to position `p` replaced by their left neighbours. */
  ghost function ShiftedUp<T>(v: seq<T>, p: nat, i: nat): (r: seq<T>)
    requires i <= p < |v|
  {
    seq(|v|, j requires 0 <= j < |v| => if p - i < j <= p then v[j - 1] else v[j])
  }

  lemma ShiftedDownStep<T>(v: seq<T>, p: nat, i: nat)
    requires p + i + 1 < |v|
    ensures ShiftedDown(v, p, i + 1) == ShiftedDown(v, p, i)[p + i := ShiftedDown(v, p, i)[p + i + 1]]
  {
  }

  lemma ShiftedUpStep<T>(v: seq<T>, p: nat, i: nat)
    requires i < p < |v|
    ensures ShiftedUp(v, p, i + 1) == ShiftedUp(v, p, i)[p - i := ShiftedUp(v, p, i)[p - i - 1]]
  {
  }

  lemma IndexAhead(head: nat, p: nat, i: nat, size: nat, indx: nat)
    requires head < size && p + i < size && indx == Slot(head, p, size)
    ensures (indx + i) % size == Slot(head, p + i, size)
  {
    ModSmall(indx + i, size);
  }

  lemma IndexBehind(head: nat, p: nat, i: nat, size: nat, indx: nat)
    requires head < size && i <= p < size && indx == Slot(head, p, size)
    ensures (indx + size - i) % size == Slot(head, p - i, size)
  {
    ModSmall(indx + size - i, size);
  }

  lemma ShortenBack<T>(v: seq<T>, p: nat)
    requires p < |v|
    ensures ShiftedDown(v, p, |v| - 1 - p)[..|v| - 1] == WithoutAt(v, p)
  {
  }

  lemma ShortenFront<T>(v: seq<T>, p: nat)
    requires p < |v|
    ensures ShiftedUp(v, p, p)[1..] == WithoutAt(v, p)
  {
  }

  class List<T> {
    var numItems: nat
    var currSize: nat
    var incrSize: nat
    var maxmSize: nat
    var listHead: nat
    var listTail: nat
    var entry: array<T>
    const blank: T    // what the default constructor of an entry gives

    /** The increment is positive, and the maximum, if there is one, is not below the present size. */
    ghost predicate Valid()
      reads this
    {
      && currSize == entry.Length && numItems <= currSize
      && incrSize > 0 && (maxmSize > 0 ==> currSize <= maxmSize)
      && (numItems > 0 ==> listHead < currSize && listTail == Slot(listHead, numItems - 1, currSize))
    }

    ghost function Contents(): (s: seq<T>)
      reads this, entry
      requires Valid()
    {
      View(entry[..], listHead, numItems)
    }

    constructor (initSize: nat, incrSize: nat, maxmSize: nat, blank: T)
      requires incrSize > 0
      ensures Valid() && Contents() == [] && fresh(entry)
      ensures currSize == if maxmSize > 0 && initSize > maxmSize then maxmSize else initSize
      ensures this.maxmSize == maxmSize && this.incrSize == incrSize && this.blank == blank
      ensures listHead == 0 && listTail == 0
    {
      var size := if maxmSize > 0 && initSize > maxmSize then maxmSize else initSize;
      numItems, listHead, listTail := 0, 0, 0;
      this.incrSize, this.maxmSize, currSize, this.blank := incrSize, maxmSize, size, blank;
      entry := new T[size](_ => blank);
    }

    /** The copy keeps the layout and copies the occupied slots only. */
    constructor Copy(list: List<T>)
      requires list.Valid()
      ensures Valid() && Contents() == list.Contents() && fresh(entry)
      ensures currSize == list.currSize && incrSize == list.incrSize && maxmSize == list.maxmSize
    {
      numItems, currSize, incrSize, maxmSize := list.numItems, list.currSize, list.incrSize, list.maxmSize;
      listHead, listTail, blank := list.listHead, list.listTail, list.blank;
      entry := new T[list.currSize](_ => list.blank);
      new;
      CopyEntries(list);
    }

    /** The copying loop of the constructor. */
    method CopyEntries(list: List<T>)
      requires list.Valid() && list.entry != entry && entry.Length == currSize == list.currSize
      requires numItems == list.numItems && listHead == list.listHead
      modifies entry
      ensures View(entry[..], listHead, numItems) == list.Contents()
    {
      var i := listHead;
      while i < listHead + numItems
        invariant listHead <= i <= listHead + numItems
        invariant forall k | 0 <= k < i - listHead ::
                    entry[Slot(listHead, k, currSize)] == list.entry[Slot(listHead, k, currSize)]
        modifies entry
      {
        ModSmall(i, currSize);
        entry[i % currSize] := list.entry[i % currSize];
        i := i + 1;
      }
    }

    /** One increment more, but not above the maximum if there is one. */
    function NextSize(size: nat): nat
      reads `incrSize, `maxmSize
    {
      if maxmSize > 0 && size + incrSize > maxmSize then maxmSize else size + incrSize
    }

    /** Grows the array and unwraps the contents to its front; fails at the maximum. */
    method Resize() returns (ret: int)
      requires Valid() && numItems == currSize
      modifies `currSize, `listHead, `listTail, `entry
      ensures Valid() && Contents() == old(Contents())
      ensures ret == if maxmSize > 0 && old(currSize) == maxmSize then -1 else 0
      ensures ret == 0 ==> fresh(entry) && old(currSize) < currSize == NextSize(old(currSize)) && listHead == 0
      ensures ret == 0 ==> currSize == old(currSize) + incrSize || old(currSize) + incrSize > maxmSize == currSize > 0
      ensures ret == -1 ==> entry == old(entry) && currSize == old(currSize) && listHead == old(listHead)
    {
      if maxmSize > 0 && currSize == maxmSize {
        return -1;
      }
      var newSize := currSize + incrSize;
      if maxmSize > 0 && newSize > maxmSize {
        newSize := maxmSize;
      }
      var tmpBuff := new T[newSize](_ => blank);
      var i := 0;
      while i < numItems
        invariant 0 <= i <= numItems
        invariant forall k | 0 <= k < i :: tmpBuff[k] == entry[Slot(listHead, k, currSize)]
        modifies tmpBuff
      {
        ModSmall(listHead + i, currSize);
        tmpBuff[i] := entry[(listHead + i) % currSize];
        i := i + 1;
      }
      currSize, listHead := newSize, 0;
      listTail := if numItems == 0 then 0xFFFF_FFFF else numItems - 1;
      entry := tmpBuff;
      return 0;
    }

    /** Grows a full list. */
    method MakeRoom() returns (ret: int)
      requires Valid()
      modifies `currSize, `listHead, `listTail, `entry
      ensures Valid() && Contents() == old(Contents()) && (entry == old(entry) || fresh(entry))
      ensures ret == if numItems == old(currSize) == maxmSize && maxmSize > 0 then -1 else 0
      ensures ret == 0 ==> numItems < currSize
      ensures currSize == if ret == 0 && numItems == old(currSize) then NextSize(old(currSize)) else old(currSize)
    {
      ret := 0;
      if numItems == currSize {
        ret := Resize();
      }
    }

    method PushFront(x: T)
      requires Valid() && numItems < currSize
      modifies `listHead, `listTail, `numItems, entry
      ensures Valid() && Contents() == [x] + old(Contents())
    {
      ghost var a := entry[..];
      if numItems == 0 {
        listHead, listTail := 0, 0;
      } else {
        ViewPushFront(a, listHead, numItems, x);
        listHead := if listHead == 0 then currSize - 1 else listHead - 1;
      }
      entry[listHead] := x;
      assert entry[..] == a[listHead := x];
      numItems := numItems + 1;
    }

    method PushBack(x: T)
      requires Valid() && numItems < currSize
      modifies `listHead, `listTail, `numItems, entry
      ensures Valid() && Contents() == old(Contents()) + [x]
    {
      ghost var a := entry[..];
      if numItems == 0 {
        listHead, listTail := 0, 0;
      } else {
        ViewPushBack(a, listHead, numItems, x);
        listTail := if listTail == currSize - 1 then 0 else listTail + 1;
      }
      entry[listTail] := x;
      assert entry[..] == a[listTail := x];
      numItems := numItems + 1;
    }

    /** Fails only on a list that is full at its maximum. */
    method InsertHead(x: T) returns (ret: int)
      requires Valid()
      modifies `currSize, `numItems, `listHead, `listTail, `entry, entry
      ensures Valid() && (entry == old(entry) || fresh(entry))
      ensures ret == if |old(Contents())| == old(currSize) == maxmSize && maxmSize > 0 then -1 else 0
      ensures Contents() == if ret == 0 then [x] + old(Contents()) else old(Contents())
      ensures currSize == if ret == 0 && old(numItems) == old(currSize) then NextSize(old(currSize)) else old(currSize)
    {
      ret := MakeRoom();
      if ret == 0 {
        PushFront(x);
      }
    }

    method InsertTail(x: T) returns (ret: int)
      requires Valid()
      modifies `currSize, `numItems, `listHead, `listTail, `entry, entry
      ensures Valid() && (entry == old(entry) || fresh(entry))
      ensures ret == if |old(Contents())| == old(currSize) == maxmSize && maxmSize > 0 then -1 else 0
      ensures Contents() == if ret == 0 then old(Contents()) + [x] else old(Contents())
      ensures currSize == if ret == 0 && old(numItems) == old(currSize) then NextSize(old(currSize)) else old(currSize)
    {
      ret := MakeRoom();
      if ret == 0 {
        PushBack(x);
      }
    }

    method RemoveHead()
      requires Valid()
      modifies `listHead, `numItems
      ensures Valid() && Contents() == if old(Contents()) == [] then [] else old(Contents())[1..]
    {
      if numItems == 0 {
        return;
      }
      listHead := if listHead == currSize - 1 then 0 else listHead + 1;
      numItems := numItems - 1;
    }

    method RemoveTail()
      requires Valid()
      modifies `listTail, `numItems
      ensures Valid()
      ensures var was := old(Contents()); Contents() == if was == [] then [] else was[..|was| - 1]
    {
      if numItems == 0 {
        return;
      }
      listTail := if listTail == 0 then currSize - 1 else listTail - 1;
      numItems := numItems - 1;
    }

    method GetHead() returns (x: T)
      requires Valid()
      ensures x == if Contents() == [] then blank else Contents()[0]
    {
      return if numItems == 0 then blank else entry[listHead];
    }

    method GetTail() returns (x: T)
      requires Valid()
      ensures x == if Contents() == [] then blank else Contents()[|Contents()| - 1]
    {
      return if numItems == 0 then blank else entry[listTail];
    }

    method Drain()
      requires Valid()
      modifies `numItems, `listHead, `listTail
      ensures Valid() && Contents() == []
    {
      numItems, listHead, listTail := 0, 0, 0;
    }

    // -------------------------------------------------------------------------------------------
    // Removal in the middle
    // -------------------------------------------------------------------------------------------

    /** The logical position of an occupied array index. */
    ghost function Position(indx: nat): nat
      reads this
    {
      if indx >= listHead then indx - listHead
      else if indx + currSize >= listHead then indx + currSize - listHead else 0
    }

    ghost predicate Occupied(indx: nat)
      reads this
      requires Valid()
    {
      indx < currSize && numItems > 0 && Position(indx) < numItems
    }

    /** An occupied index holds the entry at its position, and every position has its index. */
    lemma PositionIsExact(indx: nat)
      requires Valid()
      ensures Occupied(indx) <==> exists k: nat :: k < numItems && Slot(listHead, k, currSize) == indx
      ensures Occupied(indx) ==>
                Slot(listHead, Position(indx), currSize) == indx && Contents()[Position(indx)] == entry[indx]
    {
      if Occupied(indx) {
        assert Slot(listHead, Position(indx), currSize) == indx;
      }
    }

    /** One assignment of a shifting loop. */
    method CopySlot(to: nat, from: nat, ghost k: nat, ghost m: nat)
      requires Valid() && k < numItems && m < numItems
      requires to == Slot(listHead, k, currSize) && from == Slot(listHead, m, currSize)
      modifies entry
      ensures Contents() == old(Contents())[k := old(Contents())[m]]
    {
      ghost var a := entry[..];
      ViewUpdate(a, listHead, numItems, k, entry[from]);
      entry[to] := entry[from];
      assert entry[..] == a[to := a[from]];
    }

    /** Closes the gap at a position from the right: `nr` entries move one slot down. */
    method ShiftRight(indx: nat, nr: nat)
      requires Valid() && Occupied(indx) && nr == numItems - 1 - Position(indx)
      modifies entry
      ensures Contents() == ShiftedDown(old(Contents()), Position(indx), nr)
    {
      ghost var v, p: nat := Contents(), Position(indx);
      var i := 0;
      while i < nr
        invariant 0 <= i <= nr && Contents() == ShiftedDown(v, p, i)
      {
        IndexAhead(listHead, p, i, currSize, indx);
        IndexAhead(listHead, p, i + 1, currSize, indx);
        ShiftedDownStep(v, p, i);
        CopySlot((indx + i) % currSize, (indx + i + 1) % currSize, p + i, p + i + 1);
        i := i + 1;
      }
    }

    /** Closes the gap from the left: `nl` entries move one slot up. */
    method ShiftLeft(indx: nat, nl: nat)
      requires Valid() && Occupied(indx) && nl == Position(indx)
      modifies entry
      ensures Contents() == ShiftedUp(old(Contents()), nl, nl)
    {
      ghost var v := Contents();
      var i := 0;
      while i < nl
        invariant 0 <= i <= nl && Contents() == ShiftedUp(v, nl, i)
      {
        IndexBehind(listHead, nl, i, currSize, indx);
        IndexBehind(listHead, nl, i + 1, currSize, indx);
        ShiftedUpStep(v, nl, i);
        CopySlot((indx + currSize - i) % currSize, (indx + currSize - i - 1) % currSize, nl - i, nl - i - 1);
        i := i + 1;
      }
    }

    method DropFront()
      requires Valid() && numItems > 1
      modifies `numItems, `listHead
      ensures Valid() && Contents() == old(Contents())[1..]
    {
      ModSmall(listHead + 1, currSize);
      numItems := numItems - 1;
      listHead := (listHead + 1) % currSize;
    }

    method DropBack()
      requires Valid() && numItems > 1
      modifies `numItems, `listTail
      ensures Valid() && Contents() == old(Contents())[..old(numItems) - 1]
    {
      ModSmall(listTail + currSize - 1, currSize);
      numItems := numItems - 1;
      listTail := (listTail + currSize - 1) % currSize;
    }

    /** The branch for an entry strictly inside the list: the shorter side is shifted. */
    method RemoveInside(indx: nat)
      requires Valid() && Occupied(indx) && numItems > 1 && indx != listHead && indx != listTail
      modifies `numItems, `listHead, `listTail, entry
      ensures Valid() && Contents() == WithoutAt(old(Contents()), old(Position(indx)))
    {
      ghost var v, p: nat := Contents(), Position(indx);
      var nl := if indx > listHead then indx - listHead else currSize + indx - listHead;
      var nr := if indx < listTail then listTail - indx else currSize + listTail - indx;
      if nr < nl {
        ShiftRight(indx, nr);
        ShortenBack(v, p);
        DropBack();
      } else {
        ShiftLeft(indx, nl);
        ShortenFront(v, p);
        DropFront();
      }
    }

    /** The two range tests of `remove`. */
    predicate OutOfRange(indx: nat)
      reads this
    {
      || (listHead > listTail && indx < listHead && indx > listTail)
      || (listHead < listTail && (indx < listHead || indx > listTail))
    }

    /** What they establish in a list that is not empty. */
    lemma RangeTests(indx: nat)
      requires Valid() && numItems > 0 && (indx < currSize || listHead <= listTail)
      ensures OutOfRange(indx) ==> !Occupied(indx) && numItems > 1
      ensures !OutOfRange(indx) && numItems > 1 ==> Occupied(indx)
      ensures numItems > 1 && indx == listHead ==> Position(indx) == 0
      ensures numItems > 1 && indx == listTail ==> Position(indx) == numItems - 1
      ensures numItems == 1 && Occupied(indx) ==> Position(indx) == 0
    {
    }

    /** Removes the entry at a cursor. A cursor of another list and an index that is not in the list are ignored,
        unless the list has a single entry: then that entry goes, wherever the cursor points. On an empty list the
        count wraps around, unless an old head and tail happen to exclude the index. */
    method Remove(own: bool, indx: nat)
      requires Valid() && (indx < currSize || listHead <= listTail)
      modifies `numItems, `listHead, `listTail, entry
      ensures old(numItems) > 0 ==> Valid()
      ensures old(numItems) > 0 ==>
                (Contents() == if own && old(Occupied(indx)) then WithoutAt(old(Contents()), old(Position(indx)))
                               else if own && old(numItems) == 1 then [] else old(Contents()))
      ensures old(numItems) == 0 ==> numItems == if own && !old(OutOfRange(indx)) then 0xFFFF_FFFF else 0
    {
      if !own || OutOfRange(indx) {
        if numItems > 0 {
          RangeTests(indx);
        }
        return;
      }
      if numItems == 0 {
        numItems := 0xFFFF_FFFF;
        return;
      }
      RangeTests(indx);
      if numItems == 1 {
        numItems, listHead, listTail := 0, 0, 0;
      } else if indx == listHead {
        DropFront();
      } else if indx == listTail {
        DropBack();
      } else {
        RemoveInside(indx);
      }
    }

    // -------------------------------------------------------------------------------------------
    // Cursors
    // -------------------------------------------------------------------------------------------

    function NextIndex(indx: nat): (r: nat)
      reads this
      requires Valid() && Occupied(indx)
      ensures r == Slot(listHead, if Position(indx) == numItems - 1 then 0 else Position(indx) + 1, currSize)
    {
      ModSmall(indx + 1, currSize);
      if indx == listTail then listHead else (indx + 1) % currSize
    }

    function PrevIndex(indx: nat): (r: nat)
      reads this
      requires Valid() && Occupied(indx)
      ensures r == Slot(listHead, if Position(indx) == 0 then numItems - 1 else Position(indx) - 1, currSize)
    {
      if indx == listHead then listTail else if indx > 0 then indx - 1 else currSize - 1
    }

    /** A cursor stepped forward once for every entry visits each of them once, in order, and is back at the head. */
    method Scan() returns (visited: seq<T>)
      requires Valid()
      ensures visited == Contents()
    {
      visited := [];
      var cursor := listHead;
      var i := 0;
      while i < numItems
        invariant 0 <= i <= numItems && visited == Contents()[..i]
        invariant numItems > 0 ==> cursor == Slot(listHead, if i == numItems then 0 else i, currSize)
      {
        visited := visited + [entry[cursor]];
        cursor := NextIndex(cursor);
        i := i + 1;
      }
    }

    /** The same backwards from the tail. */
    method ScanBackward() returns (visited: seq<T>)
      requires Valid()
      ensures |visited| == |Contents()|
      ensures forall k | 0 <= k < |visited| :: visited[k] == Contents()[|visited| - 1 - k]
    {
      visited := [];
      var cursor := listTail;
      var i := 0;
      while i < numItems
        invariant 0 <= i <= numItems && |visited| == i
        invariant forall k | 0 <= k < i :: visited[k] == Contents()[numItems - 1 - k]
        invariant numItems > 0 ==>
                    cursor == Slot(listHead, if i == numItems then numItems - 1 else numItems - 1 - i, currSize)
      {
        visited := visited + [entry[cursor]];
        cursor := PrevIndex(cursor);
        i := i + 1;
      }
    }
  }

  /** A cursor that points at nothing removes the only entry of a list. */
  method StaleCursorRemoves(x: int) returns (l: List<int>)
    ensures fresh(l) && l.Valid() && l.Contents() == []
  {
    l := new List(2, 1, 0, 0);
    var _ := l.InsertTail(x);
    assert l.Contents() == [x];
    l.Remove(true, if l.listHead == 0 then 1 else 0);
  }

  /** On a new list a removal takes the count below zero, where it wraps around. */
  method EmptyListCountWraps() returns (l: List<int>)
    ensures fresh(l) && l.numItems == 0xFFFF_FFFF
  {
    l := new List(2, 1, 0, 0);
    assert l.Contents() == [];
    l.Remove(true, 0);
  }
}
