/** The map from field names to the fields of a structured event (`RDI_StructuredEvent`, include/RDIEvent.h):
    built once over the linear hash table, it must answer like a scan of the event. */
module EventFields {
  import opened LinearHash
  import opened Wrappers

  /** A named value; the name pointer of the original may be null. */
  datatype Field<+A> = Field(name: Option<string>, value: A)

  /** The two value pointers of a map entry; a pointer into a value array is an index here. */
  datatype VMapNode = VMapNode(vahdr: Option<nat>, fdata: Option<nat>)

  // ---------------------------------------------------------------------------------------------
  // What a scan finds
  // ---------------------------------------------------------------------------------------------

  ghost predicate Named<A>(fields: seq<Field<A>>, i: nat, nm: string) {
    i < |fields| && fields[i].name == Some(nm)
  }

  ghost predicate IsFirst<A>(fields: seq<Field<A>>, n: nat, i: nat, nm: string) {
    i < n && Named(fields, i, nm) && forall j | 0 <= j < i :: !Named(fields, j, nm)
  }

  ghost predicate IsLast<A>(fields: seq<Field<A>>, n: nat, i: nat, nm: string) {
    i < n && Named(fields, i, nm) && forall j | i < j < n :: !Named(fields, j, nm)
  }

  ghost predicate NoneNamed<A>(fields: seq<Field<A>>, n: nat, nm: string) {
    forall j | 0 <= j < n :: !Named(fields, j, nm)
  }

  /** The map records of every name the first of `n` header entries and the last of `k` data entries. */
  ghost predicate Records<A>(m: map<string, VMapNode>, hdr: seq<Field<A>>, n: nat, data: seq<Field<A>>, k: nat) {
    forall nm: string {:trigger Recorded(m, hdr, n, data, k, nm)} :: Recorded(m, hdr, n, data, k, nm)
  }

  ghost predicate Recorded<A>(m: map<string, VMapNode>, hdr: seq<Field<A>>, n: nat, data: seq<Field<A>>, k: nat,
                              nm: string) {
    if nm in m then
      && (m[nm].vahdr.Some? || m[nm].fdata.Some?)
      && (if m[nm].vahdr.Some? then IsFirst(hdr, n, m[nm].vahdr.value, nm) else NoneNamed(hdr, n, nm))
      && (if m[nm].fdata.Some? then IsLast(data, k, m[nm].fdata.value, nm) else NoneNamed(data, k, nm))
    else NoneNamed(hdr, n, nm) && NoneNamed(data, k, nm)
  }

  /** The map after one more header entry: an entry is made only for a new name. */
  ghost function WithHeader(m: map<string, VMapNode>, nm: string, i: nat): map<string, VMapNode> {
    if nm in m then m else m[nm := VMapNode(Some(i), None)]
  }

  /** The map after one more data entry: the data pointer is overwritten, the header pointer kept. */
  ghost function WithData(m: map<string, VMapNode>, nm: string, i: nat): map<string, VMapNode> {
    m[nm := VMapNode(if nm in m then m[nm].vahdr else None, Some(i))]
  }

  lemma HeaderStep<A>(m: map<string, VMapNode>, hdr: seq<Field<A>>, data: seq<Field<A>>, i: nat)
    requires i < |hdr| && Records(m, hdr, i, data, 0)
    ensures hdr[i].name.Some? ==> Records(WithHeader(m, hdr[i].name.value, i), hdr, i + 1, data, 0)
    ensures hdr[i].name.None? ==> Records(m, hdr, i + 1, data, 0)
  {
    var m' := if hdr[i].name.Some? then WithHeader(m, hdr[i].name.value, i) else m;
    var n := i + 1;
    forall nm: string
      ensures Recorded(m', hdr, n, data, 0, nm)
    {
      assert Recorded(m, hdr, i, data, 0, nm);
    }
  }

  lemma DataStep<A>(m: map<string, VMapNode>, hdr: seq<Field<A>>, data: seq<Field<A>>, i: nat)
    requires i < |data| && Records(m, hdr, |hdr|, data, i)
    ensures data[i].name.Some? ==> Records(WithData(m, data[i].name.value, i), hdr, |hdr|, data, i + 1)
    ensures data[i].name.None? ==> Records(m, hdr, |hdr|, data, i + 1)
  {
    var m' := if data[i].name.Some? then WithData(m, data[i].name.value, i) else m;
    var n := i + 1;
    forall nm: string
      ensures Recorded(m', hdr, |hdr|, data, n, nm)
    {
      assert Recorded(m, hdr, |hdr|, data, i, nm);
    }
  }

  // ---------------------------------------------------------------------------------------------
  // The event
  // ---------------------------------------------------------------------------------------------

  /** A structured event that does not wrap an `Any`. */
  class StructuredEvent<A, R> {
    const variableHeader: seq<Field<A>>
    const filterableData: seq<Field<A>>
    const initFromAny: A -> R
    const hash: string -> nat
    const rank: (string, string) -> int

    var vmap: HashTable?<string, VMapNode>
    var vahdrRtval: seq<R>
    var fdataRtval: seq<R>

    ghost predicate Ranked() {
      forall a, b :: rank(a, b) == 0 <==> a == b
    }

    constructor (hdr: seq<Field<A>>, data: seq<Field<A>>, init: A -> R, hash: string -> nat,
                 rank: (string, string) -> int)
      requires forall a, b :: rank(a, b) == 0 <==> a == b
      ensures variableHeader == hdr && filterableData == data && initFromAny == init
      ensures Ranked() && vmap == null
    {
      variableHeader, filterableData, initFromAny := hdr, data, init;
      this.hash, this.rank := hash, rank;
      vmap, vahdrRtval, fdataRtval := null, [], [];
    }

    /** Once built, the table records every name and the value arrays hold every converted value. */
    ghost predicate Built()
      reads this, vmap, if vmap == null then {} else {vmap.htable}, if vmap == null then {} else vmap.pool,
            if vmap == null then {} else vmap.dir.nodeOf.Values
    {
      && vmap != null && vmap.Valid()
      && Records(vmap.Contents(), variableHeader, |variableHeader|, filterableData, |filterableData|)
      && vahdrRtval == Values(variableHeader) && fdataRtval == Values(filterableData)
    }

    ghost function Values(fields: seq<Field<A>>): seq<R> {
      seq(|fields|, i requires 0 <= i < |fields| => initFromAny(fields[i].value))
    }

    /** Records one header entry: a name that is already there keeps its first entry. */
    method RecordHeader(table: HashTable<string, VMapNode>, i: nat)
      requires i < |variableHeader| && table.Valid()
      requires Records(table.Contents(), variableHeader, i, filterableData, 0)
      modifies table, table.htable, table.pool
      ensures table.Valid() && Records(table.Contents(), variableHeader, i + 1, filterableData, 0)
      ensures fresh(table.pool - old(table.pool)) && (table.htable == old(table.htable) || fresh(table.htable))
    {
      HeaderStep(table.Contents(), variableHeader, filterableData, i);
      var nm := variableHeader[i].name;
      if nm.Some? {
        var failed, splits := table.Insert(nm.value, VMapNode(Some(i), None));
      }
    }

    /** Records one data entry: the last entry of a name counts. */
    method RecordData(table: HashTable<string, VMapNode>, i: nat)
      requires i < |filterableData| && table.Valid()
      requires Records(table.Contents(), variableHeader, |variableHeader|, filterableData, i)
      modifies table, table.htable, table.pool
      ensures table.Valid() && Records(table.Contents(), variableHeader, |variableHeader|, filterableData, i + 1)
      ensures fresh(table.pool - old(table.pool)) && (table.htable == old(table.htable) || fresh(table.htable))
    {
      DataStep(table.Contents(), variableHeader, filterableData, i);
      var nm := filterableData[i].name;
      if nm.Some? {
        var found, vnode := table.Lookup(nm.value, VMapNode(None, None));
        if found {
          table.Replace(nm.value, vnode.(fdata := Some(i)));
        } else {
          var failed, splits := table.Insert(nm.value, VMapNode(None, Some(i)));
        }
      }
    }

    method RecordHeaders(table: HashTable<string, VMapNode>) returns (vals: seq<R>)
      requires table.Valid() && table.Contents() == map[]
      modifies table, table.htable, table.pool
      ensures table.Valid() && Records(table.Contents(), variableHeader, |variableHeader|, filterableData, 0)
      ensures fresh(table.pool - old(table.pool)) && (table.htable == old(table.htable) || fresh(table.htable))
      ensures vals == Values(variableHeader)
    {
      vals := [];
      var i := 0;
      while i < |variableHeader|
        invariant 0 <= i <= |variableHeader| && vals == Values(variableHeader[..i])
        invariant table.Valid() && Records(table.Contents(), variableHeader, i, filterableData, 0)
        invariant fresh(table.pool - old(table.pool)) && (table.htable == old(table.htable) || fresh(table.htable))
      {
        vals := vals + [initFromAny(variableHeader[i].value)];
        RecordHeader(table, i);
        i := i + 1;
      }
    }

    method RecordAllData(table: HashTable<string, VMapNode>) returns (vals: seq<R>)
      requires table.Valid() && Records(table.Contents(), variableHeader, |variableHeader|, filterableData, 0)
      modifies table, table.htable, table.pool
      ensures table.Valid()
      ensures Records(table.Contents(), variableHeader, |variableHeader|, filterableData, |filterableData|)
      ensures vals == Values(filterableData)
    {
      vals := [];
      var i := 0;
      while i < |filterableData|
        invariant 0 <= i <= |filterableData| && vals == Values(filterableData[..i])
        invariant table.Valid() && Records(table.Contents(), variableHeader, |variableHeader|, filterableData, i)
        invariant fresh(table.pool - old(table.pool)) && (table.htable == old(table.htable) || fresh(table.htable))
      {
        vals := vals + [initFromAny(filterableData[i].value)];
        RecordData(table, i);
        i := i + 1;
      }
    }

    method BuildTable() returns (table: HashTable<string, VMapNode>, vahdr: seq<R>, fdata: seq<R>)
      requires Ranked()
      ensures fresh(table) && table.Valid()
      ensures Records(table.Contents(), variableHeader, |variableHeader|, filterableData, |filterableData|)
      ensures vahdr == Values(variableHeader) && fdata == Values(filterableData)
    {
      table := new HashTable(hash, rank, 32, 10);
      vahdr := RecordHeaders(table);
      fdata := RecordAllData(table);
    }

    /** Builds the map once; later calls find it built. */
    method InitVmap()
      requires Ranked() && (vmap != null ==> Built())
      modifies this
      ensures Built() && (old(vmap) != null ==> unchanged(this))
    {
      if vmap != null {
        return;
      }
      var table, vahdr, fdata := BuildTable();
      vmap, vahdrRtval, fdataRtval := table, vahdr, fdata;
    }

    /** The value of the first header entry with the name, if any, otherwise of the last data entry with it. */
    method LookupRtval(nm: string) returns (val: Option<R>)
      requires Ranked() && (vmap != null ==> Built())
      modifies this
      ensures Built()
      ensures forall i: nat | IsFirst(variableHeader, |variableHeader|, i, nm) ::
                val == Some(initFromAny(variableHeader[i].value))
      ensures NoneNamed(variableHeader, |variableHeader|, nm) ==>
                forall i: nat | IsLast(filterableData, |filterableData|, i, nm) ::
                  val == Some(initFromAny(filterableData[i].value))
      ensures NoneNamed(variableHeader, |variableHeader|, nm) && NoneNamed(filterableData, |filterableData|, nm) ==>
                val == None
    {
      InitVmap();
      assert Recorded(vmap.Contents(), variableHeader, |variableHeader|, filterableData, |filterableData|, nm);
      var found, vnode := vmap.Lookup(nm, VMapNode(None, None));
      if found {
        if vnode.vahdr.Some? {
          return Some(vahdrRtval[vnode.vahdr.value]);
        }
        return Some(fdataRtval[vnode.fdata.value]);
      }
      return None;
    }

    /** The first header entry with the name. */
    method LookupVahdrRtval(nm: string) returns (val: Option<R>)
      requires Ranked() && (vmap != null ==> Built())
      modifies this
      ensures Built()
      ensures forall i: nat | IsFirst(variableHeader, |variableHeader|, i, nm) ::
                val == Some(initFromAny(variableHeader[i].value))
      ensures NoneNamed(variableHeader, |variableHeader|, nm) ==> val == None
    {
      InitVmap();
      assert Recorded(vmap.Contents(), variableHeader, |variableHeader|, filterableData, |filterableData|, nm);
      var found, vnode := vmap.Lookup(nm, VMapNode(None, None));
      if found && vnode.vahdr.Some? {
        return Some(vahdrRtval[vnode.vahdr.value]);
      }
      return None;
    }

    /** The last data entry with the name. */
    method LookupFdataRtval(nm: string) returns (val: Option<R>)
      requires Ranked() && (vmap != null ==> Built())
      modifies this
      ensures Built()
      ensures forall i: nat | IsLast(filterableData, |filterableData|, i, nm) ::
                val == Some(initFromAny(filterableData[i].value))
      ensures NoneNamed(filterableData, |filterableData|, nm) ==> val == None
    {
      InitVmap();
      assert Recorded(vmap.Contents(), variableHeader, |variableHeader|, filterableData, |filterableData|, nm);
      var found, vnode := vmap.Lookup(nm, VMapNode(None, None));
      if found && vnode.fdata.Some? {
        return Some(fdataRtval[vnode.fdata.value]);
      }
      return None;
    }
  }

  /** A name that occurs has a first and a last occurrence, so the lookups above leave no name undecided. */
  lemma {:induction false} OccurrencesAreDecided<A>(fields: seq<Field<A>>, n: nat, nm: string)
    requires n <= |fields| && !NoneNamed(fields, n, nm)
    ensures exists i :: IsFirst(fields, n, i, nm)
    ensures exists i :: IsLast(fields, n, i, nm)
  {
    if NoneNamed(fields, n - 1, nm) {
      assert IsFirst(fields, n, n - 1, nm) && IsLast(fields, n, n - 1, nm);
    } else {
      OccurrencesAreDecided(fields, n - 1, nm);
      var f :| IsFirst(fields, n - 1, f, nm);
      var l :| IsLast(fields, n - 1, l, nm);
      assert IsFirst(fields, n, f, nm);
      assert IsLast(fields, n, if Named(fields, n - 1, nm) then n - 1 else l, nm);
    }
  }
}
