/** The linear hash table of include/RDIHash.h: an array of buckets with linked chains that are split in
    place, a directory that doubles, and a cursor. */
module LinearHash {
  import opened HashAddresses
  import opened Sequences

  class Node<K, V> {
    const key: K
    var val: V
    var next: Node?<K, V>

    constructor (key: K, val: V)
      ensures this.key == key && this.val == val && this.next == null
    {
      this.key, this.val, this.next := key, val, null;
    }
  }

  datatype Bucket<!K, !V> = Bucket(count: nat, nodes: Node?<K, V>)

  ghost function NodeAt<K, V>(c: seq<Node<K, V>>, i: nat): Node?<K, V> {
    if i < |c| then c[i] else null
  }

  // ---------------------------------------------------------------------------------------------
  // Sequences
  // ---------------------------------------------------------------------------------------------

  ghost predicate Distinct<T>(c: seq<T>) {
    forall i, j | 0 <= i < j < |c| :: c[i] != c[j]
  }

  lemma WithoutAtDistinct<T>(c: seq<T>, i: nat)
    requires i < |c| && Distinct(c)
    ensures Distinct(WithoutAt(c, i))
  {
  }

  lemma WithoutAtMembers<T>(c: seq<T>, i: nat, x: T)
    requires i < |c| && Distinct(c)
    ensures x in WithoutAt(c, i) <==> x in c && x != c[i]
  {
    var r := WithoutAt(c, i);
    if x in c && x != c[i] {
      var j :| 0 <= j < |c| && c[j] == x;
      assert r[if j < i then j else j - 1] == x;
    }
    if x in r {
      var j :| 0 <= j < |r| && r[j] == x;
      assert c[if j < i then j else j + 1] == x;
    }
  }

  // ---------------------------------------------------------------------------------------------
  // What the chains mean, independently of the pointers
  // ---------------------------------------------------------------------------------------------

  /** The nodes of every bucket in chain order, the node of every key, and the bucket of every key. */
  datatype Directory<!K, !V> = Directory(chains: seq<seq<Node<K, V>>>, nodeOf: map<K, Node<K, V>>, homeOf: map<K, nat>)

  /** The chains hold exactly the nodes of `nodeOf`, each once and in the bucket `homeOf` its key. */
  ghost predicate Indexed<K(!new), V>(d: Directory<K, V>) {
    && (forall b {:trigger AllHome(d, b)} | 0 <= b < |d.chains| :: AllHome(d, b))
    && (forall k {:trigger Located(d, k)} | k in d.nodeOf :: Located(d, k))
  }

  ghost predicate AllHome<K(!new), V>(d: Directory<K, V>, b: nat)
    requires b < |d.chains|
  {
    && Distinct(d.chains[b])
    && forall n: Node<K, V> | n in d.chains[b] ::
         n.key in d.nodeOf && d.nodeOf[n.key] == n && n.key in d.homeOf && d.homeOf[n.key] == b
  }

  ghost predicate Located<K(!new), V>(d: Directory<K, V>, k: K) {
    && k in d.nodeOf && k in d.homeOf && d.nodeOf[k].key == k
    && d.homeOf[k] < |d.chains| && d.nodeOf[k] in d.chains[d.homeOf[k]]
  }

  ghost function EmptyChains<K, V>(n: nat): seq<seq<Node<K, V>>> {
    seq(n, _ => [])
  }

  ghost predicate Pooled<K, V>(cs: seq<seq<Node<K, V>>>, pool: set<Node<K, V>>) {
    forall b, i | 0 <= b < |cs| && 0 <= i < |cs[b]| :: cs[b][i] in pool
  }

  ghost predicate Absent<K, V>(cs: seq<seq<Node<K, V>>>, node: Node?<K, V>) {
    forall b, i | 0 <= b < |cs| && 0 <= i < |cs[b]| :: cs[b][i] != node
  }

  ghost function Cut<K, V>(cs: seq<seq<Node<K, V>>>, b: nat, i: nat): seq<seq<Node<K, V>>>
    requires b < |cs| && i < |cs[b]|
  {
    cs[b := WithoutAt(cs[b], i)]
  }

  ghost function Pushed<K, V>(cs: seq<seq<Node<K, V>>>, b: nat, node: Node<K, V>): seq<seq<Node<K, V>>>
    requires b < |cs|
  {
    cs[b := [node] + cs[b]]
  }

  /** The directory after the `i`th node of bucket `b` has moved to the front of bucket `target`. */
  ghost function Moved<K(!new), V>(d: Directory<K, V>, b: nat, i: nat, target: nat): Directory<K, V>
    requires b < |d.chains| && target < |d.chains| && b != target && i < |d.chains[b]|
  {
    var node := d.chains[b][i];
    Directory(Pushed(Cut(d.chains, b, i), target, node), d.nodeOf, d.homeOf[node.key := target])
  }

  ghost function Added<K(!new), V>(d: Directory<K, V>, b: nat, node: Node<K, V>): Directory<K, V>
    requires b < |d.chains|
  {
    Directory(Pushed(d.chains, b, node), d.nodeOf[node.key := node], d.homeOf[node.key := b])
  }

  ghost function Dropped<K(!new), V>(d: Directory<K, V>, b: nat, i: nat): Directory<K, V>
    requires b < |d.chains| && i < |d.chains[b]|
  {
    var key := d.chains[b][i].key;
    Directory(Cut(d.chains, b, i), d.nodeOf - {key}, d.homeOf - {key})
  }

  /** A listed node is in no other bucket, and nowhere once it has been taken out. */
  lemma OnlyAtHome<K(!new), V>(d: Directory<K, V>, b: nat, i: nat)
    requires Indexed(d) && b < |d.chains| && i < |d.chains[b]|
    ensures Distinct(d.chains[b])
    ensures var n := d.chains[b][i];
            n.key in d.nodeOf && d.nodeOf[n.key] == n && n.key in d.homeOf && d.homeOf[n.key] == b
    ensures Absent(d.chains[b := []], d.chains[b][i])
    ensures Absent(Cut(d.chains, b, i), d.chains[b][i])
  {
    var node, after := d.chains[b][i], Cut(d.chains, b, i);
    assert AllHome(d, b) && node in d.chains[b];
    forall c, j | 0 <= c < |d.chains| && c != b && 0 <= j < |d.chains[c]|
      ensures d.chains[c][j] != node
    {
      assert AllHome(d, c) && d.chains[c][j] in d.chains[c];
    }
    WithoutAtMembers(d.chains[b], i, node);
    forall c, j | 0 <= c < |after| && 0 <= j < |after[c]|
      ensures after[c][j] != node
    {
      if c == b {
        assert after[c][j] in WithoutAt(d.chains[b], i);
      }
    }
  }

  lemma AddKeepsIndexed<K(!new), V>(d: Directory<K, V>, b: nat, node: Node<K, V>)
    requires Indexed(d) && b < |d.chains| && node.key !in d.nodeOf
    ensures Indexed(Added(d, b, node))
  {
    var d' := Added(d, b, node);
    forall c | 0 <= c < |d'.chains|
      ensures AllHome(d', c)
    {
      assert AllHome(d, c);
      if c == b {
        assert node !in d.chains[b];
      }
    }
    forall k | k in d'.nodeOf
      ensures Located(d', k)
    {
      if k != node.key {
        assert Located(d, k);
      }
    }
  }

  lemma DropKeepsIndexed<K(!new), V>(d: Directory<K, V>, b: nat, i: nat)
    requires Indexed(d) && b < |d.chains| && i < |d.chains[b]|
    ensures Indexed(Dropped(d, b, i))
  {
    var c, node, d' := d.chains[b], d.chains[b][i], Dropped(d, b, i);
    assert AllHome(d, b) && node in c;
    forall e | 0 <= e < |d'.chains|
      ensures AllHome(d', e)
    {
      assert AllHome(d, e);
      if e == b {
        WithoutAtDistinct(c, i);
      }
      forall n: Node<K, V> | n in d'.chains[e]
        ensures n.key in d'.nodeOf && d'.nodeOf[n.key] == n && n.key in d'.homeOf && d'.homeOf[n.key] == e
      {
        if e == b {
          WithoutAtMembers(c, i, n);
        }
      }
    }
    forall k | k in d'.nodeOf
      ensures Located(d', k)
    {
      assert Located(d, k);
      if d.homeOf[k] == b {
        WithoutAtMembers(c, i, d.nodeOf[k]);
      }
    }
  }

  lemma PutBack<X, Y>(m: map<X, Y>, x: X, y: Y)
    requires x in m && m[x] == y
    ensures (m - {x})[x := y] == m
  {
  }

  lemma PutOver<X, Y>(m: map<X, Y>, x: X, y: Y)
    ensures (m - {x})[x := y] == m[x := y]
  {
  }

  /** Moving a node is dropping it and adding it elsewhere. */
  lemma MoveKeepsIndexed<K(!new), V>(d: Directory<K, V>, b: nat, i: nat, target: nat)
    requires Indexed(d)
    requires b < |d.chains| && target < |d.chains| && b != target && i < |d.chains[b]|
    ensures Indexed(Moved(d, b, i, target))
  {
    var node := d.chains[b][i];
    OnlyAtHome(d, b, i);
    DropKeepsIndexed(d, b, i);
    AddKeepsIndexed(Dropped(d, b, i), target, node);
    PutBack(d.nodeOf, node.key, node);
    PutOver(d.homeOf, node.key, target);
  }

  /** What rehashing a bucket from position `i` on does to the directory. */
  ghost function Replay<K(!new), V>(d: Directory<K, V>, b: nat, rehash: K -> nat, i: nat): Directory<K, V>
    requires b < |d.chains|
    decreases |d.chains[b]| - i
  {
    if i >= |d.chains[b]| then d
    else
      var t := rehash(d.chains[b][i].key);
      if t == b || t >= |d.chains| then Replay(d, b, rehash, i + 1)
      else Replay(Moved(d, b, i, t), b, rehash, i)
  }

  /** Every move of that run takes a node that is linked nowhere else to an existing bucket. */
  ghost predicate CanReplay<K(!new), V>(d: Directory<K, V>, b: nat, rehash: K -> nat, i: nat)
    requires b < |d.chains|
    decreases |d.chains[b]| - i
  {
    i >= |d.chains[b]| ||
    var t := rehash(d.chains[b][i].key);
    if t == b then CanReplay(d, b, rehash, i + 1)
    else
      && t < |d.chains| && Distinct(d.chains[b])
      && Absent(d.chains[b := []], if i == 0 then null else d.chains[b][i - 1])
      && Absent(Cut(d.chains, b, i), d.chains[b][i])
      && CanReplay(Moved(d, b, i, t), b, rehash, i)
  }

  ghost predicate Settled<K, V>(d: Directory<K, V>, b: nat, rehash: K -> nat, i: nat)
    requires b < |d.chains| && i <= |d.chains[b]|
  {
    && (forall j | 0 <= j < i :: rehash(d.chains[b][j].key) == b)
    && (forall j | i <= j < |d.chains[b]| :: rehash(d.chains[b][j].key) < |d.chains|)
  }

  lemma StepIsExact<K(!new), V>(d: Directory<K, V>, b: nat, rehash: K -> nat, i: nat)
    requires b < |d.chains| && i < |d.chains[b]| && Indexed(d) && Settled(d, b, rehash, i)
    requires rehash(d.chains[b][i].key) != b
    ensures Distinct(d.chains[b]) && Absent(Cut(d.chains, b, i), d.chains[b][i])
    ensures Absent(d.chains[b := []], if i == 0 then null else d.chains[b][i - 1])
    ensures Settled(Moved(d, b, i, rehash(d.chains[b][i].key)), b, rehash, i)
    ensures d.chains[b][i].key in d.homeOf && d.homeOf[d.chains[b][i].key] == b
  {
    OnlyAtHome(d, b, i);
    if i > 0 {
      OnlyAtHome(d, b, i - 1);
    }
    assert Moved(d, b, i, rehash(d.chains[b][i].key)).chains[b] == WithoutAt(d.chains[b], i);
  }

  lemma {:induction false} ReplayIsSafe<K(!new), V>(d: Directory<K, V>, b: nat, rehash: K -> nat, i: nat)
    requires b < |d.chains| && i <= |d.chains[b]| && Indexed(d) && Settled(d, b, rehash, i)
    ensures CanReplay(d, b, rehash, i)
    decreases |d.chains[b]| - i
  {
    if i < |d.chains[b]| {
      var t := rehash(d.chains[b][i].key);
      if t == b {
        ReplayIsSafe(d, b, rehash, i + 1);
      } else {
        StepIsExact(d, b, rehash, i);
        MoveKeepsIndexed(d, b, i, t);
        ReplayIsSafe(Moved(d, b, i, t), b, rehash, i);
      }
    }
  }

  ghost predicate Rehomed<K(!new), V>(d: Directory<K, V>, d': Directory<K, V>, b: nat, rehash: K -> nat) {
    && |d'.chains| == |d.chains| && d'.nodeOf == d.nodeOf
    && forall k | k in d.nodeOf ::
         k in d.homeOf && k in d'.homeOf && d'.homeOf[k] == if d.homeOf[k] == b then rehash(k) else d.homeOf[k]
  }

  lemma {:induction false} ReplayKeepsIndexed<K(!new), V>(d: Directory<K, V>, b: nat, rehash: K -> nat, i: nat)
    requires b < |d.chains| && i <= |d.chains[b]| && Indexed(d) && Settled(d, b, rehash, i)
    ensures Indexed(Replay(d, b, rehash, i))
    decreases |d.chains[b]| - i
  {
    if i < |d.chains[b]| {
      var t := rehash(d.chains[b][i].key);
      if t == b {
        ReplayKeepsIndexed(d, b, rehash, i + 1);
      } else {
        StepIsExact(d, b, rehash, i);
        MoveKeepsIndexed(d, b, i, t);
        ReplayKeepsIndexed(Moved(d, b, i, t), b, rehash, i);
      }
    }
  }

  lemma RehomedAcross<K(!new), V>(d: Directory<K, V>, m: Directory<K, V>, d': Directory<K, V>,
                                  b: nat, rehash: K -> nat, key: K)
    requires key in d.homeOf && d.homeOf[key] == b != rehash(key)
    requires |m.chains| == |d.chains| && m.nodeOf == d.nodeOf && m.homeOf == d.homeOf[key := rehash(key)]
    requires Rehomed(m, d', b, rehash)
    ensures Rehomed(d, d', b, rehash)
  {
  }

  /** Rehashing a bucket sends the keys of the bucket where they hash to now, and no other key anywhere. */
  lemma {:induction false} ReplayRehomes<K(!new), V>(d: Directory<K, V>, b: nat, rehash: K -> nat, i: nat)
    requires b < |d.chains| && i <= |d.chains[b]| && Indexed(d) && Settled(d, b, rehash, i)
    ensures Rehomed(d, Replay(d, b, rehash, i), b, rehash)
    decreases |d.chains[b]| - i
  {
    if i == |d.chains[b]| {
      forall k | k in d.nodeOf
        ensures k in d.homeOf && (d.homeOf[k] == b ==> rehash(k) == b)
      {
        assert Located(d, k);
      }
    } else {
      var t := rehash(d.chains[b][i].key);
      if t == b {
        ReplayRehomes(d, b, rehash, i + 1);
      } else {
        StepIsExact(d, b, rehash, i);
        MoveKeepsIndexed(d, b, i, t);
        ReplayRehomes(Moved(d, b, i, t), b, rehash, i);
        RehomedAcross(d, Moved(d, b, i, t), Replay(d, b, rehash, i), b, rehash, d.chains[b][i].key);
      }
    }
  }

  // ---------------------------------------------------------------------------------------------
  // Linked chains
  // ---------------------------------------------------------------------------------------------

  /** A bucket whose linked chain is exactly `c`. */
  ghost predicate Chained<K, V>(bucket: Bucket<K, V>, c: seq<Node<K, V>>)
    reads c`next
  {
    && bucket.count == |c| && bucket.nodes == NodeAt(c, 0)
    && forall i {:trigger c[i].next} | 0 <= i < |c| :: c[i].next == NodeAt(c, i + 1)
  }

  /** Bypassing the node at position `i` leaves the chain without it. */
  lemma ChainBypassed<K, V>(c: seq<Node<K, V>>, after: Bucket<K, V>, i: nat)
    requires i < |c| && Distinct(c)
    requires forall k {:trigger c[k].next} | 0 <= k < |c| && k != i ::
               c[k].next == NodeAt(c, if k == i - 1 then i + 1 else k + 1)
    requires after.count == |c| - 1 && after.nodes == NodeAt(c, if i == 0 then 1 else 0)
    ensures Chained(after, WithoutAt(c, i))
  {
  }

  lemma ChainExtended<K, V>(c: seq<Node<K, V>>, node: Node<K, V>, after: Bucket<K, V>)
    requires forall k {:trigger c[k].next} | 0 <= k < |c| :: c[k].next == NodeAt(c, k + 1)
    requires node.next == NodeAt(c, 0) && after == Bucket(|c| + 1, node)
    ensures Chained(after, [node] + c)
  {
  }

  // ---------------------------------------------------------------------------------------------
  // Addresses of all keys
  // ---------------------------------------------------------------------------------------------

  /** Every key is in the bucket `pseudo_hash` gives. */
  ghost predicate AllAt<K(!new), V>(d: Directory<K, V>, hash: K -> nat, curr: nat, next: nat, split: nat)
    requires curr > 0 && next > 0
  {
    forall k {:trigger At(d, k, hash, curr, next, split)} | k in d.nodeOf :: At(d, k, hash, curr, next, split)
  }

  ghost predicate At<K(!new), V>(d: Directory<K, V>, k: K, hash: K -> nat, curr: nat, next: nat, split: nat)
    requires curr > 0 && next > 0
  {
    k in d.homeOf && d.homeOf[k] == Address(hash(k), curr, next, split)
  }

  /** The keys that share a bucket with a hash value in a given layout. */
  ghost function Sharing<K(!new)>(keys: set<K>, hash: K -> nat, h: nat, z: Layout): set<K>
    requires z.curr > 0 && z.next > 0
  {
    set k | k in keys && Address(hash(k), z.curr, z.next, z.split) == Address(h, z.curr, z.next, z.split)
  }

  lemma {:induction false} SizeByKeys<K, V>(c: seq<Node<K, V>>, keys: set<K>)
    requires forall i, j | 0 <= i < j < |c| :: c[i].key != c[j].key
    requires forall k {:trigger k in keys} :: k in keys <==> exists i :: 0 <= i < |c| && c[i].key == k
    ensures |c| == |keys|
  {
    if c != [] {
      var rest, last := c[..|c| - 1], c[|c| - 1];
      var fewer := keys - {last.key};
      forall k
        ensures k in fewer <==> exists i :: 0 <= i < |rest| && rest[i].key == k
      {
        if k in fewer {
          var i :| 0 <= i < |c| && c[i].key == k;
          assert rest[i] == c[i];
        }
      }
      SizeByKeys(rest, fewer);
      assert last.key in keys;
    }
  }

  /** The length of a bucket's chain is the number of keys that belong there. */
  lemma LoadIsExact<K(!new), V>(d: Directory<K, V>, b: nat, hash: K -> nat, h: nat, z: Layout)
    requires z.curr > 0 && z.next > 0 && Indexed(d) && AllAt(d, hash, z.curr, z.next, z.split)
    requires b < |d.chains| && b == Address(h, z.curr, z.next, z.split)
    ensures |d.chains[b]| == |Sharing(d.nodeOf.Keys, hash, h, z)|
  {
    var c, keys := d.chains[b], Sharing(d.nodeOf.Keys, hash, h, z);
    assert AllHome(d, b);
    forall i, j | 0 <= i < j < |c|
      ensures c[i].key != c[j].key
    {
      assert c[i] in c && c[j] in c;
    }
    forall k
      ensures k in keys <==> exists i :: 0 <= i < |c| && c[i].key == k
    {
      if k in keys {
        assert Located(d, k) && At(d, k, hash, z.curr, z.next, z.split);
        assert d.nodeOf[k] in c;
      }
      if i :| 0 <= i < |c| && c[i].key == k {
        assert c[i] in c && At(d, k, hash, z.curr, z.next, z.split);
      }
    }
    SizeByKeys(c, keys);
  }

  /** The bucket of a hash value was full before each of `n` steps of growth. */
  ghost predicate FullFor<K(!new)>(keys: set<K>, hash: K -> nat, h: nat, capacity: nat, z: Layout, n: nat)
    requires z.curr > 0 && z.next > 0
  {
    forall i: nat | i < n :: |Sharing(keys, hash, h, Grown(z, i))| >= capacity
  }

  lemma FullForOneMore<K(!new)>(keys: set<K>, hash: K -> nat, h: nat, capacity: nat, z: Layout, n: nat)
    requires z.curr > 0 && z.next > 0 && FullFor(keys, hash, h, capacity, z, n)
    requires |Sharing(keys, hash, h, Grown(z, n))| >= capacity
    ensures FullFor(keys, hash, h, capacity, z, n + 1) && Grown(z, n + 1) == NextLayout(Grown(z, n))
  {
  }

  /** The table has grown until the bucket of a hash value had room, but by at most five steps. */
  ghost predicate RoomMade<K(!new)>(keys: set<K>, hash: K -> nat, h: nat, capacity: nat, z: Layout, now: Layout,
                                    splits: nat)
    requires z.curr > 0 && z.next > 0
  {
    && splits <= 5 && now == Grown(z, splits) && FullFor(keys, hash, h, capacity, z, splits)
    && (splits < 5 ==> |Sharing(keys, hash, h, now)| < capacity)
  }

  lemma AllAtAfterSplit<K(!new), V>(d: Directory<K, V>, d': Directory<K, V>, hash: K -> nat, rehash: K -> nat,
                                    curr: nat, next: nat, split: nat, after: nat)
    requires Sized(curr, next, split) && next == 2 * curr && split < curr && after == split + 1
    requires AllAt(d, hash, curr, next, split) && Rehomed(d, d', split, rehash)
    requires forall k :: rehash(k) == BitAnd(hash(k), next - 1)
    ensures AllAt(d', hash, curr, next, after) && Sized(curr, next, after)
  {
    forall k | k in d'.nodeOf
      ensures At(d', k, hash, curr, next, after)
    {
      assert At(d, k, hash, curr, next, split);
      AddressAfterSplit(hash(k), curr, next, split);
    }
  }

  lemma AllAtAfterDoubling<K(!new), V>(d: Directory<K, V>, d': Directory<K, V>, hash: K -> nat, curr: nat)
    requires Sized(curr, curr, 0) && AllAt(d, hash, curr, curr, 0) && d'.nodeOf == d.nodeOf && d'.homeOf == d.homeOf
    ensures AllAt(d', hash, curr, 2 * curr, 0)
  {
    forall k | k in d'.nodeOf
      ensures At(d', k, hash, curr, 2 * curr, 0)
    {
      assert At(d, k, hash, curr, curr, 0);
      AddressAfterDoubling(hash(k), curr);
    }
  }

  lemma AllAtAfterWrap<K(!new), V>(d: Directory<K, V>, hash: K -> nat, curr: nat, next: nat)
    requires Sized(curr, next, curr) && AllAt(d, hash, curr, next, curr)
    ensures AllAt(d, hash, next, next, 0)
  {
    forall k | k in d.nodeOf
      ensures At(d, k, hash, next, next, 0)
    {
      assert At(d, k, hash, curr, next, curr);
      AddressAfterWrap(hash(k), curr, next);
    }
  }

  /** The bucket of a rehashed key exists. */
  lemma RehashSettles<K(!new), V>(d: Directory<K, V>, b: nat, hash: K -> nat, rehash: K -> nat, next: nat)
    requires PowerOfTwo(next) && |d.chains| == next && b < next
    requires forall k :: rehash(k) == BitAnd(hash(k), next - 1)
    ensures Settled(d, b, rehash, 0)
  {
    forall j | 0 <= j < |d.chains[b]|
      ensures rehash(d.chains[b][j].key) < |d.chains|
    {
      MaskIsMod(hash(d.chains[b][j].key), next);
    }
  }

  /** The first node of the chain with the key is the key's node; there is none only if the key is not stored. */
  lemma FindIsRight<K(!new), V>(d: Directory<K, V>, hash: K -> nat, curr: nat, next: nat, split: nat, key: K, i: nat)
    requires curr > 0 && next > 0 && Indexed(d) && AllAt(d, hash, curr, next, split)
    requires Address(hash(key), curr, next, split) < |d.chains|
    requires var c := d.chains[Address(hash(key), curr, next, split)];
             i <= |c| && (forall j | 0 <= j < i :: c[j].key != key) && (i < |c| ==> c[i].key == key)
    ensures var c := d.chains[Address(hash(key), curr, next, split)];
            && (i < |c| <==> key in d.nodeOf)
            && (i < |c| ==> c[i] == d.nodeOf[key])
  {
    var b := Address(hash(key), curr, next, split);
    assert AllHome(d, b);
    if i < |d.chains[b]| {
      assert d.chains[b][i] in d.chains[b];
    }
    if key in d.nodeOf {
      assert At(d, key, hash, curr, next, split);
      assert Located(d, key);
    }
  }

  lemma KeysOwnNodes<K(!new), V>(d: Directory<K, V>)
    requires Indexed(d)
    ensures forall k | k in d.nodeOf :: d.nodeOf[k].key == k
  {
    forall k | k in d.nodeOf
      ensures d.nodeOf[k].key == k
    {
      assert Located(d, k);
    }
  }

  lemma AllAtAfterAdd<K(!new), V>(d: Directory<K, V>, b: nat, node: Node<K, V>,
                                  hash: K -> nat, curr: nat, next: nat, split: nat)
    requires curr > 0 && next > 0 && b < |d.chains| && AllAt(d, hash, curr, next, split)
    requires b == Address(hash(node.key), curr, next, split)
    ensures AllAt(Added(d, b, node), hash, curr, next, split)
  {
    forall k | k in Added(d, b, node).nodeOf
      ensures At(Added(d, b, node), k, hash, curr, next, split)
    {
      if k != node.key {
        assert At(d, k, hash, curr, next, split);
      }
    }
  }

  lemma AllAtAfterDrop<K(!new), V>(d: Directory<K, V>, b: nat, i: nat, hash: K -> nat, curr: nat, next: nat, split: nat)
    requires curr > 0 && next > 0 && b < |d.chains| && i < |d.chains[b]| && AllAt(d, hash, curr, next, split)
    ensures AllAt(Dropped(d, b, i), hash, curr, next, split)
  {
    forall k | k in Dropped(d, b, i).nodeOf
      ensures At(Dropped(d, b, i), k, hash, curr, next, split)
    {
      assert At(d, k, hash, curr, next, split);
    }
  }

  /** A new node can be linked at the front of its bucket, and the directory stays exact. */
  lemma CanAdd<K(!new), V>(d: Directory<K, V>, b: nat, node: Node<K, V>,
                           hash: K -> nat, curr: nat, next: nat, split: nat)
    requires curr > 0 && next > 0 && AllAt(d, hash, curr, next, split) && Indexed(d)
    requires b < |d.chains| && node.key !in d.nodeOf && b == Address(hash(node.key), curr, next, split)
    ensures Indexed(Added(d, b, node)) && AllAt(Added(d, b, node), hash, curr, next, split)
    ensures Added(d, b, node).chains == Pushed(d.chains, b, node) && |Pushed(d.chains, b, node)| == |d.chains|
    ensures Added(d, b, node).nodeOf == d.nodeOf[node.key := node]
    ensures |Added(d, b, node).nodeOf| == |d.nodeOf| + 1
  {
    AddKeepsIndexed(d, b, node);
    AllAtAfterAdd(d, b, node, hash, curr, next, split);
  }

  lemma EmptyIsExact<K(!new), V>(n: nat, hash: K -> nat, curr: nat, next: nat, split: nat)
    requires curr > 0 && next > 0
    ensures var d: Directory<K, V> := Directory(EmptyChains(n), map[], map[]);
            Indexed(d) && AllAt(d, hash, curr, next, split) && |d.chains| == n && |d.nodeOf| == 0
  {
  }

  /** A stored node can be unlinked: its predecessor is in no other chain, and the directory stays exact. */
  lemma CanTakeOut<K(!new), V>(d: Directory<K, V>, b: nat, i: nat, prev: Node?<K, V>,
                               hash: K -> nat, curr: nat, next: nat, split: nat)
    requires curr > 0 && next > 0 && AllAt(d, hash, curr, next, split)
    requires Indexed(d) && b < |d.chains| && i < |d.chains[b]| && prev == if i == 0 then null else d.chains[b][i - 1]
    ensures Distinct(d.chains[b]) && Absent(d.chains[b := []], prev)
    ensures Indexed(Dropped(d, b, i)) && AllAt(Dropped(d, b, i), hash, curr, next, split)
    ensures Dropped(d, b, i).chains == Cut(d.chains, b, i) && |Cut(d.chains, b, i)| == |d.chains|
    ensures Dropped(d, b, i).nodeOf == d.nodeOf - {d.chains[b][i].key}
    ensures |Dropped(d, b, i).nodeOf| == |d.nodeOf| - 1
  {
    OnlyAtHome(d, b, i);
    if i > 0 {
      OnlyAtHome(d, b, i - 1);
    }
    DropKeepsIndexed(d, b, i);
    AllAtAfterDrop(d, b, i, hash, curr, next, split);
    SizeWithout(d.nodeOf, d.chains[b][i].key);
  }

  lemma SizeWithout<K, N>(m: map<K, N>, k: K)
    requires k in m
    ensures |m - {k}| == |m| - 1
  {
    assert (m - {k})[k := m[k]] == m;
  }

  lemma GrowKeepsIndexed<K(!new), V>(d: Directory<K, V>, n: nat)
    requires Indexed(d)
    ensures Indexed(d.(chains := d.chains + EmptyChains(n)))
  {
    var d' := d.(chains := d.chains + EmptyChains(n));
    forall b | 0 <= b < |d'.chains|
      ensures AllHome(d', b)
    {
      if b < |d.chains| {
        assert AllHome(d, b);
      } else {
        assert d'.chains[b] == [];
      }
    }
    forall k | k in d'.nodeOf
      ensures Located(d', k)
    {
      assert Located(d, k);
    }
  }

  // ---------------------------------------------------------------------------------------------
  // The order of a cursor
  // ---------------------------------------------------------------------------------------------

  /** The nodes of the buckets from `b` on. */
  ghost function Rest<K, V>(cs: seq<seq<Node<K, V>>>, b: nat): seq<Node<K, V>>
    decreases |cs| - b
  {
    if b >= |cs| then [] else cs[b] + Rest(cs, b + 1)
  }

  ghost predicate InSome<K, V>(cs: seq<seq<Node<K, V>>>, b: nat, n: Node<K, V>) {
    exists c :: b <= c < |cs| && n in cs[c]
  }

  lemma {:induction false} RestMembers<K, V>(cs: seq<seq<Node<K, V>>>, b: nat, n: Node<K, V>)
    ensures n in Rest(cs, b) <==> InSome(cs, b, n)
    decreases |cs| - b
  {
    if b < |cs| {
      RestMembers(cs, b + 1, n);
      assert n in Rest(cs, b) <==> n in cs[b] || n in Rest(cs, b + 1);
      assert InSome(cs, b, n) <==> n in cs[b] || InSome(cs, b + 1, n);
    }
  }

  lemma {:induction false} RestIsDistinct<K(!new), V>(d: Directory<K, V>, b: nat)
    requires Indexed(d)
    ensures Distinct(Rest(d.chains, b))
    decreases |d.chains| - b
  {
    if b < |d.chains| {
      RestIsDistinct(d, b + 1);
      var c, r := d.chains[b], Rest(d.chains, b + 1);
      assert AllHome(d, b);
      forall i, j | 0 <= i < |c| && 0 <= j < |r|
        ensures c[i] != r[j]
      {
        RestMembers(d.chains, b + 1, r[j]);
        var e :| b + 1 <= e < |d.chains| && r[j] in d.chains[e];
        assert AllHome(d, e) && c[i] in c;
      }
    }
  }

  /** The nodes in cursor order are those of the stored keys, each once. */
  lemma RestIsExact<K(!new), V>(d: Directory<K, V>)
    requires Indexed(d)
    ensures Distinct(Rest(d.chains, 0))
    ensures forall n | n in Rest(d.chains, 0) :: n.key in d.nodeOf && d.nodeOf[n.key] == n
    ensures forall k | k in d.nodeOf :: d.nodeOf[k] in Rest(d.chains, 0) && d.nodeOf[k].key == k
  {
    RestIsDistinct(d, 0);
    forall n | n in Rest(d.chains, 0)
      ensures n.key in d.nodeOf && d.nodeOf[n.key] == n
    {
      RestMembers(d.chains, 0, n);
      var c :| 0 <= c < |d.chains| && n in d.chains[c];
      assert AllHome(d, c);
    }
    forall k | k in d.nodeOf
      ensures d.nodeOf[k] in Rest(d.chains, 0) && d.nodeOf[k].key == k
    {
      assert Located(d, k);
      RestMembers(d.chains, 0, d.nodeOf[k]);
    }
  }

  lemma NodeIsStored<K(!new), V>(d: Directory<K, V>, b: nat, i: nat)
    requires Indexed(d) && b < |d.chains| && i < |d.chains[b]|
    ensures d.chains[b][i].key in d.nodeOf && d.nodeOf[d.chains[b][i].key] == d.chains[b][i]
  {
    assert AllHome(d, b) && d.chains[b][i] in d.chains[b];
  }

  /** The values of the nodes. */
  ghost function Valuation<K(!new), V>(nodeOf: map<K, Node<K, V>>): map<K, V>
    reads nodeOf.Values`val
  {
    map k | k in nodeOf :: nodeOf[k].val
  }

  lemma ValuationAfterAdd<K(!new), V>(nodeOf: map<K, Node<K, V>>, key: K, node: Node<K, V>)
    ensures Valuation(nodeOf[key := node]) == Valuation(nodeOf)[key := node.val]
  {
  }

  lemma ValuationAfterDrop<K(!new), V>(nodeOf: map<K, Node<K, V>>, key: K)
    ensures Valuation(nodeOf - {key}) == Valuation(nodeOf) - {key}
  {
  }

  class HashTable<K(!new), V> {
    const hashFunc: K -> nat
    const rankFunc: (K, K) -> int

    var currSize: nat
    var nextSize: nat
    var splitIdx: nat
    var currMask: nat
    var nextMask: nat
    var numPairs: nat
    var bcapacity: nat
    var numSplit: nat
    var htable: array<Bucket<K, V>>

    ghost var dir: Directory<K, V>
    ghost var pool: set<Node<K, V>>

    ghost predicate Sizes()
      reads this
    {
      && Sized(currSize, nextSize, splitIdx)
      && currMask == currSize - 1 && nextMask == nextSize - 1 && bcapacity > 0
      && forall a, b :: rankFunc(a, b) == 0 <==> a == b
    }

    /** The linked chains of the directory are `cs`. */
    ghost predicate Linked(cs: seq<seq<Node<K, V>>>)
      reads `htable, `pool, htable, pool`next
    {
      && Pooled(cs, pool) && |cs| == htable.Length
      && forall b {:trigger Chained(htable[b], cs[b])} | 0 <= b < |cs| :: Chained(htable[b], cs[b])
    }

    // -------------------------------------------------------------------------------------------
    // Pointer surgery on one chain
    // -------------------------------------------------------------------------------------------

    /** Links a detached node at the front of a chain. */
    method PushFront(ghost cs: seq<seq<Node<K, V>>>, b: nat, node: Node<K, V>)
      requires Linked(cs) && b < |cs| && Absent(cs, node)
      modifies `pool, htable, node`next
      ensures pool == old(pool) + {node} && Linked(Pushed(cs, b, node))
    {
      ghost var c := cs[b];
      assert Chained(htable[b], c);
      node.next := htable[b].nodes;
      htable[b] := Bucket(htable[b].count + 1, node);
      pool := pool + {node};
      ChainExtended(c, node, htable[b]);
    }

    /** Takes the node at position `i` out of a chain; `prev` is its predecessor. */
    method Unlink(ghost cs: seq<seq<Node<K, V>>>, b: nat, prev: Node?<K, V>, node: Node<K, V>, ghost i: nat)
      requires Linked(cs) && b < |cs| && i < |cs[b]| && cs[b][i] == node && Distinct(cs[b])
      requires prev == if i == 0 then null else cs[b][i - 1]
      requires Absent(cs[b := []], prev)
      modifies htable, (if prev == null then {} else {prev})`next
      ensures Linked(Cut(cs, b, i))
    {
      ghost var c := cs[b];
      assert Chained(htable[b], c);
      if prev == null {
        htable[b] := htable[b].(nodes := node.next);
      } else {
        prev.next := node.next;
      }
      htable[b] := htable[b].(count := htable[b].count - 1);
      ChainBypassed(c, htable[b], i);
      forall e | 0 <= e < |cs| && e != b
        ensures Chained(htable[e], cs[e])
      {
        assert old(Chained(htable[e], cs[e])) && cs[b := []][e] == cs[e];
      }
    }

    /** Moves one node from its chain to the front of another and gives the node that followed it. */
    method MoveNode(ghost cs: seq<seq<Node<K, V>>>, b: nat, target: nat, prev: Node?<K, V>, node: Node<K, V>,
                    ghost i: nat)
      returns (next: Node?<K, V>)
      requires Linked(cs) && b < |cs| && target < |cs| && b != target
      requires i < |cs[b]| && cs[b][i] == node && Distinct(cs[b])
      requires prev == if i == 0 then null else cs[b][i - 1]
      requires Absent(cs[b := []], prev) && Absent(Cut(cs, b, i), node)
      modifies `pool, htable, (if prev == null then {} else {prev})`next, node`next
      ensures pool == old(pool) && Linked(Pushed(Cut(cs, b, i), target, node))
      ensures next == NodeAt(WithoutAt(cs[b], i), i)
    {
      assert node in pool;
      Unlink(cs, b, prev, node, i);
      PushFront(Cut(cs, b, i), target, node);
      assert Chained(htable[b], WithoutAt(cs[b], i)) by {
        assert Pushed(Cut(cs, b, i), target, node)[b] == WithoutAt(cs[b], i);
      }
      next := if prev != null then prev.next else htable[b].nodes;
      assert i > 0 ==> WithoutAt(cs[b], i)[i - 1] == prev;
    }

    // -------------------------------------------------------------------------------------------
    // Splitting
    // -------------------------------------------------------------------------------------------

    /** Rehashes one bucket: each of its nodes stays or moves to the front of the bucket of its new hash. */
    method Redistribute(b: nat, rehash: K -> nat)
      requires Linked(dir.chains) && b < |dir.chains| && CanReplay(dir, b, rehash, 0)
      modifies `dir, `pool, htable, pool`next
      ensures Linked(dir.chains) && pool == old(pool) && dir == Replay(old(dir), b, rehash, 0)
    {
      var node, prev: Node?<K, V> := htable[b].nodes, null;
      ghost var i, d := 0, dir;
      assert Chained(htable[b], d.chains[b]);
      while node != null
        invariant b < |d.chains| && 0 <= i <= |d.chains[b]| && node == NodeAt(d.chains[b], i)
        invariant prev == if i == 0 then null else d.chains[b][i - 1]
        invariant Linked(d.chains) && pool == old(pool) && CanReplay(d, b, rehash, i)
        invariant Replay(d, b, rehash, i) == Replay(dir, b, rehash, 0)
        decreases |d.chains[b]| - i
        modifies `pool, htable, pool`next
      {
        var indx := rehash(node.key);
        assert Chained(htable[b], d.chains[b]);
        if indx == b {
          prev, node, i := node, node.next, i + 1;
        } else {
          ghost var after := Moved(d, b, i, indx);
          assert after.chains == Pushed(Cut(d.chains, b, i), indx, node);
          assert after.chains[b] == WithoutAt(d.chains[b], i);
          node := MoveNode(d.chains, b, indx, prev, node, i);
          d := after;
        }
      }
      dir := d;
    }

    /** What that run means: the keys of the bucket are where they hash to now. */
    method RehashBucket(b: nat, rehash: K -> nat)
      requires Linked(dir.chains) && Indexed(dir) && b < |dir.chains| && Settled(dir, b, rehash, 0)
      modifies `dir, `pool, htable, pool`next
      ensures Linked(dir.chains) && Indexed(dir) && Rehomed(old(dir), dir, b, rehash) && pool == old(pool)
    {
      ReplayIsSafe(dir, b, rehash, 0);
      ReplayKeepsIndexed(dir, b, rehash, 0);
      ReplayRehomes(dir, b, rehash, 0);
      Redistribute(b, rehash);
    }

    ghost predicate Valid()
      reads this, htable, pool`next
    {
      && Sizes() && |dir.chains| == nextSize && Linked(dir.chains) && Indexed(dir)
      && numPairs == |dir.nodeOf| && AllAt(dir, hashFunc, currSize, nextSize, splitIdx)
    }

    /** Rehashes the bucket at the split pointer. */
    method SplitChain(ghost after: nat)
      requires Valid() && nextSize == 2 * currSize && splitIdx < currSize && after == splitIdx + 1
      modifies `dir, `pool, htable, pool`next
      ensures Linked(dir.chains) && Indexed(dir) && |dir.chains| == nextSize
      ensures Sized(currSize, nextSize, after) && AllAt(dir, hashFunc, currSize, nextSize, after)
      ensures dir.nodeOf == old(dir.nodeOf) && pool == old(pool)
    {
      var mask := nextMask;
      var rehash := (k: K) => BitAnd(hashFunc(k), mask);
      ghost var before := dir;
      RehashSettles(dir, splitIdx, hashFunc, rehash, nextSize);
      RehashBucket(splitIdx, rehash);
      AllAtAfterSplit(before, dir, hashFunc, rehash, currSize, nextSize, splitIdx, after);
    }

    method SplitBucket()
      requires Valid() && nextSize == 2 * currSize && splitIdx < currSize
      modifies `dir, `pool, `splitIdx, `numSplit, htable, pool`next
      ensures Valid() && dir.nodeOf == old(dir.nodeOf) && pool == old(pool)
      ensures splitIdx == old(splitIdx) + 1 && numSplit == old(numSplit) + 1
    {
      var after := splitIdx + 1;
      SplitChain(after);
      numSplit := numSplit + 1;
      splitIdx := after;
    }

    /** A directory of twice the size: the old buckets are copied, the new ones are empty. */
    method DoubledTable(size: nat) returns (htbl: array<Bucket<K, V>>)
      requires size == htable.Length
      ensures fresh(htbl) && htbl.Length == 2 * size
      ensures forall b | 0 <= b < size :: htbl[b] == htable[b]
      ensures forall b | size <= b < 2 * size :: htbl[b] == Bucket(0, null)
    {
      htbl := new Bucket<K, V>[2 * size];
      var indx := 0;
      while indx < size
        invariant 0 <= indx <= size
        invariant forall b | 0 <= b < indx :: htbl[b] == htable[b]
        modifies htbl
      {
        htbl[indx] := htable[indx];
        indx := indx + 1;
      }
      while indx < 2 * size
        invariant size <= indx <= 2 * size
        invariant forall b | 0 <= b < size :: htbl[b] == htable[b]
        invariant forall b | size <= b < indx :: htbl[b] == Bucket(0, null)
        modifies htbl
      {
        htbl[indx] := Bucket(0, null);
        indx := indx + 1;
      }
    }

    lemma GrownIsLinked(htbl: array<Bucket<K, V>>, cs: seq<seq<Node<K, V>>>)
      requires Linked(cs) && htbl.Length == 2 * |cs|
      requires forall b | 0 <= b < |cs| :: htbl[b] == htable[b]
      requires forall b | |cs| <= b < 2 * |cs| :: htbl[b] == Bucket(0, null)
      ensures var cs' := cs + EmptyChains(|cs|);
              && Pooled(cs', pool)
              && forall b {:trigger Chained(htbl[b], cs'[b])} | 0 <= b < |cs'| :: Chained(htbl[b], cs'[b])
    {
    }

    /** Doubles the directory. */
    method Grow()
      requires Valid() && currSize == nextSize
      modifies `htable, `nextSize, `nextMask, `dir
      ensures Valid() && dir.nodeOf == old(dir.nodeOf) && nextSize == 2 * currSize && fresh(htable)
    {
      ghost var d := dir.(chains := dir.chains + EmptyChains(currSize));
      GrowKeepsIndexed(dir, currSize);
      AllAtAfterDoubling(dir, d, hashFunc, currSize);
      AddressAfterDoubling(0, currSize);
      nextSize := currSize * 2;
      nextMask := nextSize - 1;
      var htbl := DoubledTable(currSize);
      GrownIsLinked(htbl, dir.chains);
      htable := htbl;
      dir := d;
    }

    /** One step of growth: the split pointer wraps around, or one more bucket is split (after the directory
        has doubled, when every bucket is in use). The table means what it meant. */
    method Split()
      requires Valid()
      modifies this, htable, pool`next
      ensures Valid() && dir.nodeOf == old(dir.nodeOf) && pool == old(pool) && bcapacity == old(bcapacity)
      ensures htable == old(htable) || fresh(htable)
      ensures old(splitIdx) == old(currSize) ==>
                currSize == nextSize == old(nextSize) && splitIdx == 0 && numSplit == old(numSplit)
      ensures old(splitIdx) < old(currSize) ==>
                currSize == old(currSize) && nextSize == 2 * currSize
                && splitIdx == old(splitIdx) + 1 && numSplit == old(numSplit) + 1
    {
      if splitIdx == currSize {
        AllAtAfterWrap(dir, hashFunc, currSize, nextSize);
        AddressAfterWrap(0, currSize, nextSize);
        currSize := nextSize;
        currMask := nextMask;
        splitIdx := 0;
        return;
      }
      if currSize == nextSize {
        Grow();
      }
      SplitBucket();
    }

    // -------------------------------------------------------------------------------------------
    // The map operations
    // -------------------------------------------------------------------------------------------

    function PseudoHash(key: K): (bnum: nat)
      reads this
      requires Sizes()
      ensures bnum == Address(hashFunc(key), currSize, nextSize, splitIdx) < nextSize
    {
      var indx := hashFunc(key);
      var bnum := BitAnd(indx, currMask);
      AddressInRange(indx, currSize, nextSize, splitIdx);
      if bnum < splitIdx then BitAnd(indx, nextMask) else bnum
    }

    /** The node of a key, its predecessor in the chain, and its bucket. */
    method Find(key: K) returns (curr: Node?<K, V>, prev: Node?<K, V>, bnum: nat, ghost i: nat)
      requires Valid()
      ensures bnum == PseudoHash(key) && (curr != null <==> key in dir.nodeOf)
      ensures curr != null ==> curr == dir.nodeOf[key] && i < |dir.chains[bnum]| && dir.chains[bnum][i] == curr
      ensures curr != null ==> prev == if i == 0 then null else dir.chains[bnum][i - 1]
    {
      bnum := PseudoHash(key);
      ghost var c := dir.chains[bnum];
      assert Chained(htable[bnum], c);
      curr, prev, i := htable[bnum].nodes, null, 0;
      while curr != null && rankFunc(key, curr.key) != 0
        invariant i <= |c| && curr == NodeAt(c, i) && prev == if i == 0 then null else c[i - 1]
        invariant forall j | 0 <= j < i :: c[j].key != key
        decreases |c| - i
      {
        prev, curr, i := curr, curr.next, i + 1;
      }
      FindIsRight(dir, hashFunc, currSize, nextSize, splitIdx, key, i);
    }

    /** What the table means. */
    ghost function Contents(): map<K, V>
      reads `dir, dir.nodeOf.Values`val
    {
      Valuation(dir.nodeOf)
    }

    method Lookup(key: K, val: V) returns (found: bool, res: V)
      requires Valid()
      ensures found <==> key in Contents()
      ensures res == if found then Contents()[key] else val
    {
      var curr, prev, bnum, i := Find(key);
      found := curr != null;
      res := if curr != null then curr.val else val;
    }

    method Exists(key: K) returns (found: bool)
      requires Valid()
      ensures found <==> key in Contents()
    {
      var curr, prev, bnum, i := Find(key);
      found := curr != null;
    }

    /** Stores a key that is not in the table in its bucket, whatever the bucket's load. */
    method Prepend(key: K, val: V, bnum: nat) returns (ghost node: Node<K, V>)
      requires Valid() && key !in dir.nodeOf && bnum == PseudoHash(key)
      modifies `dir, `pool, `numPairs, htable, pool`next
      ensures Valid() && fresh(pool - old(pool))
      ensures fresh(node) && node.val == val && dir.nodeOf == old(dir.nodeOf)[key := node]
      ensures htable[bnum].count == old(htable[bnum].count) + 1
    {
      assert Chained(htable[bnum], dir.chains[bnum]);
      var added := new Node(key, val);
      node := added;
      CanAdd(dir, bnum, node, hashFunc, currSize, nextSize, splitIdx);
      ghost var before := dir;
      dir := Added(dir, bnum, node);
      PushFront(before.chains, bnum, added);
      assert Chained(htable[bnum], dir.chains[bnum]);
      numPairs := numPairs + 1;
    }

    ghost function Extent(): (z: Layout)
      reads this
      requires Sizes()
      ensures z.curr > 0 && z.next > 0
    {
      Layout(currSize, nextSize, splitIdx, numSplit)
    }

    lemma LoadNow(key: K)
      requires Valid()
      ensures htable[PseudoHash(key)].count == |Sharing(dir.nodeOf.Keys, hashFunc, hashFunc(key), Extent())|
    {
      var b := PseudoHash(key);
      LoadIsExact(dir, b, hashFunc, hashFunc(key), Extent());
      assert Chained(htable[b], dir.chains[b]);
    }

    /** One step of growth, and the bucket of a key after it. */
    method SplitFor(key: K) returns (bnum: nat)
      requires Valid()
      modifies this, htable, pool`next
      ensures Valid() && dir.nodeOf == old(dir.nodeOf) && pool == old(pool) && bcapacity == old(bcapacity)
      ensures (htable == old(htable) || fresh(htable)) && bnum == PseudoHash(key)
      ensures Extent() == NextLayout(old(Extent()))
      ensures htable[bnum].count == |Sharing(dir.nodeOf.Keys, hashFunc, hashFunc(key), Extent())|
    {
      Split();
      bnum := PseudoHash(key);
      LoadNow(key);
    }

    /** Splits while the bucket of a key is full, but at most five times. */
    method MakeRoom(key: K) returns (bnum: nat, ghost splits: nat)
      requires Valid()
      modifies this, htable, pool`next
      ensures Valid() && dir.nodeOf == old(dir.nodeOf) && pool == old(pool) && bcapacity == old(bcapacity)
      ensures (htable == old(htable) || fresh(htable)) && bnum == PseudoHash(key)
      ensures RoomMade(dir.nodeOf.Keys, hashFunc, hashFunc(key), bcapacity, old(Extent()), Extent(), splits)
      ensures splits < 5 ==> htable[bnum].count < bcapacity
      ensures old(htable[PseudoHash(key)].count) < bcapacity ==> splits == 0 && Extent() == old(Extent())
    {
      ghost var z, keys := Extent(), dir.nodeOf.Keys;
      var numSplits := 0;
      bnum := PseudoHash(key);
      LoadNow(key);
      while htable[bnum].count >= bcapacity && numSplits < 5
        invariant Valid() && dir.nodeOf == old(dir.nodeOf) && pool == old(pool) && bcapacity == old(bcapacity)
        invariant htable == old(htable) || fresh(htable)
        invariant bnum == PseudoHash(key) && 0 <= numSplits <= 5 && Extent() == Grown(z, numSplits)
        invariant htable[bnum].count == |Sharing(keys, hashFunc, hashFunc(key), Grown(z, numSplits))|
        invariant FullFor(keys, hashFunc, hashFunc(key), bcapacity, z, numSplits)
        decreases 5 - numSplits
        modifies this, htable, pool`next
      {
        FullForOneMore(keys, hashFunc, hashFunc(key), bcapacity, z, numSplits);
        bnum := SplitFor(key);
        numSplits := numSplits + 1;
      }
      splits := numSplits;
    }

    method InsertNew(key: K, val: V) returns (ghost node: Node<K, V>, ghost splits: nat)
      requires Valid() && key !in dir.nodeOf
      modifies this, htable, pool`next
      ensures Valid() && fresh(pool - old(pool)) && (htable == old(htable) || fresh(htable))
      ensures fresh(node) && node.val == val && dir.nodeOf == old(dir.nodeOf)[key := node]
      ensures bcapacity == old(bcapacity) && (splits < 5 ==> htable[PseudoHash(key)].count <= bcapacity)
      ensures RoomMade(old(dir.nodeOf).Keys, hashFunc, hashFunc(key), bcapacity, old(Extent()), Extent(), splits)
      ensures old(htable[PseudoHash(key)].count) < bcapacity ==> splits == 0 && Extent() == old(Extent())
    {
      var bnum;
      bnum, splits := MakeRoom(key);
      node := Prepend(key, val, bnum);
    }

    /** Fails only on a key that is present, and then changes nothing. Otherwise the table first grows until the key's
        bucket has room, but by at most five steps; only after five does the bucket exceed its capacity. */
    method Insert(key: K, val: V) returns (ret: int, ghost splits: nat)
      requires Valid()
      modifies this, htable, pool`next
      ensures Valid() && fresh(pool - old(pool)) && (htable == old(htable) || fresh(htable))
      ensures ret == if key in old(Contents()) then -1 else 0
      ensures Contents() == if ret == 0 then old(Contents())[key := val] else old(Contents())
      ensures bcapacity == old(bcapacity) && (ret == 0 && splits < 5 ==> htable[PseudoHash(key)].count <= bcapacity)
      ensures ret == -1 ==> splits == 0 && Extent() == old(Extent()) && htable == old(htable)
      ensures ret == 0 ==>
                RoomMade(old(dir.nodeOf).Keys, hashFunc, hashFunc(key), bcapacity, old(Extent()), Extent(), splits)
      ensures old(htable[PseudoHash(key)].count) < bcapacity ==> splits == 0 && Extent() == old(Extent())
    {
      var curr, prev, b, i := Find(key);
      if curr != null {
        return -1, 0;
      }
      ghost var nodeOf := dir.nodeOf;
      ghost var node;
      node, splits := InsertNew(key, val);
      ValuationAfterAdd(nodeOf, key, node);
      ret := 0;
    }

    /** Overwrites the value of a key that is present. */
    method Replace(key: K, val: V)
      requires Valid()
      modifies pool`val
      ensures Valid()
      ensures Contents() == if key in old(Contents()) then old(Contents())[key := val] else old(Contents())
    {
      var curr, prev, bnum, i := Find(key);
      if curr != null {
        KeysOwnNodes(dir);
        curr.val := val;
      }
    }

    /** Unlinks a stored node. */
    method TakeOut(bnum: nat, prev: Node?<K, V>, curr: Node<K, V>, ghost i: nat)
      requires Valid() && bnum < |dir.chains| && i < |dir.chains[bnum]| && dir.chains[bnum][i] == curr
      requires prev == if i == 0 then null else dir.chains[bnum][i - 1]
      modifies `dir, `numPairs, htable, pool`next
      ensures Valid() && dir.nodeOf == old(dir.nodeOf) - {curr.key}
    {
      CanTakeOut(dir, bnum, i, prev, hashFunc, currSize, nextSize, splitIdx);
      ghost var before := dir;
      dir := Dropped(dir, bnum, i);
      Unlink(before.chains, bnum, prev, curr, i);
      numPairs := numPairs - 1;
    }

    method Remove(key: K)
      requires Valid()
      modifies `dir, `numPairs, htable, pool`next
      ensures Valid() && Contents() == old(Contents()) - {key}
    {
      var curr, prev, bnum, i := Find(key);
      if curr != null {
        KeysOwnNodes(dir);
        ValuationAfterDrop(dir.nodeOf, key);
        TakeOut(bnum, prev, curr, i);
      }
    }

    /** Unlinks every node of one bucket. */
    method ClearBucket(indx: nat, ghost c: seq<Node<K, V>>)
      requires indx < htable.Length && Chained(htable[indx], c)
      modifies htable
      ensures htable[indx] == Bucket(0, null)
      ensures forall b | 0 <= b < htable.Length && b != indx :: htable[b] == old(htable[b])
    {
      ghost var i := 0;
      while htable[indx].nodes != null
        invariant 0 <= i <= |c| && htable[indx].nodes == NodeAt(c, i)
        invariant forall b | 0 <= b < htable.Length && b != indx :: htable[b] == old(htable[b])
        decreases |c| - i
        modifies htable
      {
        var node := htable[indx].nodes;
        htable[indx] := htable[indx].(nodes := node.next);
        i := i + 1;
      }
      htable[indx] := htable[indx].(count := 0);
    }

    method ClearBuckets()
      requires Linked(dir.chains) && htable.Length == nextSize
      modifies htable
      ensures forall b | 0 <= b < nextSize :: htable[b] == Bucket(0, null)
    {
      var indx := 0;
      while indx < nextSize
        invariant 0 <= indx <= nextSize
        invariant forall b | 0 <= b < indx :: htable[b] == Bucket(0, null)
        invariant forall b | indx <= b < nextSize :: htable[b] == old(htable[b])
        modifies htable
      {
        assert old(Chained(htable[indx], dir.chains[indx]));
        ClearBucket(indx, dir.chains[indx]);
        indx := indx + 1;
      }
    }

    /** Empties every bucket; the directory keeps its size and forgets the split pointer. */
    method Clear()
      requires Valid()
      modifies `dir, `pool, `currSize, `currMask, `splitIdx, `numPairs, htable
      ensures Valid() && Contents() == map[] && pool == {}
      ensures currSize == nextSize == old(nextSize) && splitIdx == 0
    {
      AddressInRange(0, currSize, nextSize, splitIdx);
      ClearBuckets();
      EmptyIsExact<K, V>(nextSize, hashFunc, nextSize, nextSize, 0);
      dir, pool := Directory(EmptyChains(nextSize), map[], map[]), {};
      currSize := nextSize;
      currMask := nextMask;
      splitIdx := 0;
      numPairs := 0;
    }

    /** An empty table of the least power of two that is at least `size` buckets. */
    constructor (hash: K -> nat, rank: (K, K) -> int, size: nat, capa: nat)
      requires forall a, b :: rank(a, b) == 0 <==> a == b
      ensures Valid() && Contents() == map[] && hashFunc == hash && rankFunc == rank
      ensures fresh(htable) && pool == {} && bcapacity == if capa == 0 then 5 else capa
      ensures size <= currSize == nextSize && (currSize > 1 ==> currSize < 2 * size)
    {
      var curr := 1;
      while curr < size
        invariant PowerOfTwo(curr) && (curr > 1 ==> curr < 2 * size)
        decreases size - curr
      {
        assert (2 * curr) / 2 == curr;
        curr := 2 * curr;
      }
      hashFunc, rankFunc, splitIdx, numPairs, numSplit := hash, rank, 0, 0, 0;
      currSize, nextSize, currMask, nextMask := curr, curr, curr - 1, curr - 1;
      bcapacity := if capa == 0 then 5 else capa;
      var table := new Bucket<K, V>[curr];
      htable := table;
      dir, pool := Directory(EmptyChains(curr), map[], map[]), {};
      new;
      var ix := 0;
      while ix < currSize
        invariant 0 <= ix <= currSize
        invariant forall b | 0 <= b < ix :: htable[b] == Bucket(0, null)
        modifies htable
      {
        htable[ix] := Bucket(0, null);
        ix := ix + 1;
      }
    }

    function Length(): (n: nat)
      requires Valid()
      reads this, htable, pool`next, dir.nodeOf.Values`val
      ensures n == |Contents()|
    {
      assert Contents().Keys == dir.nodeOf.Keys;
      numPairs
    }

    /** The first node of the first bucket from `indx` on that is not empty. */
    method NodeFrom(start: nat) returns (node: Node?<K, V>, bnum: nat)
      requires Valid() && start <= nextSize
      ensures bnum <= nextSize && (node == null <==> bnum == nextSize)
      ensures node == null ==> Rest(dir.chains, start) == []
      ensures node != null ==> |dir.chains[bnum]| > 0 && dir.chains[bnum][0] == node
      ensures node != null ==> Rest(dir.chains, start) == dir.chains[bnum] + Rest(dir.chains, bnum + 1)
    {
      var indx := start;
      while indx < nextSize
        invariant start <= indx <= nextSize && Rest(dir.chains, start) == Rest(dir.chains, indx)
      {
        assert Chained(htable[indx], dir.chains[indx]);
        if htable[indx].count != 0 {
          return htable[indx].nodes, indx;
        }
        assert dir.chains[indx] == [];
        indx := indx + 1;
      }
      return null, nextSize;
    }
  }

  lemma OneFurther<T>(c: seq<T>, pos: nat, rest: seq<T>)
    requires pos < |c|
    ensures (c[pos..] + rest)[1..] == c[pos + 1..] + rest
    ensures pos + 1 == |c| ==> c[pos + 1..] + rest == rest
  {
  }

  /** A place in an unchanged table. */
  class Cursor<K(!new), V> {
    const hash: HashTable<K, V>
    var node: Node?<K, V>
    var bnum: nat
    ghost var pos: nat

    ghost predicate Placed()
      reads this, hash`dir
    {
      var cs := hash.dir.chains;
      if node == null then bnum == |cs| else bnum < |cs| && pos < |cs[bnum]| && cs[bnum][pos] == node
    }

    /** The nodes still to be visited, the present one first. */
    ghost function Remaining(): seq<Node<K, V>>
      requires Placed()
      reads this, hash`dir
    {
      if node == null then [] else hash.dir.chains[bnum][pos..] + Rest(hash.dir.chains, bnum + 1)
    }

    constructor (hash: HashTable<K, V>)
      requires hash.Valid()
      ensures this.hash == hash && Placed() && Remaining() == Rest(hash.dir.chains, 0)
    {
      this.hash := hash;
      pos := 0;
      new;
      node, bnum := hash.NodeFrom(0);
    }

    predicate IsValid()
      reads this
    {
      node != null
    }

    /** Moves on by one node; a cursor at the end stays there. */
    method Advance()
      requires hash.Valid() && Placed()
      modifies `node, `bnum, `pos
      ensures Placed()
      ensures Remaining() == if old(IsValid()) then old(Remaining())[1..] else []
    {
      ghost var cs := hash.dir.chains;
      if node == null {
        bnum := hash.nextSize;
      } else {
        assert Chained(hash.htable[bnum], cs[bnum]);
        OneFurther(cs[bnum], pos, Rest(cs, bnum + 1));
        if node.next != null {
          node, pos := node.next, pos + 1;
        } else {
          NextBucket();
        }
      }
    }

    /** The pair at the cursor, which moves on. */
    method Next() returns (pair: (K, V))
      requires hash.Valid() && Placed() && IsValid()
      modifies `node, `bnum, `pos
      ensures Placed() && old(Remaining()) != [] && Remaining() == old(Remaining())[1..]
      ensures pair.0 == old(Remaining())[0].key && pair.0 in hash.Contents() && hash.Contents()[pair.0] == pair.1
    {
      NodeIsStored(hash.dir, bnum, pos);
      pair := (node.key, node.val);
      Advance();
    }

    /** From the last node of a chain to the first one of the next chain that is not empty. */
    method NextBucket()
      requires hash.Valid() && bnum < hash.nextSize
      modifies `node, `bnum, `pos
      ensures Placed() && Remaining() == Rest(hash.dir.chains, old(bnum) + 1)
    {
      node, bnum := hash.NodeFrom(bnum + 1);
      pos := 0;
    }
  }

  /** The first pairs of a map in the order of the nodes `all`. */
  ghost predicate Lists<K(!new), V>(pairs: seq<(K, V)>, all: seq<Node<K, V>>, vals: map<K, V>) {
    && |pairs| <= |all|
    && forall i {:trigger pairs[i]} | 0 <= i < |pairs| ::
         all[i].key in vals && pairs[i] == (all[i].key, vals[all[i].key])
  }

  lemma ListsOneMore<K(!new), V>(pairs: seq<(K, V)>, all: seq<Node<K, V>>, vals: map<K, V>, pair: (K, V))
    requires Lists(pairs, all, vals) && |pairs| < |all|
    requires pair.0 == all[|pairs|].key && pair.0 in vals && vals[pair.0] == pair.1
    ensures Lists(pairs + [pair], all, vals)
    ensures all[|pairs|..][0] == all[|pairs|] && all[|pairs|..][1..] == all[|pairs + [pair]|..]
  {
    var more := pairs + [pair];
    forall i | 0 <= i < |more|
      ensures all[i].key in vals && more[i] == (all[i].key, vals[all[i].key])
    {
      assert i < |pairs| ==> more[i] == pairs[i];
    }
  }

  /** The documented traversal visits the nodes in cursor order and ends with an invalid cursor. */
  method Walk<K(!new), V>(h: HashTable<K, V>) returns (pairs: seq<(K, V)>)
    requires h.Valid()
    ensures var all := Rest(h.dir.chains, 0); |pairs| == |all| && Lists(pairs, all, h.Contents())
  {
    ghost var all, vals := Rest(h.dir.chains, 0), h.Contents();
    var c: Cursor<K, V> := new Cursor(h);
    pairs := [];
    while c.IsValid()
      invariant c.hash == h && c.Placed() && h.Contents() == vals
      invariant Lists(pairs, all, vals) && c.Remaining() == all[|pairs|..]
      decreases |all| - |pairs|
      modifies c`node, c`bnum, c`pos
    {
      var pair := c.Next();
      ListsOneMore(pairs, all, vals, pair);
      pairs := pairs + [pair];
    }
  }

  /** Every pair of the table is met exactly once. */
  method Enumerate<K(!new), V>(h: HashTable<K, V>) returns (pairs: seq<(K, V)>)
    requires h.Valid()
    ensures forall i | 0 <= i < |pairs| :: pairs[i].0 in h.Contents() && h.Contents()[pairs[i].0] == pairs[i].1
    ensures forall i, j | 0 <= i < j < |pairs| :: pairs[i].0 != pairs[j].0
    ensures forall k | k in h.Contents() :: (k, h.Contents()[k]) in pairs
  {
    pairs := Walk(h);
    ghost var all := Rest(h.dir.chains, 0);
    RestIsExact(h.dir);
    KeysOwnNodes(h.dir);
    assert forall i | 0 <= i < |all| :: all[i] in all && pairs[i].0 == all[i].key;
    forall k | k in h.Contents()
      ensures (k, h.Contents()[k]) in pairs
    {
      var i :| 0 <= i < |all| && all[i] == h.dir.nodeOf[k];
      assert pairs[i] == (k, h.Contents()[k]);
    }
  }

  // ---------------------------------------------------------------------------------------------
  // Every sequence of operations
  // ---------------------------------------------------------------------------------------------

  datatype Op<K, V> = Insert(key: K, val: V) | Replace(key: K, val: V) | Remove(key: K) | Clear

  /** What an operation does to a finite map: an insertion never overwrites, a replacement never adds. */
  ghost function Effect<K(!new), V>(m: map<K, V>, op: Op<K, V>): map<K, V> {
    match op
    case Insert(key, val) => if key in m then m else m[key := val]
    case Replace(key, val) => if key in m then m[key := val] else m
    case Remove(key) => m - {key}
    case Clear => map[]
  }

  ghost function Effects<K(!new), V>(m: map<K, V>, ops: seq<Op<K, V>>): map<K, V> {
    if ops == [] then m else Effect(Effects(m, ops[..|ops| - 1]), ops[|ops| - 1])
  }

  method Perform<K(!new), V>(h: HashTable<K, V>, op: Op<K, V>)
    requires h.Valid()
    modifies h, h.htable, h.pool
    ensures h.Valid() && h.Contents() == Effect(old(h.Contents()), op)
    ensures fresh(h.pool - old(h.pool)) && (h.htable == old(h.htable) || fresh(h.htable))
  {
    match op {
      case Insert(key, val) =>
        var ret, splits := h.Insert(key, val);
      case Replace(key, val) => h.Replace(key, val);
      case Remove(key) => h.Remove(key);
      case Clear => h.Clear();
    }
  }

  /** The table behaves as a finite map over every sequence of operations, through every split they cause. */
  method PerformAll<K(!new), V>(h: HashTable<K, V>, ops: seq<Op<K, V>>)
    requires h.Valid()
    modifies h, h.htable, h.pool
    ensures h.Valid() && h.Contents() == Effects(old(h.Contents()), ops)
  {
    ghost var m := h.Contents();
    for i := 0 to |ops|
      invariant h.Valid() && h.Contents() == Effects(m, ops[..i])
      invariant fresh(h.pool - old(h.pool)) && (h.htable == old(h.htable) || fresh(h.htable))
    {
      assert ops[..i + 1][..i] == ops[..i];
      Perform(h, ops[i]);
    }
    assert ops[..|ops|] == ops;
  }
}
