/** Addresses of linear hashing (include/RDIHash.h): masks, the split pointer, and how one split and the
    wrap-around of the split pointer change the bucket of a hash value. */
module HashAddresses {
  import opened Arithmetic

  /** The bitwise and of two unsigned numbers. */
  function BitAnd(x: nat, y: nat): nat {
    if x == 0 then 0 else 2 * BitAnd(x / 2, y / 2) + if x % 2 == 1 && y % 2 == 1 then 1 else 0
  }

  ghost predicate PowerOfTwo(n: nat) {
    n == 1 || (n > 1 && n % 2 == 0 && PowerOfTwo(n / 2))
  }

  lemma ModOfDouble(x: nat, m: nat)
    requires m > 0
    ensures x % (2 * m) == 2 * ((x / 2) % m) + x % 2
  {
    var q, r := (x / 2) / m, (x / 2) % m;
    assert x / 2 == q * m + r;
    assert x == 2 * (q * m + r) + x % 2;
    assert x == q * (2 * m) + (2 * r + x % 2);
    ModUnique(x, q, 2 * r + x % 2, 2 * m);
  }

  lemma AndOdd(x: nat, m: nat)
    requires m > 0
    ensures BitAnd(x, 2 * m - 1) == 2 * BitAnd(x / 2, m - 1) + x % 2
  {
  }

  /** Masking with `n - 1` is taking the remainder by the power of two `n`. */
  lemma {:induction false} MaskIsMod(x: nat, n: nat)
    requires PowerOfTwo(n)
    ensures BitAnd(x, n - 1) == x % n
    decreases n
  {
    if n == 1 {
      AndZero(x);
    } else {
      var m := n / 2;
      MaskIsMod(x / 2, m);
      ModOfDouble(x, m);
      AndOdd(x, m);
    }
  }

  lemma {:induction false} AndZero(x: nat)
    ensures BitAnd(x, 0) == 0
  {
    if x > 0 {
      AndZero(x / 2);
    }
  }

  /** The bucket of a hash value, as `pseudo_hash` computes it with the two masks. */
  function Address(h: nat, curr: nat, next: nat, split: nat): nat
    requires curr > 0 && next > 0
  {
    var b := BitAnd(h, curr - 1);
    if b < split then BitAnd(h, next - 1) else b
  }

  /** Doubling the size leaves a bucket in place or moves it up by the old size. */
  lemma DoubledMod(h: nat, curr: nat)
    requires curr > 0
    ensures h % (2 * curr) == h % curr || h % (2 * curr) == h % curr + curr
  {
    var q, r := h / curr, h % curr;
    assert h == q * curr + r;
    if q % 2 == 0 {
      assert h == (q / 2) * (2 * curr) + r by {
        assert q == 2 * (q / 2);
        assert (2 * (q / 2)) * curr == (q / 2) * (2 * curr);
      }
      ModUnique(h, q / 2, r, 2 * curr);
    } else {
      assert h == (q / 2) * (2 * curr) + (r + curr) by {
        assert q == 2 * (q / 2) + 1;
        assert (2 * (q / 2) + 1) * curr == (q / 2) * (2 * curr) + curr;
      }
      ModUnique(h, q / 2, r + curr, 2 * curr);
    }
  }

  ghost predicate Sized(curr: nat, next: nat, split: nat) {
    && PowerOfTwo(curr) && PowerOfTwo(next) && split <= curr
    && (next == 2 * curr || (next == curr && split == 0))
  }

  /** How far the directory has grown, and in how many splits. */
  datatype Layout = Layout(curr: nat, next: nat, split: nat, splits: nat)

  /** One step of growth: the split pointer wraps around, or a bucket is split in a directory twice the size. */
  function NextLayout(z: Layout): Layout {
    if z.split == z.curr then Layout(z.next, z.next, 0, z.splits)
    else Layout(z.curr, 2 * z.curr, z.split + 1, z.splits + 1)
  }

  function Grown(z: Layout, n: nat): (r: Layout)
    requires z.curr > 0 && z.next > 0
    ensures r.curr > 0 && r.next > 0
  {
    if n == 0 then z else NextLayout(Grown(z, n - 1))
  }

  lemma AddressInRange(h: nat, curr: nat, next: nat, split: nat)
    requires Sized(curr, next, split)
    ensures Address(h, curr, next, split) < next
    ensures Address(h, curr, next, split) == if h % curr < split then h % next else h % curr
    ensures next == 2 * curr ==> Address(h, curr, next, split) < curr + split
  {
    MaskIsMod(h, curr);
    MaskIsMod(h, next);
    if next == 2 * curr {
      DoubledMod(h, curr);
    }
  }

  /** Advancing the split pointer moves only values of the split bucket, and only to its buddy. */
  lemma AddressAfterSplit(h: nat, curr: nat, next: nat, split: nat)
    requires Sized(curr, next, split) && next == 2 * curr && split < curr
    ensures Sized(curr, next, split + 1)
    ensures Address(h, curr, next, split) != split ==>
              Address(h, curr, next, split + 1) == Address(h, curr, next, split) != split + curr
    ensures Address(h, curr, next, split) == split ==>
              Address(h, curr, next, split + 1) == BitAnd(h, next - 1)
              && (BitAnd(h, next - 1) == split || BitAnd(h, next - 1) == split + curr)
  {
    AddressInRange(h, curr, next, split);
    AddressInRange(h, curr, next, split + 1);
    MaskIsMod(h, next);
    DoubledMod(h, curr);
  }

  /** Doubling the directory and wrapping the split pointer around change no address. */
  lemma AddressAfterDoubling(h: nat, curr: nat)
    requires Sized(curr, curr, 0)
    ensures Sized(curr, 2 * curr, 0)
    ensures Address(h, curr, 2 * curr, 0) == Address(h, curr, curr, 0)
  {
  }

  lemma AddressAfterWrap(h: nat, curr: nat, next: nat)
    requires Sized(curr, next, curr)
    ensures Sized(next, next, 0) && next == 2 * curr
    ensures Address(h, next, next, 0) == Address(h, curr, next, curr)
  {
    AddressInRange(h, curr, next, curr);
    AddressInRange(h, next, next, 0);
  }
}
