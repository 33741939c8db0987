/** What the containers and queues share about sequences. */
module Sequences {
  function Occurrences<T(==)>(s: seq<T>, x: T): nat {
    if s == [] then 0 else Occurrences(s[1..], x) + if s[0] == x then 1 else 0
  }

  lemma {:induction false} OccurrencesAppend<T>(s: seq<T>, t: seq<T>, x: T)
    ensures Occurrences(s + t, x) == Occurrences(s, x) + Occurrences(t, x)
  {
    if s == [] {
      assert s + t == t;
    } else {
      assert (s + t)[1..] == s[1..] + t;
      OccurrencesAppend(s[1..], t, x);
    }
  }

  /** The sequence without its element at one position. */
  function WithoutAt<T>(s: seq<T>, i: nat): seq<T>
    requires i < |s|
  {
    seq(|s| - 1, j requires 0 <= j < |s| - 1 => if j < i then s[j] else s[j + 1])
  }

  lemma WithoutAtJoins<T>(s: seq<T>, i: nat)
    requires i < |s|
    ensures WithoutAt(s, i) == s[..i] + s[i + 1..]
  {
  }

  lemma OccurrencesWithoutAt<T>(s: seq<T>, i: nat, x: T)
    requires i < |s| && s[i] != x
    ensures Occurrences(WithoutAt(s, i), x) == Occurrences(s, x)
  {
    WithoutAtJoins(s, i);
    assert s == s[..i] + ([s[i]] + s[i + 1..]);
    OccurrencesAppend(s[..i], [s[i]] + s[i + 1..], x);
    OccurrencesAppend([s[i]], s[i + 1..], x);
    OccurrencesAppend(s[..i], s[i + 1..], x);
  }
}
