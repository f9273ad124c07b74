/**
 * Counting records by a key, the common ground of every "group and count"
 * in the dashboard: per key, how many records carry it, and the fact that
 * the counts over a list of distinct keys covering every record add up to
 * the number of records.
 */
module Counting {

  /** The number of elements of `xs` whose key is `k`. */
  function Count<T, K(==)>(xs: seq<T>, key: T -> K, k: K): (n: nat)
    ensures n <= |xs|
    ensures n > 0 <==> exists i :: 0 <= i < |xs| && key(xs[i]) == k
  {
    if xs == [] then 0
    else
      var rest := Count(xs[1..], key, k);
      assert forall i :: 0 < i < |xs| ==> xs[i] == xs[1..][i - 1];
      (if key(xs[0]) == k then 1 else 0) + rest
  }

  /** The number of elements of `xs` whose key is one of `ks`. */
  function CountIn<T, K(==)>(xs: seq<T>, key: T -> K, ks: seq<K>): nat {
    if xs == [] then 0
    else (if key(xs[0]) in ks then 1 else 0) + CountIn(xs[1..], key, ks)
  }

  /** The counts of the keys `ks`, one after the other, added up. */
  function SumCounts<T, K(==)>(xs: seq<T>, key: T -> K, ks: seq<K>): nat {
    if ks == [] then 0 else Count(xs, key, ks[0]) + SumCounts(xs, key, ks[1..])
  }

  predicate NoDuplicates<K(==)>(ks: seq<K>) {
    forall i, j :: 0 <= i < j < |ks| ==> ks[i] != ks[j]
  }

  /** Putting a fresh key in front of `ks` adds exactly that key's count. */
  lemma {:induction false} CountInCons<T, K>(xs: seq<T>, key: T -> K, k: K, ks: seq<K>)
    requires k !in ks
    ensures CountIn(xs, key, [k] + ks) == Count(xs, key, k) + CountIn(xs, key, ks)
  {
    if xs != [] {
      CountInCons(xs[1..], key, k, ks);
    }
  }

  /** Over distinct keys, adding the per-key counts counts each element once. */
  lemma {:induction false} SumCountsIsCountIn<T, K>(xs: seq<T>, key: T -> K, ks: seq<K>)
    requires NoDuplicates(ks)
    ensures SumCounts(xs, key, ks) == CountIn(xs, key, ks)
  {
    if ks == [] {
      CountInNone(xs, key, ks);
    } else {
      assert NoDuplicates(ks[1..]) by {
        forall i, j | 0 <= i < j < |ks[1..]| ensures ks[1..][i] != ks[1..][j] {
          assert ks[1..][i] == ks[i + 1] && ks[1..][j] == ks[j + 1];
        }
      }
      assert ks[0] !in ks[1..] by {
        forall j | 0 <= j < |ks[1..]| ensures ks[1..][j] != ks[0] {
          assert ks[1..][j] == ks[j + 1];
        }
      }
      SumCountsIsCountIn(xs, key, ks[1..]);
      CountInCons(xs, key, ks[0], ks[1..]);
      assert [ks[0]] + ks[1..] == ks;
    }
  }

  lemma {:induction false} CountInNone<T, K>(xs: seq<T>, key: T -> K, ks: seq<K>)
    requires ks == []
    ensures CountIn(xs, key, ks) == 0
  {
    if xs != [] {
      CountInNone(xs[1..], key, ks);
    }
  }

  /** When every element's key is listed, every element is counted. */
  lemma {:induction false} CountInAll<T, K>(xs: seq<T>, key: T -> K, ks: seq<K>)
    requires forall i :: 0 <= i < |xs| ==> key(xs[i]) in ks
    ensures CountIn(xs, key, ks) == |xs|
  {
    if xs != [] {
      assert key(xs[0]) in ks;
      assert forall i :: 0 <= i < |xs[1..]| ==> key(xs[1..][i]) in ks by {
        forall i | 0 <= i < |xs[1..]| ensures key(xs[1..][i]) in ks {
          assert xs[1..][i] == xs[i + 1];
        }
      }
      CountInAll(xs[1..], key, ks);
    }
  }

  /**
   * The counts over distinct keys that include every element's key add up
   * to the number of elements.
   */
  lemma CountsPartition<T, K>(xs: seq<T>, key: T -> K, ks: seq<K>)
    requires NoDuplicates(ks)
    requires forall i :: 0 <= i < |xs| ==> key(xs[i]) in ks
    ensures SumCounts(xs, key, ks) == |xs|
  {
    SumCountsIsCountIn(xs, key, ks);
    CountInAll(xs, key, ks);
  }

  /** The number of times `k` occurs in `xs`. */
  function Occurrences<K(==)>(xs: seq<K>, k: K): (n: nat)
    ensures n <= |xs|
  {
    if xs == [] then 0 else (if xs[0] == k then 1 else 0) + Occurrences(xs[1..], k)
  }

  lemma {:induction false} OccurrencesPositive<K>(xs: seq<K>, k: K)
    ensures Occurrences(xs, k) > 0 <==> k in xs
  {
    if xs != [] {
      OccurrencesPositive(xs[1..], k);
      assert k in xs <==> xs[0] == k || k in xs[1..];
    }
  }

  /**
   * The frequency table of `xs`: every value that occurs is a key, nothing
   * else is, and each key maps to its number of occurrences.
   */
  function Frequencies<K(==,!new)>(xs: seq<K>): (m: map<K, nat>)
    ensures forall k :: k in m <==> k in xs
    ensures forall k :: k in m ==> m[k] == Occurrences(xs, k) >= 1
  {
    if xs == [] then map[]
    else
      var rest := Frequencies(xs[1..]);
      var m := rest[xs[0] := (if xs[0] in rest then rest[xs[0]] else 0) + 1];
      FrequencyStep(xs, rest, m);
      m
  }

  lemma FrequencyStep<K>(xs: seq<K>, rest: map<K, nat>, m: map<K, nat>)
    requires xs != []
    requires forall k :: k in rest <==> k in xs[1..]
    requires forall k :: k in rest ==> rest[k] == Occurrences(xs[1..], k) >= 1
    requires m == rest[xs[0] := (if xs[0] in rest then rest[xs[0]] else 0) + 1]
    ensures forall k :: k in m <==> k in xs
    ensures forall k :: k in m ==> m[k] == Occurrences(xs, k) >= 1
  {
    assert forall k :: k in xs <==> k == xs[0] || k in xs[1..];
    forall k | k in m ensures m[k] == Occurrences(xs, k) >= 1 {
      var before := Occurrences(xs[1..], k);
      if k == xs[0] {
        assert Occurrences(xs, k) == before + 1;
        if k !in rest {
          OccurrencesPositive(xs[1..], k);
        }
      } else {
        assert Occurrences(xs, k) == before;
      }
    }
  }

  function Id<K>(x: K): K {
    x
  }

  lemma {:induction false} OccurrencesIsCount<K>(xs: seq<K>, k: K)
    ensures Occurrences(xs, k) == Count(xs, Id, k)
  {
    if xs != [] {
      OccurrencesIsCount(xs[1..], k);
    }
  }

  /** The values over the keys `ks`, added up. */
  function SumOver<K>(m: map<K, nat>, ks: seq<K>): nat
    requires forall k :: k in ks ==> k in m
  {
    if ks == [] then 0 else m[ks[0]] + SumOver(m, ks[1..])
  }

  lemma {:induction false} SumOverIsSumCounts<K(!new)>(xs: seq<K>, ks: seq<K>)
    requires forall k :: k in ks ==> k in Frequencies(xs)
    ensures SumOver(Frequencies(xs), ks) == SumCounts(xs, Id, ks)
  {
    if ks != [] {
      OccurrencesIsCount(xs, ks[0]);
      SumOverIsSumCounts(xs, ks[1..]);
    }
  }

  /**
   * The frequencies, added up over the keys listed once each, give the
   * number of elements.
   */
  lemma FrequenciesAddUp<K(!new)>(xs: seq<K>, ks: seq<K>)
    requires NoDuplicates(ks)
    requires forall k :: k in ks <==> k in Frequencies(xs)
    ensures SumOver(Frequencies(xs), ks) == |xs|
  {
    SumOverIsSumCounts(xs, ks);
    assert forall i :: 0 <= i < |xs| ==> Id(xs[i]) in ks;
    CountsPartition(xs, Id, ks);
  }
}
