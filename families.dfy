/**
 * The family fare table: records grouped by (class, family size), with the
 * number of records and the mean, lowest and highest fare of each group,
 * sorted by class and then family size; and the large-family view drawn
 * from it, which keeps the third-class groups of five or more and flags
 * those whose highest fare reaches the mean first-class fare.
 */
module Families {
  import opened Passengers
  import Counting

  datatype FamilyKey = FamilyKey(pclass: int, familySize: nat)

  function FamilyKeyOf(p: Passenger): (k: FamilyKey)
    ensures k.familySize >= 1
  {
    FamilyKey(p.pclass, FamilySize(p))
  }

  /** Ascending class, then ascending family size. */
  predicate KeyBefore(a: FamilyKey, b: FamilyKey) {
    a.pclass < b.pclass || (a.pclass == b.pclass && a.familySize < b.familySize)
  }

  predicate StrictlySorted(ks: seq<FamilyKey>) {
    forall i, j :: 0 <= i < j < |ks| ==> KeyBefore(ks[i], ks[j])
  }

  /** Adds `k` to the sorted key list `ks` unless it is there already. */
  function Insert(k: FamilyKey, ks: seq<FamilyKey>): (r: seq<FamilyKey>)
    requires StrictlySorted(ks)
    ensures StrictlySorted(r)
    ensures forall x :: x in r <==> x == k || x in ks
  {
    if ks == [] then [k]
    else if k == ks[0] then ks
    else if KeyBefore(k, ks[0]) then [k] + ks
    else
      var rest := Insert(k, ks[1..]);
      assert forall x :: x in ks <==> x == ks[0] || x in ks[1..];
      assert forall x :: x in ks[1..] ==> KeyBefore(ks[0], x) by {
        forall x | x in ks[1..] ensures KeyBefore(ks[0], x) {
          var j :| 0 <= j < |ks[1..]| && ks[1..][j] == x;
          assert ks[j + 1] == x;
        }
      }
      SortedCons(ks[0], rest);
      [ks[0]] + rest
  }

  /** A key before every key of a sorted list can be put in front of it. */
  lemma SortedCons(x: FamilyKey, ks: seq<FamilyKey>)
    requires StrictlySorted(ks)
    requires forall y :: y in ks ==> KeyBefore(x, y)
    ensures StrictlySorted([x] + ks)
  {
    forall i, j | 0 <= i < j < |[x] + ks| ensures KeyBefore(([x] + ks)[i], ([x] + ks)[j]) {
      assert ([x] + ks)[j] == ks[j - 1];
      if i > 0 {
        assert ([x] + ks)[i] == ks[i - 1];
      }
    }
  }

  /** The number of records whose (class, family size) is `k`. */
  function Size(rows: seq<Passenger>, k: FamilyKey): (n: nat)
    ensures n <= |rows|
    ensures n > 0 <==> exists i :: 0 <= i < |rows| && FamilyKeyOf(rows[i]) == k
  {
    Counting.Count(rows, FamilyKeyOf, k)
  }

  /** The (class, family size) pairs that occur in the table, strictly ascending by class and then family size. */
  function ObservedKeys(rows: seq<Passenger>): (ks: seq<FamilyKey>)
    ensures StrictlySorted(ks)
    ensures forall k :: k in ks <==> Size(rows, k) > 0
  {
    if rows == [] then []
    else
      var rest := ObservedKeys(rows[1..]);
      assert forall k :: Size(rows, k) == (if FamilyKeyOf(rows[0]) == k then 1 else 0) + Size(rows[1..], k);
      Insert(FamilyKeyOf(rows[0]), rest)
  }

  /** The records whose (class, family size) is `k`, in table order. */
  function Members(rows: seq<Passenger>, k: FamilyKey): (ms: seq<Passenger>)
    ensures |ms| == Size(rows, k)
    ensures forall p :: p in ms <==> p in rows && FamilyKeyOf(p) == k
  {
    if rows == [] then []
    else
      var rest := Members(rows[1..], k);
      assert forall p :: p in rows <==> p == rows[0] || p in rows[1..];
      (if FamilyKeyOf(rows[0]) == k then [rows[0]] else []) + rest
  }

  function FareSum(ps: seq<Passenger>): real {
    if ps == [] then 0.0 else ps[0].fare + FareSum(ps[1..])
  }

  /** The lowest fare of a non-empty group. */
  function MinFare(ps: seq<Passenger>): (m: real)
    requires ps != []
    ensures forall p :: p in ps ==> m <= p.fare
    ensures exists i :: 0 <= i < |ps| && ps[i].fare == m
  {
    if |ps| == 1 then ps[0].fare
    else
      var rest := MinFare(ps[1..]);
      assert forall p :: p in ps ==> p == ps[0] || p in ps[1..];
      assert forall i :: 0 <= i < |ps[1..]| ==> ps[1..][i] == ps[i + 1];
      if ps[0].fare <= rest then ps[0].fare else rest
  }

  /** The highest fare of a non-empty group. */
  function MaxFare(ps: seq<Passenger>): (m: real)
    requires ps != []
    ensures forall p :: p in ps ==> p.fare <= m
    ensures exists i :: 0 <= i < |ps| && ps[i].fare == m
  {
    if |ps| == 1 then ps[0].fare
    else
      var rest := MaxFare(ps[1..]);
      assert forall p :: p in ps ==> p == ps[0] || p in ps[1..];
      assert forall i :: 0 <= i < |ps[1..]| ==> ps[1..][i] == ps[i + 1];
      if ps[0].fare >= rest then ps[0].fare else rest
  }

  /** A sum of fares each at least `b` is at least `b` times their number. */
  lemma {:induction false} FareSumAtLeast(ps: seq<Passenger>, b: real)
    requires forall p :: p in ps ==> b <= p.fare
    ensures |ps| as real * b <= FareSum(ps)
  {
    if ps != [] {
      var t := ps[1..];
      assert forall p :: p in t ==> b <= p.fare by {
        assert forall p :: p in t ==> p in ps;
      }
      FareSumAtLeast(t, b);
      assert b <= ps[0].fare by {
        assert ps[0] in ps;
      }
      Distribute(|t|, b);
    }
  }

  /** A sum of fares each at most `b` is at most `b` times their number. */
  lemma {:induction false} FareSumAtMost(ps: seq<Passenger>, b: real)
    requires forall p :: p in ps ==> p.fare <= b
    ensures FareSum(ps) <= |ps| as real * b
  {
    if ps != [] {
      var t := ps[1..];
      assert forall p :: p in t ==> p.fare <= b by {
        assert forall p :: p in t ==> p in ps;
      }
      FareSumAtMost(t, b);
      assert ps[0].fare <= b by {
        assert ps[0] in ps;
      }
      Distribute(|t|, b);
    }
  }

  lemma Distribute(n: nat, b: real)
    ensures (n + 1) as real * b == b + n as real * b
  {
  }

  /** The mean fare of a non-empty group lies between its lowest and highest fare. */
  function MeanFare(ps: seq<Passenger>): (m: real)
    requires ps != []
    ensures MinFare(ps) <= m <= MaxFare(ps)
  {
    MeanWithin(ps, MinFare(ps), MaxFare(ps));
    FareSum(ps) / |ps| as real
  }

  /** The mean of fares that all lie within [lo, hi] lies within [lo, hi] too. */
  lemma MeanWithin(ps: seq<Passenger>, lo: real, hi: real)
    requires ps != []
    requires forall p :: p in ps ==> lo <= p.fare <= hi
    ensures lo <= FareSum(ps) / |ps| as real <= hi
  {
    MeanAtLeast(ps, lo);
    MeanAtMost(ps, hi);
  }

  lemma MeanAtLeast(ps: seq<Passenger>, lo: real)
    requires ps != []
    requires forall p :: p in ps ==> lo <= p.fare
    ensures lo <= FareSum(ps) / |ps| as real
  {
    FareSumAtLeast(ps, lo);
    DivideAtLeast(FareSum(ps), |ps| as real, lo);
  }

  lemma MeanAtMost(ps: seq<Passenger>, hi: real)
    requires ps != []
    requires forall p :: p in ps ==> p.fare <= hi
    ensures FareSum(ps) / |ps| as real <= hi
  {
    FareSumAtMost(ps, hi);
    DivideAtMost(FareSum(ps), |ps| as real, hi);
  }

  lemma DivideAtLeast(s: real, n: real, lo: real)
    requires n > 0.0 && n * lo <= s
    ensures lo <= s / n
  {
    var q := s / n;
    assert q * n == s;
    assert (q - lo) * n == s - lo * n;
  }

  lemma DivideAtMost(s: real, n: real, hi: real)
    requires n > 0.0 && s <= n * hi
    ensures s / n <= hi
  {
    var q := s / n;
    assert q * n == s;
    assert (hi - q) * n == hi * n - s;
  }

  /** One row of the family fare table. */
  datatype FamilyRow = FamilyRow(
    pclass: int,
    familySize: nat,
    nPassengers: nat,
    avgFare: real,
    minFare: real,
    maxFare: real)

  function RowKey(r: FamilyRow): FamilyKey {
    FamilyKey(r.pclass, r.familySize)
  }

  /** The row of the group `ms`, which holds the records of key `k`. */
  function Summarise(k: FamilyKey, ms: seq<Passenger>): (r: FamilyRow)
    requires ms != []
    ensures RowKey(r) == k && r.nPassengers == |ms| >= 1
    ensures r.minFare <= r.avgFare <= r.maxFare
    ensures forall p :: p in ms ==> r.minFare <= p.fare <= r.maxFare
  {
    FamilyRow(k.pclass, k.familySize, |ms|, MeanFare(ms), MinFare(ms), MaxFare(ms))
  }

  /** The rows of the keys `ks`, in the order of `ks`. */
  function Rows(rows: seq<Passenger>, ks: seq<FamilyKey>): (r: seq<FamilyRow>)
    requires forall k :: k in ks ==> Size(rows, k) > 0
    ensures |r| == |ks|
    ensures forall i :: 0 <= i < |r| ==> RowKey(r[i]) == ks[i]
  {
    if ks == [] then []
    else [Summarise(ks[0], Members(rows, ks[0]))] + Rows(rows, ks[1..])
  }

  /**
   * The family fare table: one row per (class, family size) pair that
   * occurs, strictly ascending by class and then family size, each with
   * the number of records of the pair and the mean, lowest and highest
   * fare among them.
   */
  function FamilyGroups(rows: seq<Passenger>): (r: seq<FamilyRow>)
    ensures forall i, j :: 0 <= i < j < |r| ==> KeyBefore(RowKey(r[i]), RowKey(r[j]))
    ensures forall i :: 0 <= i < |r| ==> r[i].nPassengers == Size(rows, RowKey(r[i])) >= 1
  {
    var ks := ObservedKeys(rows);
    RowCounts(rows, ks);
    Rows(rows, ks)
  }

  lemma RowCounts(rows: seq<Passenger>, ks: seq<FamilyKey>)
    requires forall k :: k in ks <==> Size(rows, k) > 0
    ensures forall i :: 0 <= i < |ks| ==> Rows(rows, ks)[i].nPassengers == Size(rows, ks[i]) >= 1
  {
    forall i | 0 <= i < |ks| ensures Rows(rows, ks)[i].nPassengers == Size(rows, ks[i]) >= 1 {
      assert ks[i] in ks;
      RowAt(rows, ks, i);
    }
  }

  /**
   * Every row has a family size of at least one and its mean fare lies
   * between its lowest and highest fare.
   */
  lemma RowFareBounds(rows: seq<Passenger>, i: nat)
    requires i < |FamilyGroups(rows)|
    ensures FamilyGroups(rows)[i].familySize >= 1
    ensures FamilyGroups(rows)[i].minFare <= FamilyGroups(rows)[i].avgFare <= FamilyGroups(rows)[i].maxFare
  {
    var ks := ObservedKeys(rows);
    RowAt(rows, ks, i);
  }

  lemma {:induction false} RowAt(rows: seq<Passenger>, ks: seq<FamilyKey>, i: nat)
    requires forall k :: k in ks ==> Size(rows, k) > 0
    requires i < |ks|
    ensures Rows(rows, ks)[i] == Summarise(ks[i], Members(rows, ks[i]))
  {
    if i > 0 {
      var tail := ks[1..];
      assert forall k :: k in tail ==> Size(rows, k) > 0;
      RowAt(rows, tail, i - 1);
      assert Rows(rows, ks) == [Summarise(ks[0], Members(rows, ks[0]))] + Rows(rows, tail);
    }
  }

  lemma RowsSummarise(rows: seq<Passenger>, ks: seq<FamilyKey>)
    requires forall k :: k in ks ==> Size(rows, k) > 0
    ensures forall i :: 0 <= i < |ks| ==>
      Rows(rows, ks)[i] == Summarise(ks[i], Members(rows, ks[i]))
  {
    forall i | 0 <= i < |ks| ensures Rows(rows, ks)[i] == Summarise(ks[i], Members(rows, ks[i])) {
      RowAt(rows, ks, i);
    }
  }

  /** Every record is counted in the row of its own (class, family size). */
  lemma EveryRecordHasItsRow(rows: seq<Passenger>, p: Passenger)
    requires p in rows
    ensures exists i :: 0 <= i < |FamilyGroups(rows)| && RowKey(FamilyGroups(rows)[i]) == FamilyKeyOf(p)
  {
    var ks := ObservedKeys(rows);
    var i :| 0 <= i < |rows| && rows[i] == p;
    assert Size(rows, FamilyKeyOf(p)) > 0;
    assert FamilyKeyOf(p) in ks;
    var j :| 0 <= j < |ks| && ks[j] == FamilyKeyOf(p);
    assert RowKey(FamilyGroups(rows)[j]) == FamilyKeyOf(p);
  }

  /** Each row's figures are those of the records of its pair. */
  lemma RowDescribesItsRecords(rows: seq<Passenger>, i: nat)
    requires i < |FamilyGroups(rows)|
    ensures var r := FamilyGroups(rows)[i];
      var ms := Members(rows, RowKey(r));
      ms != [] && r.nPassengers == |ms|
      && r.avgFare == FareSum(ms) / |ms| as real
      && r.minFare == MinFare(ms) && r.maxFare == MaxFare(ms)
  {
    RowsSummarise(rows, ObservedKeys(rows));
  }

  function TotalPassengers(r: seq<FamilyRow>): nat {
    if r == [] then 0 else r[0].nPassengers + TotalPassengers(r[1..])
  }

  lemma {:induction false} TotalOfRows(rows: seq<Passenger>, ks: seq<FamilyKey>)
    requires forall k :: k in ks ==> Size(rows, k) > 0
    ensures TotalPassengers(Rows(rows, ks)) == Counting.SumCounts(rows, FamilyKeyOf, ks)
  {
    if ks != [] {
      TotalOfRows(rows, ks[1..]);
    }
  }

  /** The group sizes of the table add up to the number of records. */
  lemma GroupSizesAddUp(rows: seq<Passenger>)
    ensures TotalPassengers(FamilyGroups(rows)) == |rows|
  {
    var ks := ObservedKeys(rows);
    TotalOfRows(rows, ks);
    assert Counting.NoDuplicates(ks) by {
      forall i, j | 0 <= i < j < |ks| ensures ks[i] != ks[j] {
        assert KeyBefore(ks[i], ks[j]);
      }
    }
    assert forall i :: 0 <= i < |rows| ==> FamilyKeyOf(rows[i]) in ks;
    Counting.CountsPartition(rows, FamilyKeyOf, ks);
  }

  /**
   * Two third-class records of a six-person family paying 50 and 80 form a
   * single row of two with mean 65, lowest 50 and highest 80.
   */
  lemma TwoFareExample(rows: seq<Passenger>)
    requires rows == [Passenger(3, "female", None, 0, 1, 4, 50.0, ""),
                      Passenger(3, "male", None, 0, 3, 2, 80.0, "")]
    ensures FamilyGroups(rows) == [FamilyRow(3, 6, 2, 65.0, 50.0, 80.0)]
  {
    var k := FamilyKey(3, 6);
    var tail := rows[1..];
    assert tail[1..] == [];
    assert FamilyKeyOf(rows[0]) == k && FamilyKeyOf(tail[0]) == k;
    assert ObservedKeys(tail) == [k] by {
      assert ObservedKeys(tail[1..]) == [];
    }
    assert ObservedKeys(rows) == [k];
    assert Members(rows, k) == rows by {
      assert Members(tail, k) == tail;
    }
    assert FareSum(rows) == 130.0 by {
      assert FareSum(tail) == 80.0;
    }
    assert MinFare(rows) == 50.0 by {
      assert MinFare(tail) == 80.0;
    }
    assert MaxFare(rows) == 80.0 by {
      assert MaxFare(tail) == 80.0;
    }
    RowsSummarise(rows, [k]);
  }

  /**
   * The passenger table as the dashboard holds it: the records and, once
   * the family table has been built, the derived `family_size` column.
   */
  class Frame {
    var rows: seq<Passenger>
    var familySize: Option<seq<nat>>

    constructor(rows: seq<Passenger>)
      ensures this.rows == rows && familySize == None
    {
      this.rows := rows;
      familySize := None;
    }

    /**
     * Writes the family size of every record into the table, then builds
     * the family fare table. The records themselves are left as they are.
     */
    method GroupFamilies() returns (r: seq<FamilyRow>)
      modifies this
      ensures rows == old(rows)
      ensures familySize.Some? && |familySize.value| == |rows|
      ensures forall i :: 0 <= i < |rows| ==>
        familySize.value[i] == rows[i].sibsp + rows[i].parch + 1 >= 1
      ensures r == FamilyGroups(rows)
    {
      var rs := rows;
      familySize := Some(seq(|rs|, i requires 0 <= i < |rs| => FamilySize(rs[i])));
      r := FamilyGroups(rows);
    }
  }

  /** The rows of third-class groups of five or more, in table order. */
  function LargeThird(groups: seq<FamilyRow>): (r: seq<FamilyRow>)
    ensures |r| <= |groups|
    ensures forall x :: x in r <==> x in groups && x.pclass == 3 && x.familySize >= 5
  {
    if groups == [] then []
    else
      var rest := LargeThird(groups[1..]);
      assert forall x :: x in groups <==> x == groups[0] || x in groups[1..];
      (if groups[0].pclass == 3 && groups[0].familySize >= 5 then [groups[0]] else []) + rest
  }

  /** Rows strictly ascending by class and then family size. */
  predicate RowsSorted(rs: seq<FamilyRow>) {
    forall i, j :: 0 <= i < j < |rs| ==> KeyBefore(RowKey(rs[i]), RowKey(rs[j]))
  }

  lemma RowsSortedCons(x: FamilyRow, rs: seq<FamilyRow>)
    requires RowsSorted(rs)
    requires forall y :: y in rs ==> KeyBefore(RowKey(x), RowKey(y))
    ensures RowsSorted([x] + rs)
  {
    forall i, j | 0 <= i < j < |[x] + rs| ensures KeyBefore(RowKey(([x] + rs)[i]), RowKey(([x] + rs)[j])) {
      assert ([x] + rs)[j] == rs[j - 1];
      if i > 0 {
        assert ([x] + rs)[i] == rs[i - 1];
      }
    }
  }

  /** Filtering keeps the order of the table. */
  lemma {:induction false} LargeThirdKeepsOrder(groups: seq<FamilyRow>)
    requires RowsSorted(groups)
    ensures RowsSorted(LargeThird(groups))
  {
    if groups != [] {
      var g := groups[1..];
      assert RowsSorted(g) by {
        forall i, j | 0 <= i < j < |g| ensures KeyBefore(RowKey(g[i]), RowKey(g[j])) {
          assert g[i] == groups[i + 1] && g[j] == groups[j + 1];
        }
      }
      LargeThirdKeepsOrder(g);
      var rest := LargeThird(g);
      assert forall x :: x in rest ==> KeyBefore(RowKey(groups[0]), RowKey(x)) by {
        forall x | x in rest ensures KeyBefore(RowKey(groups[0]), RowKey(x)) {
          var j :| 0 <= j < |g| && g[j] == x;
          assert groups[j + 1] == x;
        }
      }
      if groups[0].pclass == 3 && groups[0].familySize >= 5 {
        RowsSortedCons(groups[0], rest);
        assert LargeThird(groups) == [groups[0]] + rest;
      } else {
        assert LargeThird(groups) == rest;
      }
    }
  }

  /** The records of the given class. */
  function ClassRecords(rows: seq<Passenger>, c: int): (r: seq<Passenger>)
    ensures forall p :: p in r <==> p in rows && p.pclass == c
  {
    if rows == [] then []
    else
      var rest := ClassRecords(rows[1..], c);
      assert forall p :: p in rows <==> p == rows[0] || p in rows[1..];
      (if rows[0].pclass == c then [rows[0]] else []) + rest
  }

  /**
   * The mean fare of the first-class records; `None` when there are none,
   * where the table's mean is undefined.
   */
  function FirstClassMeanFare(rows: seq<Passenger>): (m: Option<real>)
    ensures m.None? <==> forall p :: p in rows ==> p.pclass != 1
    ensures m.Some? ==> ClassRecords(rows, 1) != []
    ensures m.Some? ==> m.value == FareSum(ClassRecords(rows, 1)) / |ClassRecords(rows, 1)| as real
    ensures m.Some? ==> MinFare(ClassRecords(rows, 1)) <= m.value <= MaxFare(ClassRecords(rows, 1))
  {
    var firsts := ClassRecords(rows, 1);
    if firsts == [] then None
    else
      assert firsts[0] in firsts;
      Some(MeanFare(firsts))
  }

  /** A large third-class group and whether its highest fare reaches the baseline. */
  datatype LargeFamily = LargeFamily(group: FamilyRow, meetsOrExceedsFirstClassMean: bool)

  /**
   * The large third-class groups in table order, each flagged when a
   * baseline exists and the group's highest fare is at least the baseline;
   * with no baseline no group is flagged.
   */
  function FlagLargeFamilies(groups: seq<FamilyRow>, baseline: Option<real>): (r: seq<LargeFamily>)
    ensures |r| == |LargeThird(groups)|
    ensures forall i :: 0 <= i < |r| ==> r[i].group == LargeThird(groups)[i]
    ensures forall i :: 0 <= i < |r| ==>
      (r[i].meetsOrExceedsFirstClassMean <==> baseline.Some? && r[i].group.maxFare >= baseline.value)
  {
    var large := LargeThird(groups);
    seq(|large|, i requires 0 <= i < |large| =>
      LargeFamily(large[i], baseline.Some? && large[i].maxFare >= baseline.value))
  }

  /** How many large groups there are and how many of them are flagged. */
  datatype FamilyReport = FamilyReport(nGroupsTotal: nat, nGroupsMeeting: nat)

  function CountFlagged(fs: seq<LargeFamily>): (n: nat)
    ensures n <= |fs|
  {
    if fs == [] then 0
    else (if fs[0].meetsOrExceedsFirstClassMean then 1 else 0) + CountFlagged(fs[1..])
  }

  /** The large-family view of the table. */
  function LargeFamilies(rows: seq<Passenger>): (r: (seq<LargeFamily>, FamilyReport))
    ensures r.1.nGroupsTotal == |r.0| == |LargeThird(FamilyGroups(rows))|
    ensures r.1.nGroupsMeeting <= r.1.nGroupsTotal
    ensures r.1.nGroupsMeeting == CountFlagged(r.0)
  {
    var flagged := FlagLargeFamilies(FamilyGroups(rows), FirstClassMeanFare(rows));
    (flagged, FamilyReport(|flagged|, CountFlagged(flagged)))
  }

  /**
   * A kept group is flagged exactly when first-class records exist and the
   * group's highest fare reaches their mean fare.
   */
  lemma LargeFamilyFlagged(rows: seq<Passenger>, i: nat)
    requires i < |LargeFamilies(rows).0|
    ensures var f := LargeFamilies(rows).0[i];
      var baseline := FirstClassMeanFare(rows);
      f.meetsOrExceedsFirstClassMean <==> baseline.Some? && f.group.maxFare >= baseline.value
  {
    var groups := FamilyGroups(rows);
    var baseline := FirstClassMeanFare(rows);
    assert LargeFamilies(rows).0 == FlagLargeFamilies(groups, baseline);
  }

  lemma {:induction false} NoneFlagged(fs: seq<LargeFamily>)
    requires forall i :: 0 <= i < |fs| ==> !fs[i].meetsOrExceedsFirstClassMean
    ensures CountFlagged(fs) == 0
  {
    if fs != [] {
      NoneFlagged(fs[1..]);
    }
  }

  /** Without first-class records no group meets the baseline. */
  lemma NoFirstClassNoneMeet(rows: seq<Passenger>)
    requires forall p :: p in rows ==> p.pclass != 1
    ensures LargeFamilies(rows).1.nGroupsMeeting == 0
  {
    NoneFlagged(LargeFamilies(rows).0);
  }

  /** The kept groups are exactly the third-class groups of five or more, in table order. */
  lemma LargeThirdExactly(rows: seq<Passenger>, x: FamilyRow)
    ensures x in FamilyGroups(rows) && x.pclass == 3 && x.familySize >= 5
      <==> exists i :: 0 <= i < |LargeFamilies(rows).0| && LargeFamilies(rows).0[i].group == x
  {
    var groups := FamilyGroups(rows);
    var baseline := FirstClassMeanFare(rows);
    assert LargeFamilies(rows).0 == FlagLargeFamilies(groups, baseline);
    FlaggedExactly(groups, baseline, x);
  }

  lemma FlaggedExactly(groups: seq<FamilyRow>, baseline: Option<real>, x: FamilyRow)
    ensures x in groups && x.pclass == 3 && x.familySize >= 5
      <==> exists i :: 0 <= i < |FlagLargeFamilies(groups, baseline)| && FlagLargeFamilies(groups, baseline)[i].group == x
  {
    var large := LargeThird(groups);
    var r := FlagLargeFamilies(groups, baseline);
    if x in large {
      var i :| 0 <= i < |large| && large[i] == x;
      assert r[i].group == x;
    }
    if exists i :: 0 <= i < |r| && r[i].group == x {
      var i :| 0 <= i < |r| && r[i].group == x;
      assert large[i] == x;
    }
  }

  /** The kept groups stay in table order. */
  lemma LargeFamiliesInOrder(rows: seq<Passenger>)
    ensures var r := LargeFamilies(rows).0;
      forall i, j :: 0 <= i < j < |r| ==> KeyBefore(RowKey(r[i].group), RowKey(r[j].group))
  {
    var groups := FamilyGroups(rows);
    LargeThirdKeepsOrder(groups);
  }
}
