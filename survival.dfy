/**
 * The grouped survival aggregator: passengers counted per
 * (class, normalised sex, age group), left-joined onto the fixed
 * 3 x 2 x 4 grid, zero-filled, with a guarded survival rate, in the grid's
 * sort order.
 */
module Survival {
  import opened Passengers

  /** Coordinates of one cell of the output grid. */
  datatype Key = Key(pclass: int, sex: string, ageGroup: AgeGroup)

  /**
   * A key of the group-by over the observed records. An age group of `None`
   * is the "nan" label of a record whose age fell in no bin.
   */
  datatype GroupKey = GroupKey(pclass: int, sex: string, ageGroup: Option<AgeGroup>)

  /** Passenger count and survivor count of a group. */
  datatype Tally = Tally(passengers: nat, survivors: nat) {
    function Plus(other: Tally): Tally {
      Tally(passengers + other.passengers, survivors + other.survivors)
    }
  }


  function One(p: Passenger): Tally {
    Tally(1, p.survived)
  }

  /**
   * The group-by key of `p`; its age label is missing exactly when the
   * record's age falls in no bin.
   */
  function KeyOf(p: Passenger): (k: GroupKey)
    ensures k.pclass == p.pclass && k.sex == NormalizeSex(p.sex)
    ensures k.ageGroup.None? <==> p.age.None? || p.age.value < -1.0
  {
    GroupKey(p.pclass, NormalizeSex(p.sex), AgeBin(p.age))
  }

  /** The group-by key of a record names exactly the cell the record belongs to. */
  lemma KeyOfNamesCell(p: Passenger, c: Key)
    ensures InCell(p, c) <==> KeyOf(p) == Lift(c)
  {
  }

  function Lift(k: Key): GroupKey {
    GroupKey(k.pclass, k.sex, Some(k.ageGroup))
  }

  function Unlift(g: GroupKey): Key
    requires g.ageGroup.Some?
  {
    Key(g.pclass, g.sex, g.ageGroup.value)
  }

  /** Record `p` belongs to the cell with coordinates `k`. */
  predicate InCell(p: Passenger, k: Key) {
    p.pclass == k.pclass && NormalizeSex(p.sex) == k.sex && AgeBin(p.age) == Some(k.ageGroup)
  }

  /** The records of `rows` that belong to cell `k`, in table order. */
  function Members(rows: seq<Passenger>, k: Key): (ms: seq<Passenger>)
    ensures |ms| <= |rows|
    ensures forall p :: p in ms <==> p in rows && InCell(p, k)
  {
    if rows == [] then []
    else (if InCell(rows[0], k) then [rows[0]] else []) + Members(rows[1..], k)
  }

  /** The sum of the survival flags of `ps`. */
  function SumSurvived(ps: seq<Passenger>): (n: nat)
    ensures n <= |ps|
  {
    if ps == [] then 0 else ps[0].survived + SumSurvived(ps[1..])
  }

  /** A group absent from the group-by reads as zero counts. */
  function Lookup(m: map<GroupKey, Tally>, k: GroupKey): (t: Tally)
    ensures k in m ==> t == m[k]
    ensures k !in m ==> t == Tally(0, 0)
  {
    if k in m then m[k] else Tally(0, 0)
  }

  /**
   * The group-by with `dropna=False`: one entry per observed key (the "nan"
   * age label included), with its size and its sum of survival flags.
   */
  function GroupTally(rows: seq<Passenger>): (m: map<GroupKey, Tally>)
    ensures forall k :: k in m ==> 1 <= m[k].passengers && m[k].survivors <= m[k].passengers
  {
    if rows == [] then map[]
    else
      var rest := GroupTally(rows[1..]);
      var k := KeyOf(rows[0]);
      rest[k := Lookup(rest, k).Plus(One(rows[0]))]
  }

  /** The group-by holds a group for a key exactly when some record has that key. */
  lemma {:induction false} GroupTallyKeys(rows: seq<Passenger>, k: GroupKey)
    ensures k in GroupTally(rows) <==> exists p :: p in rows && KeyOf(p) == k
  {
    if rows != [] {
      GroupTallyKeys(rows[1..], k);
      assert forall p :: p in rows <==> p == rows[0] || p in rows[1..];
    }
  }

  /** Each group of the group-by counts exactly its members and their survivors. */
  lemma {:induction false} GroupTallyIsMembers(rows: seq<Passenger>, k: Key)
    ensures Lookup(GroupTally(rows), Lift(k)) == Tally(|Members(rows, k)|, SumSurvived(Members(rows, k)))
  {
    if rows != [] {
      GroupTallyIsMembers(rows[1..], k);
      var ms, rest := Members(rows, k), Members(rows[1..], k);
      KeyOfNamesCell(rows[0], k);
      if InCell(rows[0], k) {
        assert ms == [rows[0]] + rest;
        assert ms[1..] == rest;
      } else {
        assert ms == rest;
      }
    }
  }

  const PClassOrder: seq<int> := [1, 2, 3]
  const SexOrder: seq<string> := ["female", "male"]
  const AgeOrder: seq<AgeGroup> := [Child, Teen, Adult, Senior]

  /** Position of a sex in the categorical order female < male. */
  function SexRank(s: string): nat {
    if s == "female" then 0 else if s == "male" then 1 else 2
  }

  /** The sort order of the output: class, then sex, then age group. */
  predicate Before(a: Key, b: Key) {
    || a.pclass < b.pclass
    || (a.pclass == b.pclass && SexRank(a.sex) < SexRank(b.sex))
    || (a.pclass == b.pclass && a.sex == b.sex && AgeRank(a.ageGroup) < AgeRank(b.ageGroup))
  }

  predicate OnGrid(k: Key) {
    1 <= k.pclass <= 3 && (k.sex == "female" || k.sex == "male")
  }

  /** The full grid of classes, sexes and age groups, in nested-loop order. */
  function Grid(): (g: seq<Key>)
    ensures |g| == 24
    ensures forall i, j :: 0 <= i < j < |g| ==> Before(g[i], g[j])
    ensures forall k :: k in g <==> OnGrid(k)
  {
    var g := seq(24, i requires 0 <= i < 24 => Key(PClassOrder[i / 8], SexOrder[i / 4 % 2], AgeOrder[i % 4]));
    forall i | 0 <= i < 24 ensures OnGrid(g[i]) && GridIndex(g[i]) == i {
      GridAt(i);
    }
    forall i, j | 0 <= i < j < 24 ensures Before(g[i], g[j]) {
      IndexOrderIsBefore(g[i], g[j]);
    }
    forall k | OnGrid(k) ensures k in g {
      IndexOrderIsBefore(k, g[GridIndex(k)]);
      IndexOrderIsBefore(g[GridIndex(k)], k);
      assert g[GridIndex(k)] == k;
    }
    g
  }

  /** Position of an on-grid key in the nested-loop order. */
  function GridIndex(k: Key): (i: nat)
    requires OnGrid(k)
    ensures i < 24
  {
    8 * (k.pclass - 1) + 4 * SexRank(k.sex) + AgeRank(k.ageGroup)
  }

  lemma GridAt(i: nat)
    requires i < 24
    ensures var k := Key(PClassOrder[i / 8], SexOrder[i / 4 % 2], AgeOrder[i % 4]);
      OnGrid(k) && GridIndex(k) == i
  {
    var p, s, a := i / 8, i / 4 % 2, i % 4;
    assert i == 8 * p + 4 * s + a;
    assert SexRank(SexOrder[s]) == s;
    assert AgeRank(AgeOrder[a]) == a;
  }

  /** On the grid, the nested-loop position decides the sort order. */
  lemma IndexOrderIsBefore(a: Key, b: Key)
    requires OnGrid(a) && OnGrid(b)
    ensures GridIndex(a) < GridIndex(b) ==> Before(a, b)
    ensures GridIndex(a) == GridIndex(b) ==> a == b
  {
    if GridIndex(a) == GridIndex(b) {
      assert a.ageGroup == b.ageGroup by {
        assert AgeRank(a.ageGroup) == AgeRank(b.ageGroup);
      }
    }
  }

  /** One row of the output table. */
  datatype Cell = Cell(
    pclass: int,
    sex: string,
    ageGroup: AgeGroup,
    nPassengers: nat,
    nSurvivors: nat,
    survivalRate: real)

  function CellKey(c: Cell): Key {
    Key(c.pclass, c.sex, c.ageGroup)
  }

  /** A row of the merged table, with its rate guarded against empty groups. */
  function MakeCell(k: Key, t: Tally): (r: Cell)
    ensures CellKey(r) == k
    ensures r.nPassengers == t.passengers && r.nSurvivors == t.survivors
    ensures t.passengers == 0 ==> r.survivalRate == 0.0
    ensures t.passengers > 0 ==> r.survivalRate == t.survivors as real / t.passengers as real
    ensures t.survivors <= t.passengers ==> 0.0 <= r.survivalRate <= 1.0
  {
    var rate := if t.passengers > 0 then t.survivors as real / t.passengers as real else 0.0;
    assert 0 < t.passengers && t.survivors <= t.passengers ==> 0.0 <= rate <= 1.0 by {
      if 0 < t.passengers && t.survivors <= t.passengers {
        RatioInUnit(t.survivors, t.passengers);
      }
    }
    Cell(k.pclass, k.sex, k.ageGroup, t.passengers, t.survivors, rate)
  }

  /** The left merge of the group-by onto the keys `ks`, absent groups zero-filled. */
  function Merge(m: map<GroupKey, Tally>, ks: seq<Key>): (r: seq<Cell>)
    ensures |r| == |ks|
    ensures forall i :: 0 <= i < |r| ==> CellKey(r[i]) == ks[i]
    ensures forall i :: 0 <= i < |r| ==>
      r[i].nPassengers == Lookup(m, Lift(ks[i])).passengers && r[i].nSurvivors == Lookup(m, Lift(ks[i])).survivors
  {
    seq(|ks|, i requires 0 <= i < |ks| => MakeCell(ks[i], Lookup(m, Lift(ks[i]))))
  }

  lemma RatioInUnit(s: nat, n: nat)
    requires 0 < n && s <= n
    ensures 0.0 <= s as real / n as real <= 1.0
  {
    assert s as real / n as real * n as real == s as real;
  }

  /** What every merged row carries: its key, and consistent counts and rate. */
  lemma MergedCells(m: map<GroupKey, Tally>, ks: seq<Key>)
    requires forall g :: g in m ==> m[g].survivors <= m[g].passengers
    ensures var r := Merge(m, ks);
      && |r| == |ks|
      && (forall i :: 0 <= i < |r| ==> CellKey(r[i]) == ks[i])
      && (forall i :: 0 <= i < |r| ==> r[i].nSurvivors <= r[i].nPassengers)
      && (forall i :: 0 <= i < |r| ==>
            r[i].survivalRate == (if r[i].nPassengers > 0 then r[i].nSurvivors as real / r[i].nPassengers as real else 0.0))
      && (forall i :: 0 <= i < |r| ==> 0.0 <= r[i].survivalRate <= 1.0)
  {
    var r := Merge(m, ks);
    forall i | 0 <= i < |r| ensures 0.0 <= r[i].survivalRate <= 1.0 {
      if r[i].nPassengers > 0 {
        RatioInUnit(r[i].nSurvivors, r[i].nPassengers);
      }
    }
  }

  /**
   * The aggregator: exactly the 24 grid cells in sort order, each with
   * survivors never above passengers and a rate that is the survivors'
   * share of a non-empty cell and 0 for an empty one.
   */
  function SurvivalDemographics(rows: seq<Passenger>): (r: seq<Cell>)
    ensures |r| == 24
    ensures forall i :: 0 <= i < |r| ==> CellKey(r[i]) == Grid()[i]
    ensures forall i, j :: 0 <= i < j < |r| ==> Before(CellKey(r[i]), CellKey(r[j]))
    ensures forall i :: 0 <= i < |r| ==> r[i].nSurvivors <= r[i].nPassengers
    ensures forall i :: 0 <= i < |r| ==>
      r[i].survivalRate == if r[i].nPassengers > 0 then r[i].nSurvivors as real / r[i].nPassengers as real else 0.0
    ensures forall i :: 0 <= i < |r| ==> 0.0 <= r[i].survivalRate <= 1.0
  {
    var m := GroupTally(rows);
    MergedCells(m, Grid());
    Merge(m, Grid())
  }

  /** Every grid combination has its row, and no other combination has one. */
  lemma CellsCoverGrid(rows: seq<Passenger>, k: Key)
    ensures OnGrid(k) <==> exists i :: 0 <= i < 24 && CellKey(SurvivalDemographics(rows)[i]) == k
  {
    var r := SurvivalDemographics(rows);
    if OnGrid(k) {
      var i :| 0 <= i < 24 && Grid()[i] == k;
      assert CellKey(r[i]) == k;
    }
  }

  /** Every cell counts exactly the records that belong to it, and their survivors. */
  lemma CellCounts(rows: seq<Passenger>, i: nat)
    requires i < 24
    ensures SurvivalDemographics(rows)[i].nPassengers == |Members(rows, Grid()[i])|
    ensures SurvivalDemographics(rows)[i].nSurvivors == SumSurvived(Members(rows, Grid()[i]))
  {
    GroupTallyIsMembers(rows, Grid()[i]);
  }

  /** Record `p` lands in some cell of the grid. */
  predicate InGrid(p: Passenger) {
    && 1 <= p.pclass <= 3
    && (NormalizeSex(p.sex) == "female" || NormalizeSex(p.sex) == "male")
    && AgeBin(p.age).Some?
  }

  function GridKeyOf(p: Passenger): (k: Key)
    requires InGrid(p)
    ensures OnGrid(k) && InCell(p, k)
  {
    Key(p.pclass, NormalizeSex(p.sex), AgeBin(p.age).value)
  }

  /** `t` when `b` holds, no one otherwise. */
  function When(b: bool, t: Tally): Tally {
    if b then t else Tally(0, 0)
  }

  /** The counts of the cells whose coordinates satisfy `q`, added up. */
  function Total(cells: seq<Cell>, q: Key -> bool): Tally {
    if cells == [] then Tally(0, 0)
    else
      var c := cells[0];
      When(q(CellKey(c)), Tally(c.nPassengers, c.nSurvivors)).Plus(Total(cells[1..], q))
  }

  /** Reference: the records landing in a grid cell whose coordinates satisfy `q`, tallied. */
  function GridTally(rows: seq<Passenger>, q: Key -> bool): Tally {
    if rows == [] then Tally(0, 0)
    else
      var p := rows[0];
      When(InGrid(p) && q(GridKeyOf(p)), One(p)).Plus(GridTally(rows[1..], q))
  }

  predicate Distinct(ks: seq<Key>) {
    forall i, j :: 0 <= i < j < |ks| ==> ks[i] != ks[j]
  }

  lemma MergeTail(m: map<GroupKey, Tally>, ks: seq<Key>)
    requires ks != []
    ensures Merge(m, ks)[1..] == Merge(m, ks[1..])
  {
  }

  /** The selected counts of the merged table, read straight from the group-by. */
  function MergedTotal(m: map<GroupKey, Tally>, ks: seq<Key>, q: Key -> bool): Tally {
    if ks == [] then Tally(0, 0)
    else When(q(ks[0]), Lookup(m, Lift(ks[0]))).Plus(MergedTotal(m, ks[1..], q))
  }

  lemma {:induction false} TotalOfMerge(m: map<GroupKey, Tally>, ks: seq<Key>, q: Key -> bool)
    ensures Total(Merge(m, ks), q) == MergedTotal(m, ks, q)
  {
    if ks != [] {
      MergeTail(m, ks);
      TotalOfMerge(m, ks[1..], q);
    }
  }

  lemma {:induction false} MergedTotalEmpty(ks: seq<Key>, q: Key -> bool)
    ensures MergedTotal(map[], ks, q) == Tally(0, 0)
  {
    if ks != [] {
      MergedTotalEmpty(ks[1..], q);
    }
  }

  lemma PlusRearrange(a: Tally, b: Tally, c: Tally)
    ensures a.Plus(b).Plus(c) == a.Plus(c).Plus(b)
    ensures a.Plus(b.Plus(c)) == a.Plus(b).Plus(c)
  {
  }

  lemma WhenPlus(b: bool, t: Tally, d: Tally)
    ensures When(b, t.Plus(d)) == When(b, t).Plus(When(b, d))
  {
  }

  lemma LookupUpdateOther(m: map<GroupKey, Tally>, k: GroupKey, v: Tally, x: GroupKey)
    requires x != k
    ensures Lookup(m[k := v], x) == Lookup(m, x)
  {
  }

  /** Group `k` is the group of one of the cells `ks` that `q` selects. */
  predicate Selected(k: GroupKey, ks: seq<Key>, q: Key -> bool) {
    k.ageGroup.Some? && Unlift(k) in ks && q(Unlift(k))
  }

  lemma SelectedStep(k: GroupKey, ks: seq<Key>, q: Key -> bool)
    requires ks != [] && Distinct(ks)
    ensures Lift(ks[0]) == k ==> Selected(k, ks, q) == q(ks[0]) && !Selected(k, ks[1..], q)
    ensures Lift(ks[0]) != k ==> Selected(k, ks, q) == Selected(k, ks[1..], q)
  {
    if k.ageGroup.Some? {
      var u := Unlift(k);
      assert ks == [ks[0]] + ks[1..];
      assert u in ks <==> u == ks[0] || u in ks[1..];
      if Lift(ks[0]) == k {
        assert u == ks[0];
        assert u !in ks[1..];
      }
    }
  }

  /** Adding `d` to one group changes the merged total by `d` exactly when that group is a selected cell. */
  lemma {:induction false} MergeStep(m: map<GroupKey, Tally>, k: GroupKey, d: Tally, ks: seq<Key>, q: Key -> bool)
    requires Distinct(ks)
    ensures MergedTotal(m[k := Lookup(m, k).Plus(d)], ks, q)
         == MergedTotal(m, ks, q).Plus(When(Selected(k, ks, q), d))
  {
    if ks != [] {
      assert Distinct(ks[1..]);
      MergeStep(m, k, d, ks[1..], q);
      SelectedStep(k, ks, q);
      if Lift(ks[0]) == k {
        MergeStepHead(m, k, d, ks, q);
      } else {
        MergeStepPast(m, k, d, ks, q);
      }
    }
  }

  lemma MergeStepHead(m: map<GroupKey, Tally>, k: GroupKey, d: Tally, ks: seq<Key>, q: Key -> bool)
    requires ks != [] && Lift(ks[0]) == k
    requires Selected(k, ks, q) == q(ks[0]) && !Selected(k, ks[1..], q)
    requires MergedTotal(m[k := Lookup(m, k).Plus(d)], ks[1..], q)
          == MergedTotal(m, ks[1..], q).Plus(When(Selected(k, ks[1..], q), d))
    ensures MergedTotal(m[k := Lookup(m, k).Plus(d)], ks, q)
         == MergedTotal(m, ks, q).Plus(When(Selected(k, ks, q), d))
  {
    var m' := m[k := Lookup(m, k).Plus(d)];
    var rest := MergedTotal(m, ks[1..], q);
    var h := When(q(ks[0]), Lookup(m, k));
    assert When(q(ks[0]), Lookup(m', k)) == h.Plus(When(q(ks[0]), d)) by {
      assert Lookup(m', k) == Lookup(m, k).Plus(d);
      WhenPlus(q(ks[0]), Lookup(m, k), d);
    }
    assert MergedTotal(m', ks[1..], q) == rest;
    PlusRearrange(h, When(q(ks[0]), d), rest);
  }

  lemma MergeStepPast(m: map<GroupKey, Tally>, k: GroupKey, d: Tally, ks: seq<Key>, q: Key -> bool)
    requires ks != [] && Lift(ks[0]) != k
    requires Selected(k, ks, q) == Selected(k, ks[1..], q)
    requires MergedTotal(m[k := Lookup(m, k).Plus(d)], ks[1..], q)
          == MergedTotal(m, ks[1..], q).Plus(When(Selected(k, ks[1..], q), d))
    ensures MergedTotal(m[k := Lookup(m, k).Plus(d)], ks, q)
         == MergedTotal(m, ks, q).Plus(When(Selected(k, ks, q), d))
  {
    var m' := m[k := Lookup(m, k).Plus(d)];
    var h := When(q(ks[0]), Lookup(m, Lift(ks[0])));
    assert When(q(ks[0]), Lookup(m', Lift(ks[0]))) == h by {
      LookupUpdateOther(m, k, Lookup(m, k).Plus(d), Lift(ks[0]));
    }
    PlusRearrange(h, MergedTotal(m, ks[1..], q), When(Selected(k, ks, q), d));
  }

  lemma BeforeIsStrict(a: Key, b: Key)
    requires Before(a, b)
    ensures a != b
  {
  }

  lemma GridDistinct()
    ensures Distinct(Grid())
  {
    var g := Grid();
    forall i, j | 0 <= i < j < |g| ensures g[i] != g[j] {
      BeforeIsStrict(g[i], g[j]);
    }
  }

  /**
   * Adding up the output cells selected by `q` gives the same counts as
   * tallying the on-grid records whose cell `q` selects: every on-grid record
   * is counted in exactly one cell.
   */
  lemma {:induction false} TotalIsGridTally(rows: seq<Passenger>, q: Key -> bool)
    ensures Total(SurvivalDemographics(rows), q) == GridTally(rows, q)
  {
    TotalOfMerge(GroupTally(rows), Grid(), q);
    GridDistinct();
    MergedTotalIsGridTally(rows, q);
  }

  lemma {:induction false} MergedTotalIsGridTally(rows: seq<Passenger>, q: Key -> bool)
    requires Distinct(Grid())
    ensures MergedTotal(GroupTally(rows), Grid(), q) == GridTally(rows, q)
  {
    if rows == [] {
      MergedTotalEmpty(Grid(), q);
    } else {
      var p := rows[0];
      var k := KeyOf(p);
      MergedTotalIsGridTally(rows[1..], q);
      var rest := GroupTally(rows[1..]);
      assert GroupTally(rows) == rest[k := Lookup(rest, k).Plus(One(p))];
      MergeStep(rest, k, One(p), Grid(), q);
      SelectedOnGrid(p, q);
      PlusRearrange(Tally(0, 0), GridTally(rows[1..], q), When(InGrid(p) && q(GridKeyOf(p)), One(p)));
    }
  }

  /** A record's group is a selected grid cell exactly when the record is on the grid in a selected cell. */
  lemma SelectedOnGrid(p: Passenger, q: Key -> bool)
    ensures Selected(KeyOf(p), Grid(), q) == (InGrid(p) && q(GridKeyOf(p)))
  {
    var k := KeyOf(p);
    if k.ageGroup.Some? {
      assert Unlift(k) in Grid() <==> OnGrid(Unlift(k));
      if InGrid(p) {
        assert Unlift(k) == GridKeyOf(p);
      }
    }
  }

  function Everywhere(k: Key): bool {
    true
  }

  /** The records of `rows` that land in some grid cell, in table order. */
  function OnGridRows(rows: seq<Passenger>): (rs: seq<Passenger>)
    ensures forall p :: p in rs <==> p in rows && InGrid(p)
  {
    if rows == [] then []
    else (if InGrid(rows[0]) then [rows[0]] else []) + OnGridRows(rows[1..])
  }

  /**
   * Conservation: over all 24 cells, the passenger counts add up to the
   * number of on-grid records and the survivor counts to their survivors.
   */
  lemma {:induction false} CellsCountEveryOnGridRecord(rows: seq<Passenger>)
    ensures Total(SurvivalDemographics(rows), Everywhere)
         == Tally(|OnGridRows(rows)|, SumSurvived(OnGridRows(rows)))
  {
    TotalIsGridTally(rows, Everywhere);
    GridTallyEverywhere(rows);
  }

  lemma {:induction false} GridTallyEverywhere(rows: seq<Passenger>)
    ensures GridTally(rows, Everywhere) == Tally(|OnGridRows(rows)|, SumSurvived(OnGridRows(rows)))
  {
    if rows != [] {
      GridTallyEverywhere(rows[1..]);
      var rs, rest := OnGridRows(rows), OnGridRows(rows[1..]);
      if InGrid(rows[0]) {
        assert rs[1..] == rest;
      } else {
        assert rs == rest;
      }
    }
  }

  /**
   * A record whose age is missing or out of range, or whose class or
   * normalised sex is off the grid, changes no cell.
   */
  lemma OffGridRecordIgnored(p: Passenger, rows: seq<Passenger>)
    requires !InGrid(p)
    ensures SurvivalDemographics([p] + rows) == SurvivalDemographics(rows)
  {
    var m, m' := GroupTally(rows), GroupTally([p] + rows);
    assert ([p] + rows)[1..] == rows;
    var v := Lookup(m, KeyOf(p)).Plus(One(p));
    assert m' == m[KeyOf(p) := v];
    var r, r' := SurvivalDemographics([p] + rows), SurvivalDemographics(rows);
    forall i | 0 <= i < 24 ensures r[i] == r'[i] {
      var g := Grid()[i];
      assert g in Grid();
      assert KeyOf(p) != Lift(g);
      LookupUpdateOther(m, KeyOf(p), v, Lift(g));
    }
  }

  /** A single surviving first-class woman aged 30 fills one cell; the other 23 stay empty. */
  lemma SingleRecordExample()
    ensures var r := SurvivalDemographics([Passenger(1, "female", Some(30.0), 1, 0, 0, 0.0, "")]);
      && r[2] == Cell(1, "female", Adult, 1, 1, 1.0)
      && forall i :: 0 <= i < 24 && i != 2 ==>
           r[i].nPassengers == 0 && r[i].nSurvivors == 0 && r[i].survivalRate == 0.0
  {
    var p := Passenger(1, "female", Some(30.0), 1, 0, 0, 0.0, "");
    var r := SurvivalDemographics([p]);
    forall i | 0 <= i < 24
      ensures r[i].nPassengers == (if i == 2 then 1 else 0)
      ensures r[i].nSurvivors == (if i == 2 then 1 else 0)
    {
      SingleRecordMembers(p, i);
      CellCounts([p], i);
    }
    assert CellKey(r[2]) == Key(1, "female", Adult) by {
      GridAt(2);
    }
  }

  lemma SingleRecordMembers(p: Passenger, i: nat)
    requires p == Passenger(1, "female", Some(30.0), 1, 0, 0, 0.0, "")
    requires i < 24
    ensures Members([p], Grid()[i]) == if i == 2 then [p] else []
  {
    NormalizeSexCanonical();
    assert InCell(p, Key(1, "female", Adult));
    assert GridIndex(Key(1, "female", Adult)) == 2;
    var g := Grid();
    assert ([p])[1..] == [];
    if i == 2 {
      GridAt(2);
    } else {
      IndexOrderIsBefore(g[i], Key(1, "female", Adult));
      assert !InCell(p, g[i]);
    }
  }
}
