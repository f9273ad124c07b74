/**
 * The data behind the men-versus-children chart: per class, the survivors
 * among the male cells and among the child cells of the aggregated table,
 * their signed difference, and two totals counted again on the raw table.
 */
module Comparison {
  import opened Passengers
  import opened Survival
  import Text

  /** One row of the comparison table. */
  datatype ClassComparison = ClassComparison(
    pclass: int,
    menSurvivors: nat,
    childSurvivors: nat,
    differenceMenMinusChildren: int,
    menTotal: nat,
    childTotal: nat)

  /** Selects the male cells of class `c`, every age group included. */
  function MaleIn(c: int): Key -> bool {
    (k: Key) => k.pclass == c && k.sex == "male"
  }

  /** Selects the child cells of class `c`, both sexes included. */
  function ChildIn(c: int): Key -> bool {
    (k: Key) => k.pclass == c && k.ageGroup == Child
  }

  /**
   * Raw records of class `c` whose `Sex` is literally "male", without
   * normalisation; 0 exactly when the class has no such record.
   */
  function MenTotal(rows: seq<Passenger>, c: int): (n: nat)
    ensures n <= |rows|
    ensures n == 0 <==> forall p :: p in rows ==> !(p.pclass == c && p.sex == "male")
  {
    if rows == [] then 0
    else
      var rest := MenTotal(rows[1..], c);
      assert forall p :: p in rows <==> p == rows[0] || p in rows[1..];
      (if rows[0].pclass == c && rows[0].sex == "male" then 1 else 0) + rest
  }

  /**
   * Raw records of class `c` whose age falls in the child bin, whatever
   * their sex; 0 exactly when the class has no such record.
   */
  function ChildTotal(rows: seq<Passenger>, c: int): (n: nat)
    ensures n <= |rows|
    ensures n == 0 <==> forall p :: p in rows ==> !(p.pclass == c && AgeBin(p.age) == Some(Child))
  {
    if rows == [] then 0
    else
      var rest := ChildTotal(rows[1..], c);
      assert forall p :: p in rows <==> p == rows[0] || p in rows[1..];
      (if rows[0].pclass == c && AgeBin(rows[0].age) == Some(Child) then 1 else 0) + rest
  }

  /**
   * The comparison row of class `c`: the survivors of its male cells and of
   * its child cells, their signed difference, and the two raw totals.
   */
  function CompareClass(rows: seq<Passenger>, cells: seq<Cell>, c: int): (r: ClassComparison)
    ensures r.pclass == c
    ensures r.menSurvivors == Total(cells, MaleIn(c)).survivors
    ensures r.childSurvivors == Total(cells, ChildIn(c)).survivors
    ensures r.differenceMenMinusChildren == r.menSurvivors as int - r.childSurvivors as int
    ensures r.menTotal == MenTotal(rows, c) && r.childTotal == ChildTotal(rows, c)
  {
    var men := Total(cells, MaleIn(c)).survivors;
    var children := Total(cells, ChildIn(c)).survivors;
    ClassComparison(c, men, children, men - children, MenTotal(rows, c), ChildTotal(rows, c))
  }

  /**
   * One row per class 1, 2, 3 in that order (the classes of the aggregated
   * table), each with its signed difference of survivors.
   */
  function MenVersusChildren(rows: seq<Passenger>): (r: seq<ClassComparison>)
    ensures |r| == 3
    ensures forall i :: 0 <= i < 3 ==> r[i].pclass == i + 1
    ensures forall i :: 0 <= i < 3 ==>
      r[i].differenceMenMinusChildren == r[i].menSurvivors as int - r[i].childSurvivors as int
  {
    var cells := SurvivalDemographics(rows);
    seq(3, i requires 0 <= i < 3 => CompareClass(rows, cells, i + 1))
  }

  /** Reference: survivors of class `c` whose normalised sex is "male" and whose age is binned. */
  function MenSurvived(rows: seq<Passenger>, c: int): nat {
    if rows == [] then 0
    else
      var p := rows[0];
      (if p.pclass == c && NormalizeSex(p.sex) == "male" && AgeBin(p.age).Some? then p.survived else 0)
      + MenSurvived(rows[1..], c)
  }

  /** A record of class `c` in the child bin whose normalised sex is on the grid. */
  predicate GridChild(p: Passenger, c: int) {
    p.pclass == c && AgeBin(p.age) == Some(Child)
    && (NormalizeSex(p.sex) == "female" || NormalizeSex(p.sex) == "male")
  }

  /** Reference: survivors among the records of class `c` satisfying `GridChild`. */
  function ChildrenSurvived(rows: seq<Passenger>, c: int): nat {
    if rows == [] then 0
    else (if GridChild(rows[0], c) then rows[0].survived else 0) + ChildrenSurvived(rows[1..], c)
  }

  lemma {:induction false} GridTallyMale(rows: seq<Passenger>, c: int)
    requires 1 <= c <= 3
    ensures GridTally(rows, MaleIn(c)).survivors == MenSurvived(rows, c)
  {
    if rows != [] {
      GridTallyMale(rows[1..], c);
    }
  }

  /** One record's share of the child tally of class `c`. */
  lemma ChildShare(p: Passenger, c: int)
    requires 1 <= c <= 3
    ensures When(InGrid(p) && ChildIn(c)(GridKeyOf(p)), One(p)).survivors
      == (if GridChild(p, c) then p.survived else 0)
  {
  }

  lemma {:induction false} GridTallyChild(rows: seq<Passenger>, c: int)
    requires 1 <= c <= 3
    ensures GridTally(rows, ChildIn(c)).survivors == ChildrenSurvived(rows, c)
  {
    if rows != [] {
      var p := rows[0];
      GridTallyChild(rows[1..], c);
      ChildShare(p, c);
      assert GridTally(rows, ChildIn(c)).survivors
        == When(InGrid(p) && ChildIn(c)(GridKeyOf(p)), One(p)).survivors + GridTally(rows[1..], ChildIn(c)).survivors;
    }
  }

  /**
   * The men's figure of each class is the number of surviving records of
   * that class whose normalised sex is "male" and whose age is binned.
   */
  lemma MenSurvivorsFromRecords(rows: seq<Passenger>, i: nat)
    requires i < 3
    ensures MenVersusChildren(rows)[i].menSurvivors == MenSurvived(rows, i + 1)
  {
    var cells := SurvivalDemographics(rows);
    ClassRow(rows, i);
    assert Total(cells, MaleIn(i + 1)) == GridTally(rows, MaleIn(i + 1)) by {
      TotalIsGridTally(rows, MaleIn(i + 1));
    }
    GridTallyMale(rows, i + 1);
  }

  /** Row `i` compares class `i + 1` on the aggregated table. */
  lemma ClassRow(rows: seq<Passenger>, i: nat)
    requires i < 3
    ensures MenVersusChildren(rows)[i] == CompareClass(rows, SurvivalDemographics(rows), i + 1)
  {
  }

  /**
   * The children's figure of each class is the number of surviving records
   * of that class in the child bin whose normalised sex is on the grid.
   */
  lemma ChildSurvivorsFromRecords(rows: seq<Passenger>, i: nat)
    requires i < 3
    ensures MenVersusChildren(rows)[i].childSurvivors == ChildrenSurvived(rows, i + 1)
  {
    var cells := SurvivalDemographics(rows);
    ClassRow(rows, i);
    assert Total(cells, ChildIn(i + 1)) == GridTally(rows, ChildIn(i + 1)) by {
      TotalIsGridTally(rows, ChildIn(i + 1));
    }
    GridTallyChild(rows, i + 1);
  }

  /** The two totals of each class are counted on the raw records. */
  lemma RawTotals(rows: seq<Passenger>, i: nat)
    requires i < 3
    ensures MenVersusChildren(rows)[i].menTotal == MenTotal(rows, i + 1)
    ensures MenVersusChildren(rows)[i].childTotal == ChildTotal(rows, i + 1)
    ensures MenVersusChildren(rows)[i].menTotal == 0
      <==> forall p :: p in rows ==> !(p.pclass == i + 1 && p.sex == "male")
    ensures MenVersusChildren(rows)[i].childTotal == 0
      <==> forall p :: p in rows ==> !(p.pclass == i + 1 && AgeBin(p.age) == Some(Child))
  {
    ClassRow(rows, i);
  }

  lemma {:induction false} ChildrenSurvivedAtMostTotal(rows: seq<Passenger>, c: int)
    ensures ChildrenSurvived(rows, c) <= ChildTotal(rows, c)
  {
    if rows != [] {
      ChildrenSurvivedAtMostTotal(rows[1..], c);
    }
  }

  /** Surviving children never outnumber the children of the class. */
  lemma ChildSurvivorsAtMostTotal(rows: seq<Passenger>, i: nat)
    requires i < 3
    ensures MenVersusChildren(rows)[i].childSurvivors <= MenVersusChildren(rows)[i].childTotal
  {
    ChildSurvivorsFromRecords(rows, i);
    RawTotals(rows, i);
    ChildrenSurvivedAtMostTotal(rows, i + 1);
  }

  /** Every record that normalises to "male" is spelled exactly "male". */
  predicate CanonicalMaleSex(rows: seq<Passenger>) {
    forall p :: p in rows && NormalizeSex(p.sex) == "male" ==> p.sex == "male"
  }

  lemma {:induction false} MenSurvivedAtMostTotal(rows: seq<Passenger>, c: int)
    requires CanonicalMaleSex(rows)
    ensures MenSurvived(rows, c) <= MenTotal(rows, c)
  {
    if rows != [] {
      assert rows[0] in rows;
      assert CanonicalMaleSex(rows[1..]) by {
        forall p | p in rows[1..] ensures p in rows { }
      }
      MenSurvivedAtMostTotal(rows[1..], c);
    }
  }

  /**
   * Surviving men never outnumber the men of the class, provided the sex
   * values are already canonical: the total tests the raw `Sex` column.
   */
  lemma MenSurvivorsAtMostTotal(rows: seq<Passenger>, i: nat)
    requires i < 3
    requires CanonicalMaleSex(rows)
    ensures MenVersusChildren(rows)[i].menSurvivors <= MenVersusChildren(rows)[i].menTotal
  {
    MenSurvivorsFromRecords(rows, i);
    RawTotals(rows, i);
    MenSurvivedAtMostTotal(rows, i + 1);
  }

  /**
   * Without canonical sex values the bound fails: a surviving first-class
   * adult recorded as "Male" is one surviving man out of zero men.
   */
  lemma MenTotalMissesUnnormalisedSex(rows: seq<Passenger>)
    requires rows == [Passenger(1, "Male", Some(30.0), 1, 0, 0, 0.0, "")]
    ensures MenVersusChildren(rows)[0].menSurvivors == 1
    ensures MenVersusChildren(rows)[0].menTotal == 0
  {
    assert MenSurvived(rows, 1) == 1 by {
      CapitalMaleNormalises();
      assert rows[1..] == [];
    }
    MenSurvivorsFromRecords(rows, 0);
    RawTotals(rows, 0);
  }

  lemma CapitalMaleNormalises()
    ensures NormalizeSex("Male") == "male"
  {
    MaleSpelling("Male");
  }

  lemma MaleSpelling(w: string)
    requires |w| == 4 && w[0] == 'M' && w[1] == 'a' && w[2] == 'l' && w[3] == 'e'
    ensures NormalizeSex(w) == "male"
  {
    Text.StripUnchanged(w);
    LowerMale(w);
  }

  lemma LowerMale(w: string)
    requires |w| == 4 && w[0] == 'M' && w[1] == 'a' && w[2] == 'l' && w[3] == 'e'
    ensures Text.Lower(w) == "male"
  {
  }
}
