/**
 * The passenger table and the per-record attributes the aggregations derive
 * from it: the age group, the normalised sex and the family size.
 */
module Passengers {
  import Text

  datatype Option<+T> = None | Some(value: T)

  /** The 0/1 survival flag of a record. */
  type Flag = x: int | 0 <= x <= 1

  /**
   * One row of the passenger table. `age` is `None` where the table's
   * `Age` is missing.
   */
  datatype Passenger = Passenger(
    pclass: int,
    sex: string,
    age: Option<real>,
    survived: Flag,
    sibsp: nat,
    parch: nat,
    fare: real,
    name: string)

  /** The four age labels, declared in their category order. */
  datatype AgeGroup = Child | Teen | Adult | Senior

  function AgeRank(g: AgeGroup): nat {
    match g
    case Child => 0
    case Teen => 1
    case Adult => 2
    case Senior => 3
  }

  /**
   * Binning with edges -1, 12, 19, 59 and infinity, every interval closed on
   * the right and the lowest one closed on the left too. A missing age, or
   * one below the lowest edge, falls in no bin; the table then carries the
   * label "nan", which is `None` here.
   */
  function AgeBin(age: Option<real>): (g: Option<AgeGroup>)
    ensures g.None? <==> age.None? || age.value < -1.0
    ensures g == Some(Child) <==> age.Some? && -1.0 <= age.value <= 12.0
    ensures g == Some(Teen) <==> age.Some? && 12.0 < age.value <= 19.0
    ensures g == Some(Adult) <==> age.Some? && 19.0 < age.value <= 59.0
    ensures g == Some(Senior) <==> age.Some? && 59.0 < age.value
  {
    match age
    case None => None
    case Some(a) =>
      if a < -1.0 then None
      else if a <= 12.0 then Some(Child)
      else if a <= 19.0 then Some(Teen)
      else if a <= 59.0 then Some(Adult)
      else Some(Senior)
  }

  /** An older passenger never lands in a younger bin. */
  lemma AgeBinMonotone(a: real, b: real)
    requires a <= b
    requires AgeBin(Some(a)).Some?
    ensures AgeBin(Some(b)).Some?
    ensures AgeRank(AgeBin(Some(a)).value) <= AgeRank(AgeBin(Some(b)).value)
  {
  }

  /** `Sex` with surrounding whitespace removed and lower-cased. */
  function NormalizeSex(sex: string): (s: string)
    ensures |s| <= |sex|
    ensures s == [] || (!Text.IsSpace(s[0]) && !Text.IsSpace(s[|s| - 1]))
    ensures forall i :: 0 <= i < |s| ==> !('A' <= s[i] <= 'Z')
  {
    Text.LowerSpec(Text.Strip(sex));
    Text.Lower(Text.Strip(sex))
  }

  /** A sex value that is already canonical is left as it is. */
  lemma NormalizeSexCanonical()
    ensures NormalizeSex("male") == "male" && NormalizeSex("female") == "female"
  {
    CanonicalSex("male");
    CanonicalSex("female");
  }

  /** A lower-case word is left as it is by the normalisation. */
  lemma CanonicalSex(w: string)
    requires forall i :: 0 <= i < |w| ==> 'a' <= w[i] <= 'z'
    ensures NormalizeSex(w) == w
  {
    Text.StripUnchanged(w);
    Text.LowerUnchanged(w);
  }

  /** Siblings/spouses plus parents/children plus the passenger. */
  function FamilySize(p: Passenger): (n: nat)
    ensures n >= 1
    ensures n > p.sibsp && n > p.parch
  {
    p.sibsp + p.parch + 1
  }
}
