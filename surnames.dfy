/**
 * Surname frequencies: the surname of a record is the part of its `Name`
 * before the first comma, with surrounding whitespace removed, and the
 * result counts how many records carry each surname.
 */
module Surnames {
  import Text
  import opened Passengers
  import Counting

  /**
   * The text before the first comma of `name`, with surrounding whitespace
   * removed: it holds no comma and neither starts nor ends with whitespace.
   */
  function Surname(name: string): (s: string)
    ensures ',' !in s
    ensures s == [] || (!Text.IsSpace(s[0]) && !Text.IsSpace(s[|s| - 1]))
  {
    Text.StripChars(Text.BeforeFirstComma(name));
    Text.Strip(Text.BeforeFirstComma(name))
  }

  /** A name without a comma yields the whole name, stripped. */
  lemma SurnameWithoutComma(name: string)
    requires ',' !in name
    ensures Surname(name) == Text.Strip(name)
  {
    Text.BeforeFirstCommaNone(name);
  }

  /** A name whose first comma is at `k` yields the text before `k`, stripped. */
  lemma SurnameBeforeComma(name: string, k: nat)
    requires k < |name| && name[k] == ','
    requires ',' !in name[..k]
    ensures Surname(name) == Text.Strip(name[..k])
  {
    Text.BeforeFirstCommaAt(name, k);
  }

  /** The surname column: one surname per record, in table order. */
  function SurnameColumn(rows: seq<Passenger>): (col: seq<string>)
    ensures |col| == |rows|
    ensures forall i :: 0 <= i < |rows| ==> col[i] == Surname(rows[i].name)
  {
    seq(|rows|, i requires 0 <= i < |rows| => Surname(rows[i].name))
  }

  /**
   * Surname to number of records carrying it: exactly the surnames that
   * occur are keys, and each maps to its number of occurrences, at least 1.
   */
  function LastNames(rows: seq<Passenger>): (m: map<string, nat>)
    ensures forall s :: s in m <==> s in SurnameColumn(rows)
    ensures forall s :: s in m ==> m[s] == Counting.Occurrences(SurnameColumn(rows), s) >= 1
  {
    Counting.Frequencies(SurnameColumn(rows))
  }

  /** Every key is a surname without a comma, the surname of some record. */
  lemma KeysAreSurnames(rows: seq<Passenger>, s: string)
    requires s in LastNames(rows)
    ensures ',' !in s
    ensures exists i :: 0 <= i < |rows| && Surname(rows[i].name) == s
  {
    var col := SurnameColumn(rows);
    var i :| 0 <= i < |col| && col[i] == s;
  }

  /** Every record's surname is a key. */
  lemma EverySurnameCounted(rows: seq<Passenger>, i: nat)
    requires i < |rows|
    ensures Surname(rows[i].name) in LastNames(rows)
  {
    assert SurnameColumn(rows)[i] == Surname(rows[i].name);
  }

  /** The counts, added up over the surnames listed once each, give the number of records. */
  lemma CountsAddUp(rows: seq<Passenger>, ks: seq<string>)
    requires Counting.NoDuplicates(ks)
    requires forall k :: k in ks <==> k in LastNames(rows)
    ensures Counting.SumOver(LastNames(rows), ks) == |rows|
  {
    Counting.FrequenciesAddUp(SurnameColumn(rows), ks);
  }

  /** A name without a comma or surrounding whitespace is its own surname. */
  lemma PlainSurname(name: string)
    requires ',' !in name
    requires name == [] || (!Text.IsSpace(name[0]) && !Text.IsSpace(name[|name| - 1]))
    ensures Surname(name) == name
  {
    SurnameWithoutComma(name);
    Text.StripUnchanged(name);
  }

  /** "Family, rest": the surname is the family field, stripped. */
  lemma SurnameOfFields(family: string, rest: string)
    requires ',' !in family
    ensures Surname(family + [','] + rest) == Text.Strip(family)
  {
    var name := family + [','] + rest;
    assert name[..|family|] == family;
    SurnameBeforeComma(name, |family|);
  }

  /** "Family, rest" with a family field free of surrounding whitespace. */
  lemma FamilyField(family: string, rest: string)
    requires family != [] && !Text.IsSpace(family[0]) && !Text.IsSpace(family[|family| - 1])
    requires ',' !in family
    ensures Surname(family + [','] + rest) == family
  {
    SurnameOfFields(family, rest);
    Text.StripUnchanged(family);
  }

  /**
   * A space before the comma does not change the surname: "Braund, Mr. Owen"
   * and "Braund , Mr. Lewis" are of one family.
   */
  lemma SpaceBeforeComma(family: string, other: string)
    requires family != [] && !Text.IsSpace(family[0]) && !Text.IsSpace(family[|family| - 1])
    requires ',' !in family
    ensures Surname(family + [' ', ','] + other) == family
  {
    var padded := family + [' '];
    assert ',' !in padded;
    assert family + [' ', ','] + other == padded + [','] + other;
    SurnameOfFields(padded, other);
    Text.StripOneTrailing(family, ' ');
  }

  lemma SampleFrequencies(col: seq<string>)
    requires |col| == 3 && col[0] == col[1] != col[2]
    ensures Counting.Frequencies(col) == map[col[0] := 2, col[2] := 1]
  {
    var c2 := col[2..];
    var c1 := col[1..];
    assert c2[1..] == [] && c1[1..] == c2;
    assert Counting.Frequencies(c2) == map[col[2] := 1];
    assert Counting.Frequencies(c1) == map[col[2] := 1, col[0] := 1];
  }

  /**
   * Two records sharing a surname and a third with another one: the first
   * surname counts 2 and the second 1.
   */
  lemma LastNamesExample(rows: seq<Passenger>)
    requires |rows| == 3
    requires Surname(rows[0].name) == Surname(rows[1].name) != Surname(rows[2].name)
    ensures LastNames(rows) == map[Surname(rows[0].name) := 2, Surname(rows[2].name) := 1]
  {
    var col := SurnameColumn(rows);
    SampleFrequencies(col);
  }
}
