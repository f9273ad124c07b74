# Titanic dashboard aggregations — a verified model

The dashboard reads the Titanic passenger table and derives five outputs from it.
This project models those tables as pure functions over a sequence of
passenger records and proves what they promise.

1. **Survival demographics.** Passengers are counted per
   (class, normalised sex, age group) and left-joined onto the fixed
   3 × 2 × 4 grid. Empty cells are zero-filled. Each cell gets a guarded
   survival rate, and the cells come in class, sex, age-group order.
2. **Men versus children.** For each class this table gives:
   - the surviving men and the surviving children, read off the grid;
   - their signed difference;
   - the men and the children of that class, counted again on the raw table.
3. **Family groups.** Records are grouped by (class, family size), where
   family size is `SibSp + Parch + 1`. Each group carries its number of
   records and its mean, lowest and highest fare, and the groups are sorted
   by class and then family size. The table also records the derived
   `family_size` column, which is modelled by the `Families.Frame` class.
4. **Large families.** This view keeps the third-class groups of five or
   more. It flags each one whose highest fare reaches the mean first-class
   fare, and counts the kept groups and the flagged ones.
5. **Last names.** The surname of a record is its name before the first
   comma, stripped. The result maps each surname to its number of records.

The modules are:

| module | file | contents |
|---|---|---|
| `Text` | `text.dfy` | Python's `strip`, `lower` and the first field of `split(",", 1)`, on ASCII |
| `Passengers` | `passengers.dfy` | the passenger record, age binning, sex normalisation, family size |
| `Counting` | `counting.dfy` | counting by key, frequency tables, and the fact that counts add up |
| `Survival` | `survival.dfy` | the survival aggregator |
| `Comparison` | `comparison.dfy` | the men-versus-children table |
| `Families` | `families.dfy` | the family fare table, the `family_size` write and the large-family view |
| `Surnames` | `surnames.dfy` | the surname frequencies |

Fares and rates are exact `real` numbers. A missing age is `None`.

## Model

| member | source | states |
|---|---|---|
| Passengers.AgeBin | apputil.py:80-94 | An age in [-1, 12] is a child, in (12, 19] a teen, in (19, 59] an adult, and above 59 a senior. A missing age or one below -1 falls in no bin. Each direction of every case is stated. |
| Passengers.AgeBinMonotone | apputil.py:80-94 | An older passenger never lands in a younger bin. |
| Passengers.NormalizeSex | apputil.py:97 | The normalised sex is no longer than the raw value, has no whitespace at either end and has no upper-case letter. |
| Passengers.CanonicalSex | apputil.py:97 | A lower-case word is left unchanged by the normalisation. |
| Passengers.NormalizeSexCanonical | apputil.py:97 | "male" and "female" are fixed points of the normalisation, so they meet the grid's sexes. |
| Passengers.FamilySize | apputil.py:270 | The family size is at least 1 and exceeds both SibSp and Parch. |
| Text.IsSpaceCodes | apputil.py:97 | The whitespace test holds on exactly the character codes 9 to 13 and 28 to 32. |
| Text.TrimStart | apputil.py:97 | Only leading whitespace is removed, and the result does not start with whitespace. |
| Text.TrimEnd | apputil.py:97 | Only trailing whitespace is removed, and the result does not end with whitespace. |
| Text.Strip | apputil.py:97 | The stripped text neither starts nor ends with whitespace. |
| Text.StripCutsSpace | apputil.py:97 | The stripped text is an infix of the input, and what is cut at either end is all whitespace. |
| Text.StripChars | apputil.py:295 | Every character of the stripped text occurs in the input. |
| Text.StripUnchanged | apputil.py:97 | A string without surrounding whitespace is its own strip. |
| Text.StripOneTrailing | apputil.py:295 | A whitespace character after such a string is stripped away. |
| Text.StripIdempotent | apputil.py:97 | Stripping twice is stripping once. |
| Text.LowerChar | apputil.py:97 | An upper-case ASCII letter moves 32 codes up to its lower-case letter, any other character is kept, and the result is never an upper-case letter. |
| Text.Lower | apputil.py:97 | Lower-casing keeps the length. |
| Text.LowerSpec | apputil.py:97 | Lower-casing leaves no upper-case letter. Each character is either unchanged or is an upper-case letter moved to its lower-case partner. |
| Text.LowerUnchanged | apputil.py:97 | A string without upper-case letters is its own lower-case form. |
| Text.LowerIdempotent | apputil.py:97 | Lower-casing twice is lower-casing once. |
| Text.BeforeFirstComma | apputil.py:295 | The first field is a prefix of the input and holds no comma. When it is shorter than the input, a comma follows it. |
| Text.BeforeFirstCommaNone | apputil.py:295 | Without a comma, the first field is the whole string. |
| Text.BeforeFirstCommaAt | apputil.py:295 | With the first comma at position k, the first field is the text before k. |
| Counting.Count | apputil.py:275 | A group count never exceeds the number of records. It is positive exactly when some record has the key. |
| Counting.CountsPartition | apputil.py:272-284 | The counts over distinct keys that cover every record add up to the number of records. |
| Counting.SumCountsIsCountIn | apputil.py:272-284 | Over distinct keys, adding up the per-key counts counts each record once. |
| Counting.CountInAll | apputil.py:272-284 | When every record's key is listed, every record is counted. |
| Counting.Occurrences | apputil.py:296 | The number of occurrences never exceeds the length of the column. |
| Counting.OccurrencesPositive | apputil.py:296 | A value occurs a positive number of times exactly when it is in the column. |
| Counting.Frequencies | apputil.py:296 | The value counts: the keys are exactly the values that occur, and each maps to its number of occurrences, which is at least 1. |
| Counting.OccurrencesIsCount | apputil.py:296 | Occurrences are the count of records keyed by the value itself. |
| Counting.SumOverIsSumCounts | apputil.py:296 | The frequencies, added up over some keys, equal the counts of those keys. |
| Counting.FrequenciesAddUp | apputil.py:296 | The frequencies, added up over the keys listed once each, give the length of the column. |
| Survival.Members | apputil.py:100-108 | A cell's members are exactly the records of that class, normalised sex and age bin. |
| Survival.SumSurvived | apputil.py:104 | The survivor sum of a group never exceeds its size. |
| Survival.GroupTally | apputil.py:100-108 | Every observed group has at least one record, and its survivors never exceed its records. |
| Survival.KeyOf | apputil.py:97-101 | The group-by key of a record carries its class and its normalised sex. Its age label is missing exactly when the age is missing or below -1. |
| Survival.KeyOfNamesCell | apputil.py:97-101 | A record belongs to a grid cell exactly when its group-by key is that cell's key. |
| Survival.Lookup | apputil.py:117-121 | A key present in the group-by reads its group's counts. An absent key reads as zero passengers and zero survivors. |
| Survival.GroupTallyKeys | apputil.py:100-108 | The group-by has a group for a key exactly when some record has that key, including the "nan" age label. |
| Survival.GroupTallyIsMembers | apputil.py:100-108 | The group of a grid key counts exactly that cell's members and their survivors. An absent group reads as zero. |
| Survival.Grid | apputil.py:110-114 | The grid has 24 keys in strictly ascending sort order. A key is on it exactly when its class is 1 to 3 and its sex is female or male. |
| Survival.GridIndex | apputil.py:112 | An on-grid key's nested-loop position is below 24. |
| Survival.IndexOrderIsBefore | apputil.py:112 | On the grid, the nested-loop position agrees with the class, sex, age-group sort order. |
| Survival.MakeCell | apputil.py:117-128 | A merged row keeps its key and its two counts. Its rate is 0.0 when the row is empty and survivors over passengers otherwise, and it lies in [0, 1] when survivors do not exceed passengers. |
| Survival.Merge | apputil.py:117-121 | The left merge has one row per key, in the keys' order, and each row's counts are those its key reads from the group-by. |
| Survival.MergedCells | apputil.py:117-128 | The merged rows follow the grid keys. Survivors never exceed passengers. The rate is the survivors' share for a non-empty cell and 0.0 for an empty one, and it lies in [0, 1]. |
| Survival.SurvivalDemographics | apputil.py:79-136 | Exactly 24 rows, the grid keys in class, sex, age-group order. Survivors never exceed passengers. The rate is guarded against empty cells and lies in [0, 1]. |
| Survival.CellsCoverGrid | apputil.py:110-117 | Every grid combination has a row and no other combination does. |
| Survival.CellCounts | apputil.py:100-121 | Each row's counts are exactly its records and their survivors, zero when there are none. |
| Survival.GridKeyOf | apputil.py:117 | A record on the grid belongs to the cell of its own key. |
| Survival.TotalIsGridTally | apputil.py:117-121 | Adding up any selection of output cells gives the tally of the on-grid records in those cells. Each on-grid record is counted in exactly one cell. |
| Survival.MergedTotalIsGridTally | apputil.py:117 | The left merge, read through any cell selection, equals the tally of the records that land in the selected cells. |
| Survival.MergeStep | apputil.py:117 | Adding a record to one group changes a merged selection by that record exactly when its group is a selected grid cell. |
| Survival.TotalOfMerge | apputil.py:117-121 | The total of the merged rows equals the total read straight from the group-by, with absent groups as zero. |
| Survival.SelectedOnGrid | apputil.py:117 | A record's group is a selected grid cell exactly when the record is on the grid in a selected cell. |
| Survival.GridDistinct | apputil.py:112 | The grid has no duplicate keys. |
| Survival.OnGridRows | apputil.py:117 | The on-grid records are exactly those whose class, sex and age bin fall on the grid. |
| Survival.CellsCountEveryOnGridRecord | apputil.py:100-121 | Over all 24 cells, passengers add up to the number of on-grid records and survivors to their survivors. |
| Survival.GridTallyEverywhere | apputil.py:100-121 | Tallying every cell counts each on-grid record once. |
| Survival.OffGridRecordIgnored | apputil.py:94 | Adding a record that lands on no grid cell changes no row. Such a record has a missing or out-of-range age, a class outside 1 to 3, or a normalised sex other than female or male. |
| Survival.SingleRecordExample | apputil.py:79-136 | One surviving first-class woman aged 30 gives 1 of 1 and rate 1.0 in row 3. The other 23 rows are 0, 0, 0.0. |
| Comparison.MenVersusChildren | apputil.py:150-193 | Exactly one row per class, for classes 1, 2 and 3 in order. Each difference is men's survivors minus children's survivors. |
| Comparison.MenTotal | apputil.py:167-172 | The raw count of records of the class with Sex exactly "male" never exceeds the number of records, and it is 0 exactly when the class has no such record. |
| Comparison.ChildTotal | apputil.py:174-187 | The raw count of records of the class in the child bin never exceeds the number of records, and it is 0 exactly when the class has no such record. |
| Comparison.CompareClass | apputil.py:153-193 | A class's row carries the class, the survivors of its male cells and of its child cells, their signed difference, and the two raw totals. |
| Comparison.GridTallyMale | apputil.py:153 | The male cells of a class tally its surviving records whose normalised sex is "male" and whose age is binned. |
| Comparison.GridTallyChild | apputil.py:156 | The child cells of a class tally its surviving child-bin records of either grid sex. |
| Comparison.MenSurvivorsFromRecords | apputil.py:153 | The men's figure of each class is the number of its surviving records with normalised sex "male" and a binned age. |
| Comparison.ChildSurvivorsFromRecords | apputil.py:156 | The children's figure of each class is the number of its surviving child-bin records whose normalised sex is on the grid. |
| Comparison.RawTotals | apputil.py:167-193 | The two totals of each class are counted on the raw records. Each is 0 exactly when the class has no record of that kind, which is the zero-fill of the left merge. |
| Comparison.ChildrenSurvivedAtMostTotal | apputil.py:156 | Surviving grid children of a class never outnumber that class's child-bin records. |
| Comparison.ChildSurvivorsAtMostTotal | apputil.py:156-193 | In each row, child survivors never exceed the child total. |
| Comparison.MenSurvivedAtMostTotal | apputil.py:153-172 | When every sex that normalises to "male" is spelled "male", surviving men never outnumber the raw male records. |
| Comparison.MenSurvivorsAtMostTotal | apputil.py:153-193 | In each row, men survivors never exceed the men total, provided sex values are already canonical. |
| Comparison.MenTotalMissesUnnormalisedSex | apputil.py:168 | The men total tests the raw sex. A single surviving first-class man recorded as "Male" gives 1 surviving man out of 0 men. |
| Comparison.CapitalMaleNormalises | apputil.py:97 | "Male" normalises to "male". |
| Families.FamilyKeyOf | apputil.py:270 | A record's family size is at least 1. |
| Families.Insert | apputil.py:282 | Inserting a key keeps the key list strictly sorted and adds exactly that key. |
| Families.ObservedKeys | apputil.py:273 | The observed (class, family size) pairs, strictly ascending. A pair is listed exactly when some record has it. |
| Families.Members | apputil.py:273 | A group's members are exactly the records of its pair, and there are as many as its count. |
| Families.Size | apputil.py:275 | The size of a pair's group never exceeds the number of records, and it is positive exactly when some record has that pair. |
| Families.MinFare | apputil.py:277 | The lowest fare is at most every fare of the group and is one of them. |
| Families.MaxFare | apputil.py:278 | The highest fare is at least every fare of the group and is one of them. |
| Families.FareSumAtLeast | apputil.py:276 | Fares each at least b add up to at least b times their number. |
| Families.FareSumAtMost | apputil.py:276 | Fares each at most b add up to at most b times their number. |
| Families.MeanFare | apputil.py:276 | The mean fare lies between the lowest and the highest fare. |
| Families.MeanWithin | apputil.py:276 | The mean of fares that all lie in [lo, hi] also lies in [lo, hi]. |
| Families.MeanAtLeast | apputil.py:276 | The mean of fares each at least lo is at least lo. |
| Families.MeanAtMost | apputil.py:276 | The mean of fares each at most hi is at most hi. |
| Families.Summarise | apputil.py:274-279 | A group's row carries its pair and its number of records. Its mean lies between its lowest and highest fare, which bound every fare of the group. |
| Families.Rows | apputil.py:272-284 | One row per requested pair, in the order of the pairs. |
| Families.FamilyGroups | apputil.py:258-286 | The rows are strictly ascending by class, then family size. Each row's count is the number of records of its pair, at least 1. |
| Families.RowCounts | apputil.py:275 | Each row counts the records of its pair, at least 1. |
| Families.RowFareBounds | apputil.py:270-279 | Every row has family size at least 1, and its mean fare lies between its lowest and highest fare. |
| Families.RowAt | apputil.py:272-279 | Row i summarises the records of the i-th pair. |
| Families.RowsSummarise | apputil.py:272-279 | Every row summarises the records of its pair. |
| Families.EveryRecordHasItsRow | apputil.py:273 | Every record's pair has a row, so every observed pair is present. |
| Families.RowDescribesItsRecords | apputil.py:274-279 | A row's count, mean, lowest and highest fare are those of the records of its pair. |
| Families.TotalOfRows | apputil.py:275 | The rows' counts add up to the per-pair counts. |
| Families.GroupSizesAddUp | apputil.py:272-284 | The counts of all rows add up to the number of records. |
| Families.TwoFareExample | apputil.py:270-284 | Two third-class records of a six-person family with fares 50 and 80 give the single row (3, 6, 2, 65, 50, 80). |
| Families.Frame.constructor | apputil.py:270 | A fresh table holds the records and no family_size column yet. |
| Families.Frame.GroupFamilies | apputil.py:258-286 | Writes family_size = SibSp + Parch + 1 for every record and leaves the records unchanged. Returns the family fare table of those records. |
| Families.LargeThird | apputil.py:318 | Exactly the groups of class 3 with family size of at least 5 are kept. |
| Families.LargeThirdKeepsOrder | apputil.py:318 | Filtering keeps the table's sort order. |
| Families.ClassRecords | apputil.py:315 | Exactly the records of the given class are selected. |
| Families.FirstClassMeanFare | apputil.py:315 | There is no baseline exactly when there are no first-class records. Otherwise the baseline is the sum of their fares divided by their number, and it lies between their lowest and highest fare. |
| Families.FlagLargeFamilies | apputil.py:318-319 | One entry per kept group, in order. An entry is flagged exactly when a baseline exists and the group's highest fare is at least the baseline. |
| Families.CountFlagged | apputil.py:322 | The flagged count never exceeds the number of groups. |
| Families.LargeFamilies | apputil.py:312-322 | The total is the number of kept groups. The meeting count is the number of flagged ones, and it never exceeds the total. |
| Families.LargeFamilyFlagged | apputil.py:315-319 | A kept group is flagged exactly when first-class records exist and its highest fare reaches their mean fare. |
| Families.NoneFlagged | apputil.py:322 | With no entry flagged, the meeting count is 0. |
| Families.NoFirstClassNoneMeet | apputil.py:315-322 | Without first-class records no group meets the baseline. |
| Families.FlaggedExactly | apputil.py:318-319 | A group is among the flagged entries exactly when it is third class with family size of at least 5. |
| Families.LargeThirdExactly | apputil.py:312-322 | The large-family view holds exactly the family rows of class 3 with family size of at least 5. |
| Families.LargeFamiliesInOrder | apputil.py:312-318 | The large-family view keeps class, then family-size order. |
| Surnames.Surname | apputil.py:295 | A surname holds no comma and has no whitespace at either end. |
| Surnames.SurnameWithoutComma | apputil.py:295 | A name without a comma gives the whole name, stripped. |
| Surnames.SurnameBeforeComma | apputil.py:295 | A name whose first comma is at k gives the text before k, stripped. |
| Surnames.PlainSurname | apputil.py:295 | A name without a comma or surrounding whitespace is its own surname. |
| Surnames.SurnameOfFields | apputil.py:295 | For "family,rest" with no comma in family, the surname is family, stripped, whatever the rest holds. |
| Surnames.FamilyField | apputil.py:295 | A clean family field followed by a comma is the surname. |
| Surnames.SpaceBeforeComma | apputil.py:295 | A space before the comma does not change the surname. |
| Surnames.SurnameColumn | apputil.py:295 | One surname per record, in table order. |
| Surnames.LastNames | apputil.py:288-296 | The keys are exactly the surnames that occur. Each maps to its number of records, at least 1. |
| Surnames.KeysAreSurnames | apputil.py:295-296 | Every key is comma-free and is the surname of some record. |
| Surnames.EverySurnameCounted | apputil.py:296 | Every record's surname is a key. |
| Surnames.CountsAddUp | apputil.py:296 | The counts, added up over the surnames listed once each, give the number of records. |
| Surnames.SampleFrequencies | apputil.py:296 | A column [a, a, b] with a ≠ b counts a twice and b once. |
| Surnames.LastNamesExample | apputil.py:288-296 | Two records sharing a surname and a third with another give counts 2 and 1. |

## Left out

- The remote CSV load and the module-level table are not modelled. The table is an explicit parameter.
- `PassengerId` is not modelled. Group sizes count records directly.
- Plotly figure building, the melt for bar charts, labels, colours and Streamlit display are not modelled. They are presentation only.
- The commented-out earlier revision of `survival_demographics` is not modelled; it is dead code.
- Floating point is not modelled. Fares, means and survival rates are exact reals, so IEEE rounding of the mean and of the rate division is not captured.
- Whitespace and case are ASCII only. `str.strip` and `str.lower` on non-ASCII characters are not modelled; the character set is that of Python's `str.isspace` restricted to ASCII.
- The output ordering uses ordered categoricals. The model states the order as explicit ranks (female < male; child < teen < adult < senior). The `Categorical` dtype itself is not modelled.
- `last_names` returns a `value_counts` series ordered by descending count. The model returns a map, so that order is not captured.
- NaN fares, and NaN class, sex or name values, are not modelled. Fares are always defined, so pandas' difference between `size` and the NaN-skipping `mean`/`min`/`max` does not arise.
- A NaN first-class mean is modelled as an absent baseline (`None`). It then flags no group, just as pandas' `max_fare >= NaN` is false.
- Survived is a 0/1 flag. Other values in the column are not modelled.
- The survival aggregator works on a copy. `family_groups` adds the `family_size` column, which `Families.Frame` models. The other views only read the table, and the pure functions cannot change their input.
- MenSurvivorsAtMostTotal: the bound is proved only for canonical sex values. `men_total` tests the raw `Sex == "male"`, while the men's survivors use the normalised sex. Comparison.MenTotalMissesUnnormalisedSex shows the bound failing for a record spelled "Male".
- Concrete string examples are not modelled: a name such as "Braund, Mr. Owen Harris" is not evaluated end to end. Surname behaviour is proved for arbitrary family fields, and the surname examples use variables.
