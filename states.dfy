/**
 * The fixed state reference table `stateCodes` (map-info/states.ts): one row
 * per state, district or territory, with its FIPS id written as a decimal
 * string, its two-letter postal code and its full name. The colour map reads
 * it to turn a map feature's numeric id into the key the caller's data uses.
 */
module States {

  datatype StateRow = StateRow(id: string, code: string, name: string)

  /** The row field used as a key: the component's `stateSelectorType`. */
  datatype Selector = Code | Name

  /** `d[stateSelectorType]` for a table row. */
  function Field(row: StateRow, sel: Selector): string {
    match sel
    case Code => row.code
    case Name => row.name
  }

  // The table is written as three consecutive blocks of twenty rows, so that
  // the verifier can index into each block; StateCodes is their concatenation,
  // row for row in the order of the source.

  const Block0: seq<StateRow> := [
    StateRow("1", "AL", "Alabama"),
    StateRow("2", "AK", "Alaska"),
    StateRow("4", "AZ", "Arizona"),
    StateRow("5", "AR", "Arkansas"),
    StateRow("6", "CA", "California"),
    StateRow("8", "CO", "Colorado"),
    StateRow("9", "CT", "Connecticut"),
    StateRow("10", "DE", "Delaware"),
    StateRow("11", "DC", "District of Columbia"),
    StateRow("12", "FL", "Florida"),
    StateRow("13", "GA", "Georgia"),
    StateRow("15", "HI", "Hawaii"),
    StateRow("16", "ID", "Idaho"),
    StateRow("17", "IL", "Illinois"),
    StateRow("18", "IN", "Indiana"),
    StateRow("19", "IA", "Iowa"),
    StateRow("20", "KS", "Kansas"),
    StateRow("21", "KY", "Kentucky"),
    StateRow("22", "LA", "Louisiana"),
    StateRow("23", "ME", "Maine")
  ]

  const Block1: seq<StateRow> := [
    StateRow("24", "MD", "Maryland"),
    StateRow("25", "MA", "Massachusetts"),
    StateRow("26", "MI", "Michigan"),
    StateRow("27", "MN", "Minnesota"),
    StateRow("28", "MS", "Mississippi"),
    StateRow("29", "MO", "Missouri"),
    StateRow("30", "MT", "Montana"),
    StateRow("31", "NE", "Nebraska"),
    StateRow("32", "NV", "Nevada"),
    StateRow("33", "NH", "New Hampshire"),
    StateRow("34", "NJ", "New Jersey"),
    StateRow("35", "NM", "New Mexico"),
    StateRow("36", "NY", "New York"),
    StateRow("37", "NC", "North Carolina"),
    StateRow("38", "ND", "North Dakota"),
    StateRow("39", "OH", "Ohio"),
    StateRow("40", "OK", "Oklahoma"),
    StateRow("41", "OR", "Oregon"),
    StateRow("42", "PA", "Pennsylvania"),
    StateRow("44", "RI", "Rhode Island")
  ]

  const Block2: seq<StateRow> := [
    StateRow("45", "SC", "South Carolina"),
    StateRow("46", "SD", "South Dakota"),
    StateRow("47", "TN", "Tennessee"),
    StateRow("48", "TX", "Texas"),
    StateRow("49", "UT", "Utah"),
    StateRow("50", "VT", "Vermont"),
    StateRow("51", "VA", "Virginia"),
    StateRow("53", "WA", "Washington"),
    StateRow("54", "WV", "West Virginia"),
    StateRow("55", "WI", "Wisconsin"),
    StateRow("56", "WY", "Wyoming"),
    StateRow("60", "AS", "America Samoa"),
    StateRow("64", "FM", "Federated States of Micronesia"),
    StateRow("66", "GU", "Guam"),
    StateRow("68", "MH", "Marshall Islands"),
    StateRow("69", "MP", "Northern Mariana Islands"),
    StateRow("70", "PW", "Palau"),
    StateRow("72", "PR", "Puerto Rico"),
    StateRow("74", "UM", "U.S. Minor Outlying Islands"),
    StateRow("78", "VI", "Virgin Islands of the United States")
  ]

  /** `stateCodes`. */
  const StateCodes: seq<StateRow> := Block0 + Block1 + Block2

  // ---------------------------------------------------------------------------
  // Numeric ids: what `+d.id` reads from the id strings.

  predicate IsDigit(c: char) {
    '0' <= c <= '9'
  }

  /** A decimal numeral without sign, fraction or leading zero. */
  predicate IsCanonicalDecimal(s: string) {
    && |s| >= 1
    && (forall i :: 0 <= i < |s| ==> IsDigit(s[i]))
    && (s[0] == '0' ==> |s| == 1)
  }

  function DigitValue(c: char): (d: nat)
    requires IsDigit(c)
    ensures d <= 9
  {
    (c as int) - ('0' as int)
  }

  /** The value of a string of decimal digits. */
  function DecimalValue(s: string): (n: nat)
    requires forall i :: 0 <= i < |s| ==> IsDigit(s[i])
    decreases |s|
  {
    if s == [] then 0
    else 10 * DecimalValue(s[..|s| - 1]) + DigitValue(s[|s| - 1])
  }

  /** `+d.id` for a row whose id is a decimal numeral. */
  function NumericId(row: StateRow): nat
    requires IsCanonicalDecimal(row.id)
  {
    DecimalValue(row.id)
  }

  /** Every id is a decimal numeral, and ids strictly increase from row to row. */
  predicate IdsAscending(rows: seq<StateRow>) {
    && IdsWellFormed(rows)
    && (forall i :: 0 <= i < |rows| - 1 ==> NumericId(rows[i]) < NumericId(rows[i + 1]))
  }

  predicate IdsWellFormed(rows: seq<StateRow>) {
    forall i :: 0 <= i < |rows| ==> IsCanonicalDecimal(rows[i].id)
  }

  /** No two rows share a numeric id. */
  predicate IdsDistinct(rows: seq<StateRow>)
    requires IdsWellFormed(rows)
  {
    forall i, j :: 0 <= i < j < |rows| ==> NumericId(rows[i]) != NumericId(rows[j])
  }

  lemma Block0IdsWellFormed()
    ensures forall i :: 0 <= i < |Block0| ==> IsCanonicalDecimal(Block0[i].id)
  {}

  lemma Block0IdsAscending()
    ensures IdsWellFormed(Block0)
    ensures forall i :: 0 <= i < |Block0| - 1 ==> NumericId(Block0[i]) < NumericId(Block0[i + 1])
  {
    Block0IdsWellFormed();
  }
  lemma Block1IdsWellFormed()
    ensures forall i :: 0 <= i < |Block1| ==> IsCanonicalDecimal(Block1[i].id)
  {}

  lemma Block1IdsAscending()
    ensures IdsWellFormed(Block1)
    ensures forall i :: 0 <= i < |Block1| - 1 ==> NumericId(Block1[i]) < NumericId(Block1[i + 1])
  {
    Block1IdsWellFormed();
  }
  lemma Block2IdsWellFormed()
    ensures forall i :: 0 <= i < |Block2| ==> IsCanonicalDecimal(Block2[i].id)
  {}

  lemma Block2IdsAscending()
    ensures IdsWellFormed(Block2)
    ensures forall i :: 0 <= i < |Block2| - 1 ==> NumericId(Block2[i]) < NumericId(Block2[i + 1])
  {
    Block2IdsWellFormed();
  }

  /** Two ascending runs whose seam ascends make one ascending run. */
  lemma IdsAscendingAppend(a: seq<StateRow>, b: seq<StateRow>)
    requires IdsAscending(a) && IdsAscending(b) && |a| > 0 && |b| > 0
    requires NumericId(a[|a| - 1]) < NumericId(b[0])
    ensures IdsAscending(a + b)
  {
    var s := a + b;
    forall i | 0 <= i < |s| - 1
      ensures NumericId(s[i]) < NumericId(s[i + 1])
    {
      if i < |a| - 1 {
        assert s[i] == a[i] && s[i + 1] == a[i + 1];
      } else if i == |a| - 1 {
        assert s[i] == a[|a| - 1] && s[i + 1] == b[0];
      } else {
        assert s[i] == b[i - |a|] && s[i + 1] == b[i - |a| + 1];
      }
    }
  }

  /** Ascending from row to row means ascending between any two rows. */
  lemma {:induction false} IdsAscendingPairwise(rows: seq<StateRow>, i: nat, j: nat)
    requires IdsAscending(rows)
    requires i < j < |rows|
    ensures NumericId(rows[i]) < NumericId(rows[j])
    decreases j - i
  {
    if i + 1 < j {
      IdsAscendingPairwise(rows, i + 1, j);
    }
  }

  /** The three blocks join into one table whose ids ascend from row to row. */
  lemma StateCodesIdsStepwise()
    ensures |StateCodes| == 60
    ensures IdsAscending(StateCodes)
  {
    Block0IdsAscending();
    Block1IdsAscending();
    Block2IdsAscending();
    IdsAscendingAppend(Block0, Block1);
    assert (Block0 + Block1)[39] == Block1[19];
    IdsAscendingAppend(Block0 + Block1, Block2);
  }

  /**
   * The table has 60 rows whose ids, read as numbers, strictly increase in
   * table order from 1 (Alabama) to 78 (the Virgin Islands); in particular no
   * two rows share an id, so building the name lookup never overwrites an
   * entry.
   */
  lemma StateCodesIdsAscending()
    ensures |StateCodes| == 60
    ensures IdsWellFormed(StateCodes)
    ensures forall i, j :: 0 <= i < j < |StateCodes| ==>
              NumericId(StateCodes[i]) < NumericId(StateCodes[j])
    ensures IdsDistinct(StateCodes)
    ensures NumericId(StateCodes[0]) == 1 && NumericId(StateCodes[59]) == 78
  {
    StateCodesIdsStepwise();
    forall i, j | 0 <= i < j < |StateCodes|
      ensures NumericId(StateCodes[i]) < NumericId(StateCodes[j])
    {
      IdsAscendingPairwise(StateCodes, i, j);
    }
    assert StateCodes[0] == Block0[0];
    assert StateCodes[59] == Block2[19];
  }

  /** `+d.id` of row `r` of the table. */
  function TableId(r: nat): nat
    requires r < |StateCodes|
  {
    StateCodesIdsAscending();
    NumericId(StateCodes[r])
  }

  // ---------------------------------------------------------------------------
  // Codes and names.

  predicate IsUpper(c: char) {
    'A' <= c <= 'Z'
  }

  /** Every code is two upper-case letters and every name starts with a capital. */
  predicate KeysWellFormed(rows: seq<StateRow>) {
    forall i :: 0 <= i < |rows| ==>
      && |rows[i].code| == 2 && IsUpper(rows[i].code[0]) && IsUpper(rows[i].code[1])
      && |rows[i].name| >= 1 && IsUpper(rows[i].name[0])
  }

  /** No two rows share a key under the selector. */
  predicate KeysDistinct(rows: seq<StateRow>, sel: Selector) {
    forall i, j :: 0 <= i < j < |rows| ==> Field(rows[i], sel) != Field(rows[j], sel)
  }

  /** No row of `a` shares a key with a row of `b` under the selector. */
  predicate KeysApart(a: seq<StateRow>, b: seq<StateRow>, sel: Selector) {
    forall i, j :: 0 <= i < |a| && 0 <= j < |b| ==> Field(a[i], sel) != Field(b[j], sel)
  }

  // The block lemmas below state their facts as quantifiers over the block
  // literal itself rather than through KeysWellFormed, KeysDistinct and
  // KeysApart: on a literal of twenty rows the verifier checks the inline
  // form far more cheaply than it unfolds the predicate.

  lemma Block0KeysWellFormed()
    ensures forall i :: 0 <= i < |Block0| ==>
      && |Block0[i].code| == 2 && IsUpper(Block0[i].code[0]) && IsUpper(Block0[i].code[1])
      && |Block0[i].name| >= 1 && IsUpper(Block0[i].name[0])
  {}
  lemma Block1KeysWellFormed()
    ensures forall i :: 0 <= i < |Block1| ==>
      && |Block1[i].code| == 2 && IsUpper(Block1[i].code[0]) && IsUpper(Block1[i].code[1])
      && |Block1[i].name| >= 1 && IsUpper(Block1[i].name[0])
  {}
  lemma Block2KeysWellFormed()
    ensures forall i :: 0 <= i < |Block2| ==>
      && |Block2[i].code| == 2 && IsUpper(Block2[i].code[0]) && IsUpper(Block2[i].code[1])
      && |Block2[i].name| >= 1 && IsUpper(Block2[i].name[0])
  {}

  lemma Block0CodesDistinct()
    ensures forall i, j :: 0 <= i < j < |Block0| ==> Block0[i].code != Block0[j].code
  {}
  lemma Block1CodesDistinct()
    ensures forall i, j :: 0 <= i < j < |Block1| ==> Block1[i].code != Block1[j].code
  {}
  lemma Block2CodesDistinct()
    ensures forall i, j :: 0 <= i < j < |Block2| ==> Block2[i].code != Block2[j].code
  {}
  lemma Block0NamesDistinct()
    ensures forall i, j :: 0 <= i < j < |Block0| ==> Block0[i].name != Block0[j].name
  {}
  lemma Block1NamesDistinct()
    ensures forall i, j :: 0 <= i < j < |Block1| ==> Block1[i].name != Block1[j].name
  {}
  lemma Block2NamesDistinct()
    ensures forall i, j :: 0 <= i < j < |Block2| ==> Block2[i].name != Block2[j].name
  {}

  lemma Blocks01CodesApart()
    ensures forall i, j :: 0 <= i < |Block0| && 0 <= j < |Block1| ==> Block0[i].code != Block1[j].code
  {}
  lemma Blocks02CodesApart()
    ensures forall i, j :: 0 <= i < |Block0| && 0 <= j < |Block2| ==> Block0[i].code != Block2[j].code
  {}
  lemma Blocks12CodesApart()
    ensures forall i, j :: 0 <= i < |Block1| && 0 <= j < |Block2| ==> Block1[i].code != Block2[j].code
  {}
  lemma Blocks01NamesApart()
    ensures forall i, j :: 0 <= i < |Block0| && 0 <= j < |Block1| ==> Block0[i].name != Block1[j].name
  {}
  lemma Blocks02NamesApart()
    ensures forall i, j :: 0 <= i < |Block0| && 0 <= j < |Block2| ==> Block0[i].name != Block2[j].name
  {}
  lemma Blocks12NamesApart()
    ensures forall i, j :: 0 <= i < |Block1| && 0 <= j < |Block2| ==> Block1[i].name != Block2[j].name
  {}

  lemma KeysDistinctAppend(a: seq<StateRow>, b: seq<StateRow>, sel: Selector)
    requires KeysDistinct(a, sel) && KeysDistinct(b, sel) && KeysApart(a, b, sel)
    ensures KeysDistinct(a + b, sel)
  {
    var s := a + b;
    forall i, j | 0 <= i < j < |s|
      ensures Field(s[i], sel) != Field(s[j], sel)
    {
      if j < |a| {
        assert s[i] == a[i] && s[j] == a[j];
      } else if i < |a| {
        assert s[i] == a[i] && s[j] == b[j - |a|];
      } else {
        assert s[i] == b[i - |a|] && s[j] == b[j - |a|];
      }
    }
  }

  lemma KeysApartAppend(a: seq<StateRow>, b: seq<StateRow>, c: seq<StateRow>, sel: Selector)
    requires KeysApart(a, c, sel) && KeysApart(b, c, sel)
    ensures KeysApart(a + b, c, sel)
  {
    var s := a + b;
    forall i, j | 0 <= i < |s| && 0 <= j < |c|
      ensures Field(s[i], sel) != Field(c[j], sel)
    {
      if i < |a| {
        assert s[i] == a[i];
      } else {
        assert s[i] == b[i - |a|];
      }
    }
  }

  /**
   * Every code is two upper-case letters and every name is capitalised; all
   * codes are distinct and all names are distinct, so both key modes give an
   * injective id-to-key lookup.
   */
  lemma StateCodesKeysDistinct(sel: Selector)
    ensures KeysWellFormed(StateCodes)
    ensures KeysDistinct(StateCodes, sel)
  {
    Block0KeysWellFormed();
    Block1KeysWellFormed();
    Block2KeysWellFormed();
    assert KeysWellFormed(Block0 + Block1);
    match sel {
      case Code =>
        Block0CodesDistinct();
        Block1CodesDistinct();
        Block2CodesDistinct();
        Blocks01CodesApart();
        Blocks02CodesApart();
        Blocks12CodesApart();
      case Name =>
        Block0NamesDistinct();
        Block1NamesDistinct();
        Block2NamesDistinct();
        Blocks01NamesApart();
        Blocks02NamesApart();
        Blocks12NamesApart();
    }
    KeysDistinctAppend(Block0, Block1, sel);
    KeysApartAppend(Block0, Block1, Block2, sel);
    KeysDistinctAppend(Block0 + Block1, Block2, sel);
  }

  /** A row's key, under either selector, identifies the row. */
  lemma KeyIdentifiesRow(i: nat, j: nat, sel: Selector)
    requires i < |StateCodes| && j < |StateCodes|
    ensures Field(StateCodes[i], sel) == Field(StateCodes[j], sel) <==> i == j
  {
    StateCodesKeysDistinct(sel);
    if i < j {
      assert Field(StateCodes[i], sel) != Field(StateCodes[j], sel);
    } else if j < i {
      assert Field(StateCodes[j], sel) != Field(StateCodes[i], sel);
    }
  }

  /**
   * A row's code and its name identify the same row: two rows share a code
   * exactly when they share a name. So the table is a bijection between codes
   * and names.
   */
  lemma CodeNameBijection(i: nat, j: nat)
    requires i < |StateCodes| && j < |StateCodes|
    ensures StateCodes[i].code == StateCodes[j].code <==> StateCodes[i].name == StateCodes[j].name
  {
    KeyIdentifiesRow(i, j, Code);
    KeyIdentifiesRow(i, j, Name);
  }

  /**
   * No code and no name is the string "undefined", the key `d3.map` gives a
   * missing property: a record without the selected field never matches a
   * row.
   */
  lemma NoKeyIsUndefined(i: nat, sel: Selector)
    requires i < |StateCodes|
    ensures Field(StateCodes[i], sel) != "undefined"
  {
    StateCodesKeysDistinct(sel);
    assert IsUpper(Field(StateCodes[i], sel)[0]);
  }
}
