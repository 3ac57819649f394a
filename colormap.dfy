/**
 * The data preparation of the US colour-map component
 * (ng-d3-us-colormap.component.ts): which input changes trigger a redraw, and
 * what `drawMap` computes before handing shapes to d3 -- the value lookup
 * built from the caller's records, the name lookup built from the state
 * table, the running minimum and maximum, the three-point colour-scale
 * domain, the fill of every map feature and the legend's gradient stops.
 *
 * The d3 linear colour scale is a parameter: `scaleLinear(domain, range)`
 * stands for `d3.scaleLinear().domain(..).range(..)`, a function from a value
 * to a colour of type C. Map features are given by their numeric ids
 * (`+d.id` of each topojson feature).
 */
module Colormap {
  import opened JsValues
  import opened States

  // ===========================================================================
  // Change detection: ngOnChanges and checkForChange.

  /** Angular's record of one input's change. */
  datatype SimpleChange<V> = SimpleChange(previousValue: V, currentValue: V, firstChange: bool)

  /**
   * checkForChange(changes, changeKeyName, cb): whether `cb` runs. It returns
   * early when the input is absent from `changes` or this is its first change,
   * and otherwise runs `cb` only when the previous and current values differ.
   */
  function CheckForChange<V(==)>(changes: map<string, SimpleChange<V>>, changeKeyName: string): (called: bool)
    ensures called <==>
      && changeKeyName in changes
      && !changes[changeKeyName].firstChange
      && changes[changeKeyName].previousValue != changes[changeKeyName].currentValue
  {
    var change := Get(changes, changeKeyName);
    if change.None? || change.value.firstChange then false
    else change.value.previousValue != change.value.currentValue
  }

  /** The inputs ngOnChanges checks, in the order it checks them. */
  const WatchedInputs: seq<string> := ["chartId", "data", "dataScaleColors", "isUseStateCode"]

  /** `a` is `b` with some elements left out: its elements occur in `b` in the same order. */
  predicate IsSubsequence<T(==)>(a: seq<T>, b: seq<T>)
    decreases |b|
  {
    || a == []
    || (b != [] && ((a[0] == b[0] && IsSubsequence(a[1..], b[1..])) || IsSubsequence(a, b[1..])))
  }

  /** The keys whose check passes, in the order they are checked. */
  function Picked(keys: seq<string>, check: string -> bool): seq<string>
    decreases |keys|
  {
    if keys == [] then []
    else (if check(keys[0]) then [keys[0]] else []) + Picked(keys[1..], check)
  }

  /** An element of `keys` is its head or an element of its tail. */
  lemma InHeadOrTail(keys: seq<string>, k: string)
    requires keys != []
    ensures k in keys <==> k == keys[0] || k in keys[1..]
  {
    if k in keys {
      var i :| 0 <= i < |keys| && keys[i] == k;
      if i > 0 { assert keys[1..][i - 1] == k; }
    }
  }

  /** Exactly the keys that pass their check are picked. */
  lemma {:induction false} PickedMembers(keys: seq<string>, check: string -> bool)
    ensures forall k :: k in Picked(keys, check) <==> k in keys && check(k)
    decreases |keys|
  {
    if keys != [] {
      PickedMembers(keys[1..], check);
      forall k ensures k in keys <==> k == keys[0] || k in keys[1..] {
        InHeadOrTail(keys, k);
      }
    }
  }

  /** The picked keys keep the order of `keys`, so there are at most as many. */
  lemma {:induction false} PickedInOrder(keys: seq<string>, check: string -> bool)
    ensures IsSubsequence(Picked(keys, check), keys)
    ensures |Picked(keys, check)| <= |keys|
    decreases |keys|
  {
    if keys != [] {
      PickedInOrder(keys[1..], check);
      var rest := Picked(keys[1..], check);
      if check(keys[0]) {
        assert Picked(keys, check) == [keys[0]] + rest;
        assert ([keys[0]] + rest)[1..] == rest;
      } else {
        assert Picked(keys, check) == rest;
        assert IsSubsequence(rest, keys[1..]);
      }
    }
  }

  /** Distinct keys are picked at most once each. */
  lemma {:induction false} PickedDistinct(keys: seq<string>, check: string -> bool)
    requires forall i, j :: 0 <= i < j < |keys| ==> keys[i] != keys[j]
    ensures forall i, j :: 0 <= i < j < |Picked(keys, check)| ==> Picked(keys, check)[i] != Picked(keys, check)[j]
    decreases |keys|
  {
    if keys != [] {
      var tail := keys[1..];
      forall i, j | 0 <= i < j < |tail| ensures tail[i] != tail[j] {
        assert tail[i] == keys[i + 1] && tail[j] == keys[j + 1];
      }
      PickedDistinct(tail, check);
      if check(keys[0]) {
        var rest := Picked(tail, check);
        var r := Picked(keys, check);
        assert r == [keys[0]] + rest;
        PickedMembers(tail, check);
        assert keys[0] !in tail;
        forall i, j | 0 <= i < j < |r| ensures r[i] != r[j] {
          assert r[j] == rest[j - 1];
          if i > 0 { assert r[i] == rest[i - 1]; }
        }
      }
    }
  }

  /**
   * ngOnChanges: the inputs whose check runs `drawMap`, in call order; each
   * entry is one full redraw. Only the four watched inputs can cause one (a
   * change of `noEntryColor` or `tooltipTextFn` alone redraws nothing), each
   * at most once, and a batch of first changes redraws nothing.
   */
  function OnChangesRedraws<V(==)>(changes: map<string, SimpleChange<V>>): (redraws: seq<string>)
    ensures forall k :: k in redraws <==> k in WatchedInputs && CheckForChange(changes, k)
    ensures IsSubsequence(redraws, WatchedInputs)
    ensures |redraws| <= |WatchedInputs|
    ensures forall i, j :: 0 <= i < j < |redraws| ==> redraws[i] != redraws[j]
    ensures (forall k :: k in changes && k in WatchedInputs ==> changes[k].firstChange) ==> redraws == []
  {
    var check := k => CheckForChange(changes, k);
    WatchedInputsDistinct();
    PickedMembers(WatchedInputs, check);
    PickedInOrder(WatchedInputs, check);
    PickedDistinct(WatchedInputs, check);
    PickedNone(WatchedInputs, check);
    Picked(WatchedInputs, check)
  }

  /** When no key passes its check, nothing is picked. */
  lemma PickedNone(keys: seq<string>, check: string -> bool)
    ensures (forall k :: k in keys ==> !check(k)) ==> Picked(keys, check) == []
  {
    PickedMembers(keys, check);
    if Picked(keys, check) != [] {
      assert Picked(keys, check)[0] in Picked(keys, check);
    }
  }

  lemma WatchedInputsDistinct()
    ensures forall i, j :: 0 <= i < j < |WatchedInputs| ==> WatchedInputs[i] != WatchedInputs[j]
  {
  }

  // ===========================================================================
  // The value lookup: `stateValues`.

  /**
   * One caller record: its `code` and `name` properties (either may be
   * missing) and `+d.value`, the number its value coerces to.
   */
  datatype DataRecord = DataRecord(code: Option<string>, name: Option<string>, value: Num)

  /** `stateSelectorType`. */
  function SelectorOf(isUseStateCode: bool): (sel: Selector)
    ensures sel == Code <==> isUseStateCode
    ensures sel == Name <==> !isUseStateCode
  {
    if isUseStateCode then Code else Name
  }

  /** `d[stateSelectorType]` as the string `d3.map` stores it under. */
  function RecordKey(d: DataRecord, sel: Selector): (k: string)
    ensures sel == Code ==> k == KeyString(d.code)
    ensures sel == Name ==> k == KeyString(d.name)
  {
    KeyString(match sel
      case Code => d.code
      case Name => d.name)
  }

  /** `stateValues` after the records up to the last one have each set their key. */
  function StateValues(data: seq<DataRecord>, sel: Selector): (m: map<string, Num>)
    ensures data != [] ==> RecordKey(data[|data| - 1], sel) in m && m[RecordKey(data[|data| - 1], sel)] == data[|data| - 1].value
    decreases |data|
  {
    if data == [] then map[]
    else StateValues(data[..|data| - 1], sel)[RecordKey(data[|data| - 1], sel) := data[|data| - 1].value]
  }

  /** Record `i` carries its key for the last time in `data`. */
  predicate IsLastWithKey(data: seq<DataRecord>, sel: Selector, i: int) {
    && 0 <= i < |data|
    && forall j :: i < j < |data| ==> RecordKey(data[j], sel) != RecordKey(data[i], sel)
  }

  /** The lookup holds exactly the keys the records carry. */
  lemma {:induction false} StateValuesKeys(data: seq<DataRecord>, sel: Selector)
    ensures StateValues(data, sel).Keys == set i | 0 <= i < |data| :: RecordKey(data[i], sel)
    decreases |data|
  {
    if data != [] {
      var prefix := data[..|data| - 1];
      StateValuesKeys(prefix, sel);
      var s := set i | 0 <= i < |data| :: RecordKey(data[i], sel);
      var t := set i | 0 <= i < |prefix| :: RecordKey(prefix[i], sel);
      assert s == t + {RecordKey(data[|data| - 1], sel)} by {
        forall k | k in s ensures k in t + {RecordKey(data[|data| - 1], sel)} {
          var i :| 0 <= i < |data| && RecordKey(data[i], sel) == k;
          if i < |prefix| { assert prefix[i] == data[i]; }
        }
        forall k | k in t ensures k in s {
          var i :| 0 <= i < |prefix| && RecordKey(prefix[i], sel) == k;
          assert data[i] == prefix[i];
        }
      }
    }
  }

  /** When keys repeat, the last record carrying a key decides its value. */
  lemma {:induction false} StateValuesLastWins(data: seq<DataRecord>, sel: Selector, i: int)
    requires IsLastWithKey(data, sel, i)
    ensures RecordKey(data[i], sel) in StateValues(data, sel)
    ensures StateValues(data, sel)[RecordKey(data[i], sel)] == data[i].value
    decreases |data|
  {
    if i < |data| - 1 {
      var prefix := data[..|data| - 1];
      assert prefix[i] == data[i];
      forall j | i < j < |prefix| ensures RecordKey(prefix[j], sel) != RecordKey(prefix[i], sel) {
        assert prefix[j] == data[j];
      }
      StateValuesLastWins(prefix, sel, i);
    }
  }

  /** A key no record carries is absent from the lookup. */
  lemma StateValuesMissing(data: seq<DataRecord>, sel: Selector, k: string)
    requires forall i :: 0 <= i < |data| ==> RecordKey(data[i], sel) != k
    ensures k !in StateValues(data, sel)
  {
    StateValuesKeys(data, sel);
  }

  /** The forEach loop that fills `stateValues`, record by record. */
  method BuildStateValues(data: seq<DataRecord>, sel: Selector) returns (stateValues: map<string, Num>)
    ensures stateValues == StateValues(data, sel)
  {
    stateValues := map[];
    for n := 0 to |data|
      invariant stateValues == StateValues(data[..n], sel)
    {
      assert data[..n + 1][..n] == data[..n];
      stateValues := stateValues[RecordKey(data[n], sel) := data[n].value];
    }
    assert data[..|data|] == data;
  }

  // ===========================================================================
  // The name lookup: `stateNames`.

  /** `stateNames` after the rows have each set `+d.id` to `d[stateSelectorType]`. */
  function StateNames(rows: seq<StateRow>, sel: Selector): (m: map<int, string>)
    requires IdsWellFormed(rows)
    ensures rows != [] ==> NumericId(rows[|rows| - 1]) in m && m[NumericId(rows[|rows| - 1])] == Field(rows[|rows| - 1], sel)
    decreases |rows|
  {
    if rows == [] then map[]
    else StateNames(rows[..|rows| - 1], sel)[NumericId(rows[|rows| - 1]) := Field(rows[|rows| - 1], sel)]
  }

  /** Row `i` of `rows`, taken from the prefix without the last row. */
  lemma PrefixRows(rows: seq<StateRow>, i: nat)
    requires i < |rows| - 1
    ensures rows[..|rows| - 1][i] == rows[i]
  {
  }

  lemma PrefixIdsWellFormed(rows: seq<StateRow>)
    requires IdsWellFormed(rows) && rows != []
    ensures IdsWellFormed(rows[..|rows| - 1])
  {
    var prefix := rows[..|rows| - 1];
    forall i | 0 <= i < |prefix| ensures IsCanonicalDecimal(prefix[i].id) {
      PrefixRows(rows, i);
    }
  }

  /** The lookup holds exactly the rows' numeric ids. */
  lemma {:induction false} StateNamesKeys(rows: seq<StateRow>, sel: Selector)
    requires IdsWellFormed(rows)
    ensures StateNames(rows, sel).Keys == set i | 0 <= i < |rows| :: NumericId(rows[i])
    decreases |rows|
  {
    if rows != [] {
      var prefix := rows[..|rows| - 1];
      PrefixIdsWellFormed(rows);
      StateNamesKeys(prefix, sel);
      var last := NumericId(rows[|rows| - 1]);
      var s := set i | 0 <= i < |rows| :: NumericId(rows[i]);
      var t := set i | 0 <= i < |prefix| :: NumericId(prefix[i]);
      assert s == t + {last} by {
        forall k | k in s ensures k in t + {last} {
          var i :| 0 <= i < |rows| && NumericId(rows[i]) == k;
          if i < |prefix| { PrefixRows(rows, i); }
        }
        forall k | k in t ensures k in s {
          var i :| 0 <= i < |prefix| && NumericId(prefix[i]) == k;
          PrefixRows(rows, i);
        }
      }
    }
  }

  lemma PrefixIdsDistinct(rows: seq<StateRow>)
    requires IdsWellFormed(rows) && IdsDistinct(rows) && rows != []
    ensures IdsWellFormed(rows[..|rows| - 1]) && IdsDistinct(rows[..|rows| - 1])
  {
    PrefixIdsWellFormed(rows);
    var prefix := rows[..|rows| - 1];
    forall i, j | 0 <= i < j < |prefix| ensures NumericId(prefix[i]) != NumericId(prefix[j]) {
      PrefixRows(rows, i);
      PrefixRows(rows, j);
    }
  }

  /**
   * With distinct ids every row's id maps to that row's key: the later rows
   * never overwrite an earlier entry.
   */
  lemma {:induction false} StateNamesAt(rows: seq<StateRow>, sel: Selector, i: nat)
    requires IdsWellFormed(rows) && IdsDistinct(rows) && i < |rows|
    ensures NumericId(rows[i]) in StateNames(rows, sel)
    ensures StateNames(rows, sel)[NumericId(rows[i])] == Field(rows[i], sel)
    decreases |rows|
  {
    if i < |rows| - 1 {
      PrefixIdsDistinct(rows);
      PrefixRows(rows, i);
      StateNamesAt(rows[..|rows| - 1], sel, i);
    }
  }

  /** With distinct ids every row adds a fresh entry, so the lookup has one entry per row. */
  lemma {:induction false} StateNamesSize(rows: seq<StateRow>, sel: Selector)
    requires IdsWellFormed(rows) && IdsDistinct(rows)
    ensures |StateNames(rows, sel)| == |rows|
    decreases |rows|
  {
    if rows != [] {
      var prefix := rows[..|rows| - 1];
      PrefixIdsDistinct(rows);
      StateNamesSize(prefix, sel);
      StateNamesKeys(prefix, sel);
      var last := NumericId(rows[|rows| - 1]);
      assert last !in StateNames(prefix, sel) by {
        forall i | 0 <= i < |prefix| ensures NumericId(prefix[i]) != last {
          PrefixRows(rows, i);
        }
      }
    }
  }

  /** `stateNames` for the reference table. */
  function TableNames(sel: Selector): (m: map<int, string>)
    ensures |m| == |StateCodes| == 60
  {
    StateCodesIdsAscending();
    StateNamesSize(StateCodes, sel);
    StateNames(StateCodes, sel)
  }

  /**
   * The name lookup of the reference table has one entry per row: it is
   * total over the table's ids and has no other key, and it maps each id to
   * its row's code in code mode and its name in name mode.
   */
  lemma TableNamesSpec(sel: Selector)
    ensures TableNames(sel).Keys == set r | 0 <= r < |StateCodes| :: TableId(r)
    ensures |TableNames(sel)| == |StateCodes| == 60
    ensures forall r :: 0 <= r < |StateCodes| ==>
              TableId(r) in TableNames(sel) && TableNames(sel)[TableId(r)] == Field(StateCodes[r], sel)
  {
    StateCodesIdsAscending();
    var m := TableNames(sel);
    StateNamesKeys(StateCodes, sel);
    StateNamesSize(StateCodes, sel);
    forall r | 0 <= r < |StateCodes| ensures TableId(r) in m && m[TableId(r)] == Field(StateCodes[r], sel) {
      StateNamesAt(StateCodes, sel, r);
    }
  }

  /** In both modes no two ids of the table's name lookup share a key. */
  lemma TableNamesInjective(sel: Selector)
    ensures forall a, b :: a in TableNames(sel) && b in TableNames(sel) && TableNames(sel)[a] == TableNames(sel)[b] ==> a == b
  {
    TableNamesSpec(sel);
    var m := TableNames(sel);
    forall a, b | a in m && b in m && m[a] == m[b] ensures a == b {
      var i :| 0 <= i < |StateCodes| && TableId(i) == a;
      var j :| 0 <= j < |StateCodes| && TableId(j) == b;
      KeyIdentifiesRow(i, j, sel);
    }
  }

  /** The forEach loop that fills `stateNames`, row by row. */
  method BuildStateNames(rows: seq<StateRow>, sel: Selector) returns (stateNames: map<int, string>)
    requires IdsWellFormed(rows)
    ensures stateNames == StateNames(rows, sel)
  {
    stateNames := map[];
    for n := 0 to |rows|
      invariant IdsWellFormed(rows[..n])
      invariant stateNames == StateNames(rows[..n], sel)
    {
      assert rows[..n + 1][..n] == rows[..n];
      stateNames := stateNames[NumericId(rows[n]) := Field(rows[n], sel)];
    }
    assert rows[..|rows|] == rows;
  }

  // ===========================================================================
  // The running minimum and maximum: `dataMin` and `dataMax`.

  datatype Extent = Extent(dataMin: real, dataMax: real)

  /** `dataMin = Number.MAX_VALUE`, `dataMax = Number.MIN_VALUE`. */
  const InitialExtent: Extent := Extent(MaxValue, MinValue)

  /** One pass of the loop body: two independent comparisons, both false on NaN. */
  function ExtentStep(e: Extent, val: Num): (next: Extent)
    ensures next.dataMin <= e.dataMin && e.dataMax <= next.dataMax
    ensures next.dataMin == e.dataMin || (val.Finite? && next.dataMin == val.value)
    ensures next.dataMax == e.dataMax || (val.Finite? && next.dataMax == val.value)
    ensures val.Finite? ==> next.dataMin <= val.value <= next.dataMax
    ensures val == NaN ==> next == e
  {
    Extent(if Less(val, e.dataMin) then val.value else e.dataMin,
           if Greater(val, e.dataMax) then val.value else e.dataMax)
  }

  /**
   * `dataMin` and `dataMax` after the loop over `data`. The bounds can only
   * move past the sentinels, so `dataMin` never exceeds MAX_VALUE and
   * `dataMax`, started at the positive MIN_VALUE, is always positive.
   */
  function DataExtent(data: seq<DataRecord>): (e: Extent)
    ensures e.dataMin <= MaxValue
    ensures MinValue <= e.dataMax && 0.0 < e.dataMax
    decreases |data|
  {
    if data == [] then InitialExtent
    else ExtentStep(DataExtent(data[..|data| - 1]), data[|data| - 1].value)
  }

  /** The loop that updates `dataMin` and `dataMax`, record by record. */
  method ComputeExtent(data: seq<DataRecord>) returns (dataMin: real, dataMax: real)
    ensures Extent(dataMin, dataMax) == DataExtent(data)
  {
    dataMin, dataMax := MaxValue, MinValue;
    for n := 0 to |data|
      invariant Extent(dataMin, dataMax) == DataExtent(data[..n])
    {
      assert data[..n + 1][..n] == data[..n];
      var val := data[n].value;
      if Less(val, dataMin) {
        dataMin := val.value;
      }
      if Greater(val, dataMax) {
        dataMax := val.value;
      }
    }
    assert data[..|data|] == data;
  }

  /** Some record's value is exactly `v`. */
  predicate HasValue(data: seq<DataRecord>, v: real) {
    exists i :: 0 <= i < |data| && data[i].value == Finite(v)
  }

  /**
   * After the loop, `dataMin` is at most and `dataMax` at least every
   * non-NaN value; each bound is either its sentinel or some record's value.
   */
  lemma {:induction false} DataExtentBounds(data: seq<DataRecord>)
    ensures forall i :: 0 <= i < |data| && data[i].value.Finite? ==>
              DataExtent(data).dataMin <= data[i].value.value <= DataExtent(data).dataMax
    ensures DataExtent(data).dataMin == MaxValue || HasValue(data, DataExtent(data).dataMin)
    ensures DataExtent(data).dataMax == MinValue || HasValue(data, DataExtent(data).dataMax)
    decreases |data|
  {
    if data != [] {
      var prefix := data[..|data| - 1];
      DataExtentBounds(prefix);
      forall i | 0 <= i < |prefix| ensures prefix[i] == data[i] { }
      var e := DataExtent(prefix);
      if e.dataMin != MaxValue && HasValue(prefix, e.dataMin) {
        var i :| 0 <= i < |prefix| && prefix[i].value == Finite(e.dataMin);
        assert data[i].value == Finite(e.dataMin);
      }
      if e.dataMax != MinValue && HasValue(prefix, e.dataMax) {
        var i :| 0 <= i < |prefix| && prefix[i].value == Finite(e.dataMax);
        assert data[i].value == Finite(e.dataMax);
      }
    }
  }

  /** Data with no number at all (in particular empty data) leaves both sentinels. */
  lemma {:induction false} DataExtentWithoutNumbers(data: seq<DataRecord>)
    requires forall i :: 0 <= i < |data| ==> data[i].value == NaN
    ensures DataExtent(data) == InitialExtent
    ensures DataExtent(data).dataMin > DataExtent(data).dataMax
    decreases |data|
  {
    if data != [] {
      var prefix := data[..|data| - 1];
      forall i | 0 <= i < |prefix| ensures prefix[i].value == NaN { assert prefix[i] == data[i]; }
      DataExtentWithoutNumbers(prefix);
    }
    MaxValueAboveOne();
    MinValueBetweenZeroAndOne();
  }

  // ===========================================================================
  // The colour-scale domain.

  /** The middle point `dataMax / colours / 2`; dividing a positive number by zero gives Infinity. */
  datatype Midpoint = FiniteMid(value: real) | InfiniteMid

  /** `[dataMax, dataMax / this.dataScaleColors.length / 2, 0]`. */
  datatype ColorDomain = ColorDomain(top: real, middle: Midpoint, bottom: real)

  /**
   * The domain given to the colour scale. With at least one colour it runs
   * from `dataMax` down to 0 through a middle point that, over exact reals,
   * lies strictly between them (at most half of `dataMax`), so the domain is
   * strictly decreasing; with no colour the middle point is Infinity.
   */
  function ScaleDomain(dataMax: real, colorCount: nat): (d: ColorDomain)
    requires 0.0 < dataMax
    ensures d.top == dataMax && d.bottom == 0.0
    ensures d.middle.FiniteMid? <==> colorCount >= 1
    ensures colorCount >= 1 ==> d.bottom < d.middle.value <= d.top / 2.0 < d.top
    ensures colorCount >= 1 ==> d.middle.value * (2 * colorCount) as real == dataMax
  {
    var middle :=
      if colorCount == 0 then InfiniteMid
      else FiniteMid(dataMax / colorCount as real / 2.0);
    ColorDomain(dataMax, middle, 0.0)
  }

  // ===========================================================================
  // The fill of one feature, and the data its events carry.

  /** The `{ stateName, val }` object that click, mouseover and mouseout emit. */
  datatype StateData = StateData(stateName: Option<string>, val: Option<Num>)

  /**
   * getStateData: the feature's key from the name lookup (`undefined` for an
   * id the table lacks) and the value stored under that key, where a missing
   * key is looked up as the string "undefined".
   */
  function GetStateData(stateValues: map<string, Num>, stateNames: map<int, string>, featureId: int): (r: StateData)
    ensures r.stateName.Some? <==> featureId in stateNames
    ensures r.stateName.Some? ==> r.stateName.value == stateNames[featureId]
    ensures r.val.Some? <==> KeyString(r.stateName) in stateValues
    ensures r.val.Some? ==> r.val.value == stateValues[KeyString(r.stateName)]
  {
    var stateName := Get(stateNames, featureId);
    StateData(stateName, Get(stateValues, KeyString(stateName)))
  }

  /**
   * The fill callback: `noEntryColor` unless `stateValues.get(stateNames.get(+d.id)) || -1`
   * is above zero. Because of `|| -1` it is the colour of the value that
   * getStateData reports when that value is a positive number, and
   * `noEntryColor` when it is missing, NaN, zero or negative.
   */
  function FillColor<C>(stateValues: map<string, Num>, stateNames: map<int, string>, featureId: int,
                        noEntryColor: C, colorScale: real -> C): (color: C)
    ensures var val := GetStateData(stateValues, stateNames, featureId).val;
      color == if val.Some? && val.value.Finite? && val.value.value > 0.0 then colorScale(val.value.value)
               else noEntryColor
  {
    var val := OrElse(Get(stateValues, KeyString(Get(stateNames, featureId))), -1.0);
    if Greater(val, 0.0) then colorScale(val.value) else noEntryColor
  }

  // ===========================================================================
  // The legend's gradient stops.

  /** One `<stop>` of the legend's linear gradient. */
  datatype GradientStop<C> = GradientStop(offset: Num, stopColor: C)

  /** `i / (range.length - 1)`: NaN (0 / 0) when the range has a single colour. */
  function StopOffset(i: nat, n: nat): (offset: Num)
    requires i < n
    ensures offset == NaN <==> n == 1
    ensures offset.Finite? ==> offset.value * (n - 1) as real == i as real
  {
    if n == 1 then NaN else Finite(i as real / (n - 1) as real)
  }

  /** One stop per colour of the scale's range, in range order. */
  function LegendStops<C>(range: seq<C>): (stops: seq<GradientStop<C>>)
    ensures |stops| == |range|
    ensures forall i :: 0 <= i < |range| ==> stops[i] == GradientStop(StopOffset(i, |range|), range[i])
  {
    seq(|range|, i requires 0 <= i < |range| => GradientStop(StopOffset(i, |range|), range[i]))
  }

  /**
   * For two or more colours the offsets start at 0, end at 1, lie within
   * [0, 1] and strictly increase; a single colour gets the offset NaN.
   */
  lemma StopOffsetsSpan(n: nat)
    requires n >= 1
    ensures n == 1 ==> StopOffset(0, n) == NaN
    ensures n >= 2 ==> StopOffset(0, n) == Finite(0.0) && StopOffset(n - 1, n) == Finite(1.0)
    ensures n >= 2 ==> forall i :: 0 <= i < n ==> StopOffset(i, n).Finite? && 0.0 <= StopOffset(i, n).value <= 1.0
    ensures n >= 2 ==> forall i, j :: 0 <= i < j < n ==> StopOffset(i, n).value < StopOffset(j, n).value
  {
    if n >= 2 {
      var d := (n - 1) as real;
      assert 0.0 / d == 0.0 && d / d == 1.0;
      forall i, j | 0 <= i < j < n ensures StopOffset(i, n).value < StopOffset(j, n).value {
        QuotientMonotone(i as real, j as real, d);
      }
      forall i | 0 <= i < n ensures 0.0 <= StopOffset(i, n).value <= 1.0 {
        QuotientInUnit(i as real, d);
      }
    }
  }

  /** Dividing by a positive number keeps a strict order. */
  lemma QuotientMonotone(a: real, b: real, d: real)
    requires a < b && 0.0 < d
    ensures a / d < b / d
  {
    assert b / d - a / d == (b - a) / d;
  }

  /** `a / d` lies in [0, 1] when `0 <= a <= d`. */
  lemma QuotientInUnit(a: real, d: real)
    requires 0.0 <= a <= d && 0.0 < d
    ensures 0.0 <= a / d <= 1.0
  {
    assert d / d == 1.0;
    if a < d {
      QuotientMonotone(a, d, d);
    }
  }

  // ===========================================================================
  // drawMap's data preparation, end to end.

  /** The component inputs drawMap reads. */
  datatype Inputs<C> = Inputs(data: seq<DataRecord>, dataScaleColors: seq<C>, noEntryColor: C, isUseStateCode: bool)

  /** What drawMap hands to d3: the domain, one fill per feature and the legend stops. */
  datatype Drawing<C> = Drawing(domain: ColorDomain, fills: seq<C>, stops: seq<GradientStop<C>>)

  /** The colour-scale domain drawMap computes from the data and the colour count. */
  function DomainOf<C>(inputs: Inputs<C>): ColorDomain {
    ScaleDomain(DataExtent(inputs.data).dataMax, |inputs.dataScaleColors|)
  }

  /** The fill drawMap gives the feature with numeric id `featureId`. */
  function FeatureFill<C>(inputs: Inputs<C>, scaleLinear: (ColorDomain, seq<C>) -> (real -> C), featureId: int): (color: C)
    ensures var sel := SelectorOf(inputs.isUseStateCode);
      var val := GetStateData(StateValues(inputs.data, sel), TableNames(sel), featureId).val;
      color == if val.Some? && val.value.Finite? && val.value.value > 0.0
               then scaleLinear(DomainOf(inputs), inputs.dataScaleColors)(val.value.value)
               else inputs.noEntryColor
  {
    var sel := SelectorOf(inputs.isUseStateCode);
    FillColor(StateValues(inputs.data, sel), TableNames(sel), featureId, inputs.noEntryColor,
              scaleLinear(DomainOf(inputs), inputs.dataScaleColors))
  }

  /**
   * drawMap without the DOM: build both lookups, run the min/max loop, derive
   * the domain and the scale, colour every feature and lay out the legend.
   */
  method DrawMap<C>(inputs: Inputs<C>, features: seq<int>, scaleLinear: (ColorDomain, seq<C>) -> (real -> C))
    returns (drawing: Drawing<C>)
    ensures drawing.domain == DomainOf(inputs)
    ensures |drawing.fills| == |features|
    ensures forall i :: 0 <= i < |features| ==> drawing.fills[i] == FeatureFill(inputs, scaleLinear, features[i])
    ensures drawing.stops == LegendStops(inputs.dataScaleColors)
  {
    var sel := SelectorOf(inputs.isUseStateCode);
    var stateValues := BuildStateValues(inputs.data, sel);
    StateCodesIdsAscending();
    var stateNames := BuildStateNames(StateCodes, sel);
    var dataMin, dataMax := ComputeExtent(inputs.data);
    var domain := ScaleDomain(dataMax, |inputs.dataScaleColors|);
    var colorScale := scaleLinear(domain, inputs.dataScaleColors);
    var fills := seq(|features|, i requires 0 <= i < |features| =>
      FillColor(stateValues, stateNames, features[i], inputs.noEntryColor, colorScale));
    drawing := Drawing(domain, fills, LegendStops(inputs.dataScaleColors));
  }

  /**
   * A feature of table row `r`, when record `i` is the last to carry that
   * row's key, takes the scale's colour of that record's value if positive
   * and `noEntryColor` otherwise.
   */
  lemma KnownFeatureWithRecord<C>(inputs: Inputs<C>, scaleLinear: (ColorDomain, seq<C>) -> (real -> C), r: nat, i: int)
    requires r < |StateCodes|
    requires IsLastWithKey(inputs.data, SelectorOf(inputs.isUseStateCode), i)
    requires RecordKey(inputs.data[i], SelectorOf(inputs.isUseStateCode)) == Field(StateCodes[r], SelectorOf(inputs.isUseStateCode))
    ensures var v := inputs.data[i].value;
      FeatureFill(inputs, scaleLinear, TableId(r))
        == if v.Finite? && v.value > 0.0 then scaleLinear(DomainOf(inputs), inputs.dataScaleColors)(v.value)
           else inputs.noEntryColor
  {
    var sel := SelectorOf(inputs.isUseStateCode);
    TableNamesSpec(sel);
    StateValuesLastWins(inputs.data, sel, i);
  }

  /** A feature of table row `r` whose key no record carries gets `noEntryColor`. */
  lemma KnownFeatureWithoutRecord<C>(inputs: Inputs<C>, scaleLinear: (ColorDomain, seq<C>) -> (real -> C), r: nat)
    requires r < |StateCodes|
    requires forall i :: 0 <= i < |inputs.data| ==>
               RecordKey(inputs.data[i], SelectorOf(inputs.isUseStateCode)) != Field(StateCodes[r], SelectorOf(inputs.isUseStateCode))
    ensures FeatureFill(inputs, scaleLinear, TableId(r)) == inputs.noEntryColor
  {
    var sel := SelectorOf(inputs.isUseStateCode);
    TableNamesSpec(sel);
    StateValuesMissing(inputs.data, sel, Field(StateCodes[r], sel));
  }

  /**
   * A feature whose id is not in the table has no key, so its value is read
   * from the key "undefined", which holds the value of the last record whose
   * key string is "undefined": one that lacks the selected property, or whose
   * property is the string "undefined". Without such a record it gets
   * `noEntryColor`.
   */
  lemma UnknownFeature<C>(inputs: Inputs<C>, scaleLinear: (ColorDomain, seq<C>) -> (real -> C), featureId: int)
    requires forall r :: 0 <= r < |StateCodes| ==> TableId(r) != featureId
    ensures GetStateData(StateValues(inputs.data, SelectorOf(inputs.isUseStateCode)),
                         TableNames(SelectorOf(inputs.isUseStateCode)), featureId).stateName == None
    ensures (forall i :: 0 <= i < |inputs.data| ==> RecordKey(inputs.data[i], SelectorOf(inputs.isUseStateCode)) != "undefined")
            ==> FeatureFill(inputs, scaleLinear, featureId) == inputs.noEntryColor
    ensures forall i ::
              (IsLastWithKey(inputs.data, SelectorOf(inputs.isUseStateCode), i)
               && RecordKey(inputs.data[i], SelectorOf(inputs.isUseStateCode)) == "undefined"
               && inputs.data[i].value.Finite? && inputs.data[i].value.value > 0.0)
              ==> FeatureFill(inputs, scaleLinear, featureId)
                    == scaleLinear(DomainOf(inputs), inputs.dataScaleColors)(inputs.data[i].value.value)
  {
    var sel := SelectorOf(inputs.isUseStateCode);
    TableNamesSpec(sel);
    if forall i :: 0 <= i < |inputs.data| ==> RecordKey(inputs.data[i], sel) != "undefined" {
      StateValuesMissing(inputs.data, sel, "undefined");
    }
    forall i | IsLastWithKey(inputs.data, sel, i) && RecordKey(inputs.data[i], sel) == "undefined"
      ensures RecordKey(inputs.data[i], sel) in StateValues(inputs.data, sel)
      ensures StateValues(inputs.data, sel)[RecordKey(inputs.data[i], sel)] == inputs.data[i].value
    {
      StateValuesLastWins(inputs.data, sel, i);
    }
  }

  /** The record names the code and the name of one and the same table row. */
  predicate ConsistentRecord(d: DataRecord) {
    exists r :: 0 <= r < |StateCodes| && d.code == Some(StateCodes[r].code) && d.name == Some(StateCodes[r].name)
  }

  /**
   * Two keys that the same records carry, one in code mode and one in name
   * mode, look up the same value in the two modes' value lookups.
   */
  lemma {:induction false} StateValuesCorrespond(data: seq<DataRecord>, codeKey: string, nameKey: string)
    requires forall i :: 0 <= i < |data| ==> (RecordKey(data[i], Code) == codeKey <==> RecordKey(data[i], Name) == nameKey)
    ensures Get(StateValues(data, Code), codeKey) == Get(StateValues(data, Name), nameKey)
    decreases |data|
  {
    if data != [] {
      var prefix := data[..|data| - 1];
      forall i | 0 <= i < |prefix|
        ensures RecordKey(prefix[i], Code) == codeKey <==> RecordKey(prefix[i], Name) == nameKey
      {
        assert prefix[i] == data[i];
      }
      StateValuesCorrespond(prefix, codeKey, nameKey);
    }
  }

  /**
   * For consistent records, the code of row `r` and its name are carried by
   * the same records.
   */
  lemma ConsistentKeysAgree(data: seq<DataRecord>, r: nat)
    requires forall i :: 0 <= i < |data| ==> ConsistentRecord(data[i])
    requires r < |StateCodes|
    ensures forall i :: 0 <= i < |data| ==>
              (RecordKey(data[i], Code) == StateCodes[r].code <==> RecordKey(data[i], Name) == StateCodes[r].name)
  {
    forall i | 0 <= i < |data|
      ensures RecordKey(data[i], Code) == StateCodes[r].code <==> RecordKey(data[i], Name) == StateCodes[r].name
    {
      var t :| 0 <= t < |StateCodes| && data[i].code == Some(StateCodes[t].code) && data[i].name == Some(StateCodes[t].name);
      CodeNameBijection(t, r);
    }
  }

  /** Consistent records carry a key in both modes, so none is stored under "undefined". */
  lemma ConsistentKeysDefined(data: seq<DataRecord>)
    requires forall i :: 0 <= i < |data| ==> ConsistentRecord(data[i])
    ensures forall i :: 0 <= i < |data| ==> RecordKey(data[i], Code) != "undefined" && RecordKey(data[i], Name) != "undefined"
  {
    forall i | 0 <= i < |data|
      ensures RecordKey(data[i], Code) != "undefined" && RecordKey(data[i], Name) != "undefined"
    {
      var t :| 0 <= t < |StateCodes| && data[i].code == Some(StateCodes[t].code) && data[i].name == Some(StateCodes[t].name);
      NoKeyIsUndefined(t, Code);
      NoKeyIsUndefined(t, Name);
    }
  }

  /**
   * Switching between code mode and name mode does not change any fill when
   * every record supplies the code and the name of the same table row.
   */
  lemma ModeSwitchKeepsFills<C>(data: seq<DataRecord>, colors: seq<C>, noEntryColor: C,
                                scaleLinear: (ColorDomain, seq<C>) -> (real -> C), featureId: int)
    requires forall i :: 0 <= i < |data| ==> ConsistentRecord(data[i])
    ensures FeatureFill(Inputs(data, colors, noEntryColor, true), scaleLinear, featureId)
         == FeatureFill(Inputs(data, colors, noEntryColor, false), scaleLinear, featureId)
  {
    TableNamesSpec(Code);
    TableNamesSpec(Name);
    if r :| 0 <= r < |StateCodes| && TableId(r) == featureId {
      ConsistentKeysAgree(data, r);
      StateValuesCorrespond(data, StateCodes[r].code, StateCodes[r].name);
    } else {
      assert featureId !in TableNames(Code) && featureId !in TableNames(Name);
      ConsistentKeysDefined(data);
      StateValuesCorrespond(data, "undefined", "undefined");
    }
  }
}
