/**
 * The demo application's data (src/app/app.component.ts): four records keyed
 * by `name` only, with the values the demo gives ('2', '0', '9' and 43), here
 * already coerced by `+`. Under the component's default `isUseStateCode =
 * true` none of them matches a state; in name mode Florida, Tennessee and
 * Texas are coloured and Oregon, whose value is zero, falls back.
 */
module Demo {
  import opened JsValues
  import opened States
  import opened Colormap

  const DemoData: seq<DataRecord> := [
    DataRecord(None, Some("Florida"), Finite(2.0)),
    DataRecord(None, Some("Oregon"), Finite(0.0)),
    DataRecord(None, Some("Tennessee"), Finite(9.0)),
    DataRecord(None, Some("Texas"), Finite(43.0))
  ]

  /** The prefixes the left folds over the demo data unfold through. */
  lemma PrefixesOfDemoData()
    ensures DemoData[..1][..0] == []
    ensures DemoData[..2][..1] == DemoData[..1]
    ensures DemoData[..3][..2] == DemoData[..2]
    ensures DemoData[..4][..3] == DemoData[..3]
    ensures DemoData[..4] == DemoData
  {
  }

  /**
   * In code mode every demo record lacks `code`, so all four land on the key
   * "undefined" and the last one, Texas's 43, wins.
   */
  lemma DemoCodeModeValues()
    ensures StateValues(DemoData, Code) == map["undefined" := Finite(43.0)]
  {
    PrefixesOfDemoData();
    assert StateValues(DemoData[..1], Code) == map["undefined" := Finite(2.0)];
    assert StateValues(DemoData[..2], Code) == map["undefined" := Finite(0.0)];
    assert StateValues(DemoData[..3], Code) == map["undefined" := Finite(9.0)];
  }

  /** In code mode no state of the table gets a colour from the demo data. */
  lemma DemoCodeModeMatchesNothing<C>(colors: seq<C>, noEntryColor: C,
                                      scaleLinear: (ColorDomain, seq<C>) -> (real -> C), r: nat)
    requires r < |StateCodes|
    ensures FeatureFill(Inputs(DemoData, colors, noEntryColor, true), scaleLinear, TableId(r)) == noEntryColor
  {
    NoKeyIsUndefined(r, Code);
    KnownFeatureWithoutRecord(Inputs(DemoData, colors, noEntryColor, true), scaleLinear, r);
  }

  /** The demo's values run from 0 (Oregon) to 43 (Texas). */
  lemma DemoExtent()
    ensures DataExtent(DemoData) == Extent(0.0, 43.0)
  {
    MaxValueAboveOne();
    MinValueBetweenZeroAndOne();
    PrefixesOfDemoData();
    assert DataExtent(DemoData[..1]) == Extent(2.0, 2.0);
    assert DataExtent(DemoData[..2]) == Extent(0.0, 2.0);
    assert DataExtent(DemoData[..3]) == Extent(0.0, 9.0);
  }

  /** In name mode Florida (row 9, record 0) takes the scale's colour of 2. */
  lemma DemoFloridaFill<C>(colors: seq<C>, noEntryColor: C, scaleLinear: (ColorDomain, seq<C>) -> (real -> C))
    ensures var inputs := Inputs(DemoData, colors, noEntryColor, false);
      FeatureFill(inputs, scaleLinear, TableId(9)) == scaleLinear(DomainOf(inputs), colors)(2.0)
  {
    assert StateCodes[9].name == "Florida";
    KnownFeatureWithRecord(Inputs(DemoData, colors, noEntryColor, false), scaleLinear, 9, 0);
  }

  /** In name mode Tennessee (row 42, record 2) takes the scale's colour of 9. */
  lemma DemoTennesseeFill<C>(colors: seq<C>, noEntryColor: C, scaleLinear: (ColorDomain, seq<C>) -> (real -> C))
    ensures var inputs := Inputs(DemoData, colors, noEntryColor, false);
      FeatureFill(inputs, scaleLinear, TableId(42)) == scaleLinear(DomainOf(inputs), colors)(9.0)
  {
    assert StateCodes[42].name == "Tennessee";
    KnownFeatureWithRecord(Inputs(DemoData, colors, noEntryColor, false), scaleLinear, 42, 2);
  }

  /** In name mode Texas (row 43, record 3) takes the scale's colour of 43. */
  lemma DemoTexasFill<C>(colors: seq<C>, noEntryColor: C, scaleLinear: (ColorDomain, seq<C>) -> (real -> C))
    ensures var inputs := Inputs(DemoData, colors, noEntryColor, false);
      FeatureFill(inputs, scaleLinear, TableId(43)) == scaleLinear(DomainOf(inputs), colors)(43.0)
  {
    assert StateCodes[43].name == "Texas";
    KnownFeatureWithRecord(Inputs(DemoData, colors, noEntryColor, false), scaleLinear, 43, 3);
  }

  /** In name mode Florida, Tennessee and Texas take the scale's colour of 2, 9 and 43. */
  lemma DemoNameModeFills<C>(colors: seq<C>, noEntryColor: C, scaleLinear: (ColorDomain, seq<C>) -> (real -> C))
    ensures var inputs := Inputs(DemoData, colors, noEntryColor, false);
      var scale := scaleLinear(DomainOf(inputs), colors);
      && FeatureFill(inputs, scaleLinear, TableId(9)) == scale(2.0)
      && FeatureFill(inputs, scaleLinear, TableId(42)) == scale(9.0)
      && FeatureFill(inputs, scaleLinear, TableId(43)) == scale(43.0)
  {
    DemoFloridaFill(colors, noEntryColor, scaleLinear);
    DemoTennesseeFill(colors, noEntryColor, scaleLinear);
    DemoTexasFill(colors, noEntryColor, scaleLinear);
  }

  /** Oregon is matched in name mode, but its value '0' is falsy and it falls back. */
  lemma DemoOregonFallsBack<C>(colors: seq<C>, noEntryColor: C, scaleLinear: (ColorDomain, seq<C>) -> (real -> C))
    ensures FeatureFill(Inputs(DemoData, colors, noEntryColor, false), scaleLinear, TableId(37)) == noEntryColor
  {
    assert StateCodes[37].name == "Oregon";
    KnownFeatureWithRecord(Inputs(DemoData, colors, noEntryColor, false), scaleLinear, 37, 1);
  }

  /** No demo record names a table row other than Florida, Oregon, Tennessee or Texas. */
  lemma DemoNamesOnlyFour(r: nat)
    requires r < |StateCodes| && r != 9 && r != 37 && r != 42 && r != 43
    ensures forall i :: 0 <= i < |DemoData| ==> RecordKey(DemoData[i], Name) != StateCodes[r].name
  {
    assert StateCodes[9].name == "Florida" && StateCodes[37].name == "Oregon";
    assert StateCodes[42].name == "Tennessee" && StateCodes[43].name == "Texas";
    KeyIdentifiesRow(r, 9, Name);
    KeyIdentifiesRow(r, 37, Name);
    KeyIdentifiesRow(r, 42, Name);
    KeyIdentifiesRow(r, 43, Name);
  }

  /** The demo colours three regions at most: every other table row falls back in name mode. */
  lemma DemoNameModeOthersFallBack<C>(colors: seq<C>, noEntryColor: C,
                                      scaleLinear: (ColorDomain, seq<C>) -> (real -> C), r: nat)
    requires r < |StateCodes| && r != 9 && r != 42 && r != 43
    ensures FeatureFill(Inputs(DemoData, colors, noEntryColor, false), scaleLinear, TableId(r)) == noEntryColor
  {
    if r == 37 {
      DemoOregonFallsBack(colors, noEntryColor, scaleLinear);
    } else {
      DemoNamesOnlyFour(r);
      KnownFeatureWithoutRecord(Inputs(DemoData, colors, noEntryColor, false), scaleLinear, r);
    }
  }
}
