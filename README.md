# US colour map: data preparation and state table

A model of the data side of the `ng-d3-us-colormap` Angular component, which
colours a map of the United States by a value per state. The model covers:

- **Change detection** (`Colormap.CheckForChange`, `Colormap.OnChangesRedraws`):
  which input changes make `ngOnChanges` redraw.
- **What `drawMap` computes before handing shapes to d3**:
  - the value lookup `stateValues`, from the caller's records;
  - the name lookup `stateNames`, from the reference table;
  - the running `dataMin` / `dataMax`, started from `Number.MAX_VALUE` /
    `Number.MIN_VALUE`;
  - the three-point colour-scale domain `[dataMax, dataMax / len / 2, 0]`;
  - the fill of every map feature, with its `|| -1` fallback;
  - the `{ stateName, val }` object that the feature events emit;
  - the offsets `i / (n - 1)` of the legend's gradient stops.
- **The reference table `stateCodes`**: 60 rows of FIPS id, postal code and
  name (`States`).

Module `JsValues` holds the few JavaScript semantics the component relies on:

- numbers that may be NaN;
- truthiness;
- comparisons that are false on NaN;
- the exact values of the two sentinels;
- the way `d3.map` turns every key into a string.

That last point matters. A record without the selected property is stored
under the key `"undefined"`. A feature whose id is not in the table gets no
key, and so it reads its value from that same `"undefined"` entry
(`Colormap.UnknownFeature`).

The loops of `drawMap` are methods proved equal to fold functions:

- `BuildStateValues`, `BuildStateNames` and `ComputeExtent` are proved equal to
  `StateValues`, `StateNames` and `DataExtent`.
- `DrawMap` composes them.

The properties are lemmas about those functions. Module `Demo` states, as
lemmas, what the model gives for the demo application's four records.

These stand in for things outside the component:

- The d3 linear scale is a parameter `scaleLinear(domain, range)`, a function
  from a value to a colour.
- Map features are given as their numeric ids.
- Each record carries the number that `+d.value` produces.

## Model

| member | source | states |
|---|---|---|
| JsValues.Get | projects/ng-d3-us-colormap/src/lib/ng-d3-us-colormap.component.ts:67-68 | `d3.map.get` is `undefined` exactly when the key is absent, and the stored value otherwise |
| JsValues.OrElse | projects/ng-d3-us-colormap/src/lib/ng-d3-us-colormap.component.ts:125 | `x \|\| -1` is `x` when `x` is a truthy number, and `-1` when `x` is missing, NaN or zero |
| JsValues.KeyString | projects/ng-d3-us-colormap/src/lib/ng-d3-us-colormap.component.ts:67-68 | the string `d3.map` stores a key under: a present string is itself, an absent property is "undefined" |
| JsValues.KeyStringCollides | projects/ng-d3-us-colormap/src/lib/ng-d3-us-colormap.component.ts:86-88 | two keys share a stored string exactly when they are equal or one is absent and the other is the string "undefined" |
| JsValues.MinValueBetweenZeroAndOne | projects/ng-d3-us-colormap/src/lib/ng-d3-us-colormap.component.ts:97 | `Number.MIN_VALUE` (2^-1074) is strictly between 0 and 1 |
| JsValues.MaxValueAboveOne | projects/ng-d3-us-colormap/src/lib/ng-d3-us-colormap.component.ts:96 | `Number.MAX_VALUE` (2^1024 - 2^971) exceeds 1, so it is above MIN_VALUE |
| Colormap.CheckForChange | projects/ng-d3-us-colormap/src/lib/ng-d3-us-colormap.component.ts:47-55 | the callback runs if and only if the key is in `changes`, it is not the first change, and the previous and current values differ |
| Colormap.OnChangesRedraws | projects/ng-d3-us-colormap/src/lib/ng-d3-us-colormap.component.ts:36-44 | an input causes a redraw exactly when it is one of the four watched inputs and its check passes; there are at most four redraws and no input twice; the redraws follow the order of the checks (a subsequence of the four watched inputs); a batch of first changes redraws nothing |
| Colormap.SelectorOf | projects/ng-d3-us-colormap/src/lib/ng-d3-us-colormap.component.ts:84 | `stateSelectorType` is code if and only if `isUseStateCode` holds, and name otherwise |
| Colormap.RecordKey | projects/ng-d3-us-colormap/src/lib/ng-d3-us-colormap.component.ts:87 | a record is stored under the string of its `code` in code mode and of its `name` in name mode |
| Colormap.StateValues | projects/ng-d3-us-colormap/src/lib/ng-d3-us-colormap.component.ts:85-88 | the value lookup after the forEach; the last record sets its key to its own value (the keys and the winner of every key are in the lemmas below) |
| Colormap.PickedMembers | projects/ng-d3-us-colormap/src/lib/ng-d3-us-colormap.component.ts:36-44 | of the inputs checked in turn, exactly those whose check passes cause a redraw |
| Colormap.PickedInOrder | projects/ng-d3-us-colormap/src/lib/ng-d3-us-colormap.component.ts:36-44 | the redraws happen in the order of the checks, and there are no more of them than checks |
| Colormap.PickedDistinct | projects/ng-d3-us-colormap/src/lib/ng-d3-us-colormap.component.ts:36-44 | when the checked inputs are distinct, none redraws twice |
| Colormap.PickedNone | projects/ng-d3-us-colormap/src/lib/ng-d3-us-colormap.component.ts:36-44 | when no check passes, nothing is redrawn |
| Colormap.StateValuesKeys | projects/ng-d3-us-colormap/src/lib/ng-d3-us-colormap.component.ts:84-88 | the value lookup's keys are exactly the keys the records carry under the selected property, with "undefined" for a missing one |
| Colormap.StateValuesLastWins | projects/ng-d3-us-colormap/src/lib/ng-d3-us-colormap.component.ts:86-88 | the last record carrying a key decides that key's value |
| Colormap.StateValuesMissing | projects/ng-d3-us-colormap/src/lib/ng-d3-us-colormap.component.ts:84-88 | a key no record carries is absent from the value lookup |
| Colormap.BuildStateValues | projects/ng-d3-us-colormap/src/lib/ng-d3-us-colormap.component.ts:84-88 | the forEach loop yields the value lookup `StateValues(data, sel)` |
| Colormap.StateNames | projects/ng-d3-us-colormap/src/lib/ng-d3-us-colormap.component.ts:90-93 | the name lookup after the forEach; the last row sets its numeric id to its key (keys, entries and size are in the lemmas below) |
| Colormap.StateNamesKeys | projects/ng-d3-us-colormap/src/lib/ng-d3-us-colormap.component.ts:90-93 | the name lookup's keys are exactly the rows' numeric ids |
| Colormap.StateNamesAt | projects/ng-d3-us-colormap/src/lib/ng-d3-us-colormap.component.ts:90-93 | with distinct ids, each row's id maps to that row's code or name |
| Colormap.StateNamesSize | projects/ng-d3-us-colormap/src/lib/ng-d3-us-colormap.component.ts:90-93 | with distinct ids the lookup has one entry per row, so nothing is overwritten |
| Colormap.TableNames | projects/ng-d3-us-colormap/src/lib/ng-d3-us-colormap.component.ts:90-93 | the name lookup of the reference table has exactly 60 entries |
| Colormap.TableNamesSpec | projects/ng-d3-us-colormap/src/lib/ng-d3-us-colormap.component.ts:84-93 | for the reference table the name lookup is total over the 60 ids and has no other key; it maps each id to the row's code in code mode and to its name in name mode |
| Colormap.TableNamesInjective | projects/ng-d3-us-colormap/src/lib/ng-d3-us-colormap.component.ts:90-93 | in both modes no two ids share a key |
| Colormap.BuildStateNames | projects/ng-d3-us-colormap/src/lib/ng-d3-us-colormap.component.ts:90-93 | the forEach loop yields the name lookup `StateNames(rows, sel)` |
| Colormap.ExtentStep | projects/ng-d3-us-colormap/src/lib/ng-d3-us-colormap.component.ts:99-105 | one loop pass only lowers `dataMin` and raises `dataMax`, each to the record's value or not at all; afterwards a non-NaN value lies between them; NaN changes nothing |
| Colormap.DataExtent | projects/ng-d3-us-colormap/src/lib/ng-d3-us-colormap.component.ts:96-106 | after the loop, `dataMin` is at most MAX_VALUE; `dataMax` is at least MIN_VALUE and so always positive |
| Colormap.ComputeExtent | projects/ng-d3-us-colormap/src/lib/ng-d3-us-colormap.component.ts:96-106 | the min/max loop, with its two independent comparisons that are false on NaN, yields `DataExtent(data)` |
| Colormap.DataExtentBounds | projects/ng-d3-us-colormap/src/lib/ng-d3-us-colormap.component.ts:96-106 | `dataMin` is at most and `dataMax` at least every non-NaN value; each bound is its sentinel or some record's value |
| Colormap.DataExtentWithoutNumbers | projects/ng-d3-us-colormap/src/lib/ng-d3-us-colormap.component.ts:96-106 | empty or all-NaN data leaves both sentinels, with `dataMin > dataMax` |
| Colormap.ScaleDomain | projects/ng-d3-us-colormap/src/lib/ng-d3-us-colormap.component.ts:108-110 | the domain is `[dataMax, m, 0]`; with at least one colour the middle `m` lies in `[0, dataMax]`, so the domain is non-increasing; over exact reals it is moreover `0 < m <= dataMax / 2 < dataMax` with `m * 2 * len == dataMax`; with no colour the middle is Infinity |
| Colormap.GetStateData | projects/ng-d3-us-colormap/src/lib/ng-d3-us-colormap.component.ts:66-70 | `stateName` is defined exactly when the id is in the name lookup, and is its entry; `val` is defined exactly when the key string of `stateName` (or "undefined") is in the value lookup, and is then the value stored under it |
| Colormap.FillColor | projects/ng-d3-us-colormap/src/lib/ng-d3-us-colormap.component.ts:122-130 | the fill is `colorScale(v)` exactly when getStateData's `val` is a positive number `v`; it is `noEntryColor` when `val` is missing, NaN, zero or negative |
| Colormap.StopOffset | projects/ng-d3-us-colormap/src/lib/ng-d3-us-colormap.component.ts:165 | the offset is NaN exactly when there is one colour, and otherwise the `x` with `x * (n - 1) == i` |
| Colormap.LegendStops | projects/ng-d3-us-colormap/src/lib/ng-d3-us-colormap.component.ts:161-166 | one stop per colour of the range, in range order, each with that colour and offset `i / (n - 1)` |
| Colormap.StopOffsetsSpan | projects/ng-d3-us-colormap/src/lib/ng-d3-us-colormap.component.ts:165 | for n >= 2 the offsets start at 0, end at 1, lie in [0, 1] and strictly increase; for one colour the offset is 0/0 = NaN |
| Colormap.FeatureFill | projects/ng-d3-us-colormap/src/lib/ng-d3-us-colormap.component.ts:122-130 | a feature's fill is the scale's colour of getStateData's `val` when that is a positive number, and `noEntryColor` otherwise, with the lookups and domain drawMap builds |
| Colormap.DrawMap | projects/ng-d3-us-colormap/src/lib/ng-d3-us-colormap.component.ts:65-166 | drawMap's result: the domain from the data's `dataMax`, one fill per feature as `FeatureFill` gives it, and the legend stops of the colour range |
| Colormap.KnownFeatureWithRecord | projects/ng-d3-us-colormap/src/lib/ng-d3-us-colormap.component.ts:122-130 | a table state whose key a record carries gets the scale's colour of the last such record's value if that value is positive, else `noEntryColor` |
| Colormap.KnownFeatureWithoutRecord | projects/ng-d3-us-colormap/src/lib/ng-d3-us-colormap.component.ts:122-130 | a table state whose key no record carries gets `noEntryColor` |
| Colormap.UnknownFeature | projects/ng-d3-us-colormap/src/lib/ng-d3-us-colormap.component.ts:66-130 | an id missing from the table has no `stateName`; it gets `noEntryColor` if no record's key string is "undefined" (the property missing, or the string "undefined"); otherwise the colour of the last such record's value, when that value is positive |
| Colormap.StateValuesCorrespond | projects/ng-d3-us-colormap/src/lib/ng-d3-us-colormap.component.ts:84-88 | two keys carried by the same records look up the same value in the code-mode and name-mode lookups |
| Colormap.ConsistentKeysAgree | projects/ng-d3-us-colormap/src/lib/ng-d3-us-colormap.component.ts:84-88 | when every record names one table row consistently, a row's code and its name are carried by the same records |
| Colormap.ConsistentKeysDefined | projects/ng-d3-us-colormap/src/lib/ng-d3-us-colormap.component.ts:84-88 | such records are never stored under "undefined" in either mode |
| Colormap.ModeSwitchKeepsFills | projects/ng-d3-us-colormap/src/lib/ng-d3-us-colormap.component.ts:84-130 | when every record gives the code and the name of one table row, `isUseStateCode` does not change any feature's fill |
| States.Block0IdsWellFormed | projects/ng-d3-us-colormap/src/lib/map-info/states.ts:2-101 | the ids of rows 1-20 are decimal numerals |
| States.Block1IdsWellFormed | projects/ng-d3-us-colormap/src/lib/map-info/states.ts:102-201 | the ids of rows 21-40 are decimal numerals |
| States.Block2IdsWellFormed | projects/ng-d3-us-colormap/src/lib/map-info/states.ts:202-301 | the ids of rows 41-60 are decimal numerals |
| States.Block0IdsAscending | projects/ng-d3-us-colormap/src/lib/map-info/states.ts:2-101 | the ids of rows 1-20 increase from row to row |
| States.Block1IdsAscending | projects/ng-d3-us-colormap/src/lib/map-info/states.ts:102-201 | the ids of rows 21-40 increase from row to row |
| States.Block2IdsAscending | projects/ng-d3-us-colormap/src/lib/map-info/states.ts:202-301 | the ids of rows 41-60 increase from row to row |
| States.IdsAscendingAppend | projects/ng-d3-us-colormap/src/lib/map-info/states.ts:2-301 | two ascending runs of rows join into one when the last id of the first is below the first id of the second |
| States.IdsAscendingPairwise | projects/ng-d3-us-colormap/src/lib/map-info/states.ts:2-301 | ids that increase from row to row increase between any two rows |
| States.StateCodesIdsStepwise | projects/ng-d3-us-colormap/src/lib/map-info/states.ts:1-302 | the table has 60 rows, and their ids increase from row to row |
| States.StateCodesIdsAscending | projects/ng-d3-us-colormap/src/lib/map-info/states.ts:1-302 | the table has exactly 60 rows; its ids, read as numbers, strictly increase from 1 (row 1) to 78 (row 60), so they are distinct |
| States.Block0KeysWellFormed | projects/ng-d3-us-colormap/src/lib/map-info/states.ts:2-101 | rows 1-20 have two-upper-case-letter codes and capitalised names |
| States.Block1KeysWellFormed | projects/ng-d3-us-colormap/src/lib/map-info/states.ts:102-201 | rows 21-40 have two-upper-case-letter codes and capitalised names |
| States.Block2KeysWellFormed | projects/ng-d3-us-colormap/src/lib/map-info/states.ts:202-301 | rows 41-60 have two-upper-case-letter codes and capitalised names |
| States.Block0CodesDistinct | projects/ng-d3-us-colormap/src/lib/map-info/states.ts:2-101 | codes of rows 1-20 are distinct |
| States.Block1CodesDistinct | projects/ng-d3-us-colormap/src/lib/map-info/states.ts:102-201 | codes of rows 21-40 are distinct |
| States.Block2CodesDistinct | projects/ng-d3-us-colormap/src/lib/map-info/states.ts:202-301 | codes of rows 41-60 are distinct |
| States.Block0NamesDistinct | projects/ng-d3-us-colormap/src/lib/map-info/states.ts:2-101 | names of rows 1-20 are distinct |
| States.Block1NamesDistinct | projects/ng-d3-us-colormap/src/lib/map-info/states.ts:102-201 | names of rows 21-40 are distinct |
| States.Block2NamesDistinct | projects/ng-d3-us-colormap/src/lib/map-info/states.ts:202-301 | names of rows 41-60 are distinct |
| States.Blocks01CodesApart | projects/ng-d3-us-colormap/src/lib/map-info/states.ts:2-201 | no code of rows 1-20 reappears in rows 21-40 |
| States.Blocks02CodesApart | projects/ng-d3-us-colormap/src/lib/map-info/states.ts:2-301 | no code of rows 1-20 reappears in rows 41-60 |
| States.Blocks12CodesApart | projects/ng-d3-us-colormap/src/lib/map-info/states.ts:102-301 | no code of rows 21-40 reappears in rows 41-60 |
| States.Blocks01NamesApart | projects/ng-d3-us-colormap/src/lib/map-info/states.ts:2-201 | no name of rows 1-20 reappears in rows 21-40 |
| States.Blocks02NamesApart | projects/ng-d3-us-colormap/src/lib/map-info/states.ts:2-301 | no name of rows 1-20 reappears in rows 41-60 |
| States.Blocks12NamesApart | projects/ng-d3-us-colormap/src/lib/map-info/states.ts:102-301 | no name of rows 21-40 reappears in rows 41-60 |
| States.KeysDistinctAppend | projects/ng-d3-us-colormap/src/lib/map-info/states.ts:2-301 | two runs with distinct keys, apart from each other, join into a run with distinct keys |
| States.KeysApartAppend | projects/ng-d3-us-colormap/src/lib/map-info/states.ts:2-301 | a run apart from two runs is apart from their concatenation |
| States.StateCodesKeysDistinct | projects/ng-d3-us-colormap/src/lib/map-info/states.ts:4-300 | every code is two upper-case letters, every name is capitalised, and in each mode (codes, names) all 60 keys are distinct |
| States.KeyIdentifiesRow | projects/ng-d3-us-colormap/src/lib/map-info/states.ts:2-301 | two rows share a code (or a name) if and only if they are the same row |
| States.CodeNameBijection | projects/ng-d3-us-colormap/src/lib/map-info/states.ts:2-301 | two rows share a code if and only if they share a name: codes and names are in bijection |
| States.NoKeyIsUndefined | projects/ng-d3-us-colormap/src/lib/map-info/states.ts:4-300 | no code or name is the string "undefined", so a record without the selected property never matches a state |
| Demo.PrefixesOfDemoData | src/app/app.component.ts:11-29 | proof helper: the slice identities of the four-record literal that the demo lemmas unfold the folds through |
| Demo.DemoCodeModeValues | src/app/app.component.ts:11-29 | in code mode all four demo records, which lack `code`, land on "undefined", and Texas's 43 wins |
| Demo.DemoCodeModeMatchesNothing | src/app/app.component.ts:11-29 | under the default `isUseStateCode = true` no state of the table is coloured by the demo data |
| Demo.DemoExtent | src/app/app.component.ts:11-29 | the demo's values run from 0 to 43 |
| Demo.DemoFloridaFill | src/app/app.component.ts:12-15 | in name mode Florida takes the scale's colour of 2 |
| Demo.DemoTennesseeFill | src/app/app.component.ts:21-24 | in name mode Tennessee takes the scale's colour of 9 |
| Demo.DemoTexasFill | src/app/app.component.ts:25-28 | in name mode Texas takes the scale's colour of 43 |
| Demo.DemoNameModeFills | src/app/app.component.ts:11-29 | in name mode Florida, Tennessee and Texas take the scale's colours of 2, 9 and 43 |
| Demo.DemoOregonFallsBack | src/app/app.component.ts:18-20 | in name mode Oregon's value '0' is falsy, so Oregon gets `noEntryColor` |
| Demo.DemoNameModeOthersFallBack | src/app/app.component.ts:11-29 | in name mode every other state gets `noEntryColor` |

## Left out

- SVG and DOM construction through d3 is not modelled: `select`, `append`,
  `attr`, `remove`, the path generator, the axis and the gradient elements.
  It is rendering through a foreign library. The axis scale's domain
  `[0, dataMax]` is not modelled either.
- topojson geometry is not modelled. The features are given as a sequence of
  numeric ids standing for `+d.id`. `us-10m.v1` is not part of this model.
- The interpolation inside `d3.scaleLinear` is left out. The scale is a
  parameter of the model, a function from a domain and a range to a colour
  function.
- Layout arithmetic is left out: the bounding box, `window.innerWidth`, the
  0.618 height factor, the viewBox and the final scale transform. It is
  presentational and depends on the environment.
- `containerSelector` is computed once, when the component is built, from the
  initial `chartId`. So the redraw after a `chartId` change still draws into
  `#united-states`. `OnChangesRedraws` models only that `drawMap` runs; the DOM
  target it draws into is outside the model.
- Resize handling (`onResize`, `setTimeout`) is left out because it is
  timer behaviour. The code schedules one redraw for every resize event and
  never cancels one, so it is not a debounce.
- Angular lifecycle and outputs are left out as framework plumbing: the call
  from `ngAfterViewInit`, `EventEmitter.emit`, and the `tooltipTextFn` input.
  `GetStateData` models only the object the events emit.
- The coercion of a value by unary `+` is left out: each record already
  carries the number it coerces to.
- Numbers are exact reals or NaN. Rounding to binary64 and Infinity as a data
  value are not modelled. The only Infinity is the domain's middle point when
  there are no colours.
- Colormap.CheckForChange: `!==` is modelled as equality of values of one
  type, so JavaScript reference identity of arrays and objects is not captured.
- Colormap.ScaleDomain: the middle point is computed over exact reals, so its
  positivity and the strict decrease of the domain hold only there. In
  binary64 the default empty `data` (and all-NaN data, or data without a
  positive value) leaves `dataMax = Number.MIN_VALUE`, and
  `MIN_VALUE / len / 2` underflows to 0: the program's domain is then
  `[MIN_VALUE, 0, 0]`, non-increasing but not strictly decreasing.
- DataRecord: a record's `code` and `name` are strings or missing. Other
  property values, which `d3.map` would store under their string form (for
  example `null` under "null"), are not modelled.
- Colormap.ComputeExtent: `dataMin` is computed but nothing downstream uses
  it, so no property beyond its bounds is stated.
- The table is written as three blocks of twenty rows, in the source's order.
  This changes only how it is stated, not its contents.
- Module boilerplate is left out: the two `*.module.ts` files, the
  smoke test, and `src/app/lib/states.ts`, whose data file is not part of
  this model.
