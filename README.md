# Earthquake map: marker colours, marker style, popup and legend

This project models the self-contained logic of a small web page. The page
plots a week of earthquakes on a Leaflet map. The logic lives in
`static/js/logic.js` and has three parts:

- `markerColor(magnitude)` sorts a magnitude into one of seven colour buckets.
  It compares with strict `>` against 5, 4, 3, 2, 1 and 0, giving Red, Orange,
  Yellow, Green, Blue, Purple and White.
- For each feature, `pointToLayer` builds the options object of a circle
  marker. The radius is five times the magnitude, the fill opacity is a fifth of
  it, and the fill colour is the bucket colour. `onEachFeature` builds the popup
  HTML from the place, the magnitude and the date.
- `legend.onAdd` creates a `div`. It loops over the breakpoints
  `[0, 1, 2, 3, 4, 5]` and appends one swatch-and-label fragment per breakpoint
  to the `div`'s `innerHTML`.

Modules:

- `Colors` (colors.dfy): the classifier, the bucket table it is proved
  against, and the severity order.
- `Text` (text.dfy): decimal rendering of integers, concatenation of
  fragments, and substring occurrence.
- `Markers` (markers.dfy): the feature record, the options literal evaluated
  with JavaScript's rule for duplicate keys, and the popup.
- `Legend` (legend.dfy): the fragment functions, a `Div` class with the
  `innerHTML` field updated in place, and the loop as a method.

Modelling decisions:

- Magnitudes are Dafny `real`s, so `mag * 5` and `mag / 5` are exact.
- A colour is a datatype. `Colors.Name` gives the string the source returns.
- The options object is a list of `(property, value)` entries, written in
  source order and including the duplicate `fillColor` key. `Markers.ObjectOf`
  evaluates the list so that a later key overrides an earlier one. This makes
  the override of the literal `"White"` by `markerColor(mag)` a proved fact.
- The source tests `grades[i + 1] ? … : '+'`. This is JavaScript truthiness, and
  `Legend.Truthy` models it exactly: the index must be in range and the value
  non-zero. For the shown breakpoints this is the same as "a next breakpoint
  exists" (`Legend.TruthyIsNextInRange`). A zero after the first breakpoint would
  also end a label with "+" (`Legend.ZeroNextGradeEndsRange`). The shown
  `grades` has no such zero.
- The source assigns `grades` as an undeclared global inside `onAdd`. Here it
  is the module constant `Legend.Grades`. The loop `Legend.AppendEntries` takes
  the breakpoints as a parameter.
- Inputs the page does not compute are opaque strings in `Markers.Feature`:
  `timeText` is what `new Date(time)` becomes under `+`, and `magText` is what
  `mag` becomes under `+`.

## Model

The functions that compute what the page computes (`Colors.Name`,
`Markers.PropName`, `Markers.ObjectOf`, `Markers.StyleLiteral`, `Markers.MarkerStyle`,
`Markers.Popup`, `Legend.Truthy`, `Legend.Swatch`, `Legend.Label`,
`Legend.Fragment`, `Text.IntToString`) carry no contract of their own. Each one
is characterised by the lemma named in the row that cites its lines.

| member | source | states |
|---|---|---|
| Colors.MarkerColor | static/js/logic.js:5-21 | the returned colour's bucket (Lower, Upper] contains the magnitude |
| Colors.BucketsPartition | static/js/logic.js:6-19 | a magnitude is in a colour's bucket if and only if that colour is the one returned, so the seven buckets partition the reals |
| Colors.RankCountsThresholds | static/js/logic.js:6-19 | the severity rank of the returned colour (White 0 … Red 6) equals the number of thresholds 0,1,2,3,4,5 strictly below the magnitude |
| Colors.CountBelowMonotone | static/js/logic.js:6-19 | the count of thresholds below a magnitude never decreases as the magnitude grows |
| Colors.MarkerColorMonotone | static/js/logic.js:5-20 | a larger magnitude never gets a less severe colour |
| Colors.NameInjective | static/js/logic.js:7-19 | `Colors.Name`, the string `markerColor` returns for each colour: the seven strings are pairwise distinct |
| Colors.MarkerColorBoundaries | static/js/logic.js:6-19 | buckets are closed above: 5 gives Orange, 5.01 Red, 4 Yellow, 1 Purple, 0 and -1 White |
| Text.ParseNatToString | static/js/logic.js:104-105 | `Text.NatToString`, the decimal text of a non-negative breakpoint: it reads back as the same number |
| Text.NoLeadingZero | static/js/logic.js:104-105 | `Text.NatToString` of a number of two or more digits does not start with '0', so it is the canonical decimal form |
| Text.IntToStringReadsBack | static/js/logic.js:105 | `Text.IntToString`, `grades[i]` under `+`: a negative number is '-' followed by the digits of its absolute value, and both cases read back as the number |
| Markers.PropNameInjective | static/js/logic.js:44-52 | `Markers.PropName`, the key strings of the options literal: the six names are pairwise distinct, so the `Prop` keys compare as the strings do |
| Markers.ObjectOfKeys | static/js/logic.js:44-52 | `Markers.ObjectOf`, the evaluation of an object literal: the object has exactly the keys written in it |
| Markers.ObjectOfLastWins | static/js/logic.js:46-51 | `Markers.ObjectOf`: a key takes the value of its last occurrence in the literal |
| Markers.MarkerStyleFields | static/js/logic.js:44-52 | `Markers.MarkerStyle`, the object `Markers.StyleLiteral` evaluates to: exactly radius = mag*5, fillOpacity = mag/5, fillColor = markerColor(mag), color "Black", weight 1 and opacity 1 |
| Markers.WhiteFillColorIsDead | static/js/logic.js:46-51 | dropping the `fillColor: "White"` entry from `Markers.StyleLiteral` leaves the options object unchanged |
| Markers.PopupShape | static/js/logic.js:34-36 | `Markers.Popup`: its length is that of the three texts plus 44, and it holds the place at 4, "Magnitude: " + magnitude text after it, and the time text, each at a fixed offset |
| Markers.PopupInjective | static/js/logic.js:34-36 | `Markers.Popup`: when place and magnitude text contain no '<', equal popups come from equal place, magnitude text and time text |
| Markers.ExampleFeature | static/js/logic.js:34-51 | a magnitude-4.5 feature gets fill colour Orange, radius 22.5 and fill opacity 0.9, and its popup contains the place and "Magnitude: 4.5" |
| Legend.Div.constructor | static/js/logic.js:101 | the created element has the given class name and empty markup |
| Legend.AppendEntries | static/js/logic.js:103-106 | afterwards the markup is the old markup followed by the fragments (`Legend.Fragment`) for breakpoints 0..n-1, in order, and nothing else; the class name is unchanged |
| Legend.OnAdd | static/js/logic.js:99-108 | returns a fresh "info legend" element whose markup is the legend for the breakpoints 0..5 |
| Legend.TruthyIsNextInRange | static/js/logic.js:105 | `Legend.Truthy`, the test `grades[i + 1] ?`: for the shown breakpoints it holds exactly when a next breakpoint exists |
| Legend.SwatchColours | static/js/logic.js:104 | the swatch colour (`Legend.SwatchColor`, shown by `Legend.Swatch`) of entry i is `markerColor(grades[i] + 1)`: Purple, Blue, Green, Yellow, Orange, Red, with rank i + 1 |
| Legend.UnitRangeOneColour | static/js/logic.js:104 | every magnitude in (g, g + 1], g an integer, has the colour of g + 1 |
| Legend.SwatchIsBucketOfLabel | static/js/logic.js:104-105 | each swatch is the marker colour of every magnitude in the range its label names, including "above 5" for the last entry |
| Legend.LabelsOfGrades | static/js/logic.js:105 | `Legend.Label` for the shown breakpoints: "i&ndash;i+1<br>" for the first five entries and "5+", with no line break, for the last |
| Legend.LegendOfGrades | static/js/logic.js:102-106 | `Legend.Fragment` over the shown breakpoints: exactly six fragments, fragment i the swatch of the i-th shown colour followed by the i-th shown label |
| Legend.LastEntry | static/js/logic.js:104-105 | the last fragment is exactly a red swatch followed by "5+" |
| Legend.ZeroNextGradeEndsRange | static/js/logic.js:105 | `Legend.Truthy` is truthiness, not a bounds check: with breakpoints -1, 0, 1 the first label is "-1+" |

## Left out

- The `d3.json` fetch and its callback (static/js/logic.js:24-27). This is network I/O with no logic of its own.
- The Leaflet constructions (`L.geoJSON`, `L.circleMarker`, `L.tileLayer`, `L.map`, `L.control`, `L.control.layers`). These are library calls whose internals are not part of this model. This includes the feature iteration of `L.geoJSON` (one marker per feature, in feed order) and the marker position taken from the geometry. The model covers the derivation for one feature only.
- `L.DomUtil.create` appears only as the `Legend.Div` constructor. The browser re-parses `innerHTML` on assignment; the model keeps the markup as the string that was assigned.
- Date formatting and JavaScript's number-to-string conversion of `mag`. Both depend on the host and locale, so they are the opaque inputs `timeText` and `magText`. The breakpoints are integers, so their conversion is modelled (`Text.IntToString`).
- Text.IntToString: gives plain decimal digits for every integer. JavaScript switches to exponent form ("1e+21") at magnitude 10^21 and above, so the model matches it only below that bound. The shown breakpoints are 0 to 5.
- IEEE floating point. `mag * 5` and `mag / 5` are exact real arithmetic. NaN or undefined from a missing `mag` is not modelled.
- Tile URLs, attribution text, `API_KEY`, map centre and zoom, the legend's "bottomright" position and the layer control's options (static/js/logic.js:63-95, 98, 116-118). These are configuration data with no behaviour.
