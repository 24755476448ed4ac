# Earthquake map visual encoding, in Dafny

This project models the pure logic of the earthquake map script
`static/js/logic.js`. The script draws USGS earthquakes on a Leaflet map.
It encodes magnitude as circle radius and depth as fill colour, and it shows
a depth legend and a popup for each quake. Four pieces are modelled:

- `Encoding`: `chooseColor`, a six-bucket threshold cascade on depth, and
  `markerSize`, a linear scale on magnitude. Both take exact reals. Also the
  style options object the source builds for each circle marker.
- `Legend`: the legend loop. It walks the breakpoint array
  `[-10, 10, 30, 50, 70, 90]` and emits one swatch-and-label row per entry.
- `Numeral`: how JavaScript renders the integer breakpoints when it joins
  them into the label strings, with a parser that inverts it. This holds for
  integers of magnitude at most 2^53, which covers every breakpoint.
- `Popup`: the popup HTML built by concatenating place, date and magnitude.

The classifier has an independent reference definition: a first-match lookup
over a descending bucket table, plus a count of the thresholds a depth
exceeds. The classifier is proved equal to both. The legend is proved to
agree with the classifier. Labels are proved to read `low&ndash;high<br>`
except on the last row. Numerals are proved to round-trip through their
parser. Popups round-trip through theirs when the place and the date contain
no `<`; without that condition two different sets of fields can give the same popup
text
(`Popup.PopupNotInjective`).

Points about the code worth knowing:

- The legend does not read the classifier's thresholds. It has its own
  breakpoint array and samples `chooseColor(depth[i] + 1)`.
  `Legend.LegendAgreesWithClassifier` proves the two agree for that array.
- The label's "is there a next row" test is JavaScript truthiness of
  `depth[i + 1]`, not a bounds check. A 0 entry would end a range label early.
  `Legend.Truthy` models this and `Legend.ZeroBreakpointEndsRange` shows it.
  The source's own array has no 0, so its legend is unaffected.
- The lime row is labelled `-10–10`, but lime covers every depth up to 10,
  including depths below -10 (`Legend.LegendAgreesWithClassifier`, third clause).

## Model

| member | source | states |
|---|---|---|
| Encoding.ChooseColor | static/js/logic.js:106-117 | each colour is returned exactly on its own interval: red iff depth > 90, orangered iff 70 < depth <= 90, …, lime iff depth <= 10 |
| Encoding.BucketsPartition | static/js/logic.js:108-113 | every depth lies in exactly one bucket's half-open interval (lower, upper], and that bucket's colour is the one chosen |
| Encoding.BucketsContiguous | static/js/logic.js:108-113 | the buckets leave no gap: each tier's inclusive upper bound is the next tier's exclusive lower bound |
| Encoding.ThresholdsAreExclusive | static/js/logic.js:108-113 | a depth equal to a threshold gets the lower bucket (90 is orangered, 10 is lime); any depth above 90 is red; every depth <= 10, negative ones included, is lime |
| Encoding.NameInjective | static/js/logic.js:107-113 | the six CSS colour keywords are pairwise distinct |
| Encoding.Lookup | static/js/logic.js:107-115 | a first-match lookup returns the colour of the first entry whose bound is exceeded, with every earlier bound not exceeded, or the fallback when none is exceeded |
| Encoding.ChooseColorMatchesTable | static/js/logic.js:108-113 | the cascade equals the first-match lookup over the descending table (90 red, 70 orangered, 50 orange, 30 gold, 10 greenyellow; else lime) |
| Encoding.TierCountsExceededBounds | static/js/logic.js:108-113 | the tier of the chosen colour equals the number of thresholds the depth strictly exceeds |
| Encoding.ChooseColorMonotone | static/js/logic.js:108-113 | a deeper quake never gets a lower-tier colour |
| Encoding.MarkerSize | static/js/logic.js:102-104 | the radius is positive exactly for positive magnitudes, zero exactly at zero, and divided by 4 gives the magnitude back |
| Encoding.MarkerSizeStrictlyIncreasing | static/js/logic.js:102-104 | the radius is strictly increasing in magnitude (both directions) and additive, so the scale is linear |
| Encoding.StyleFor | static/js/logic.js:122-130 | a marker's fill colour is the bucket containing the quake's depth, its radius is four times the magnitude, and fill opacity 0.7, black stroke and weight 0.6 are fixed |
| Numeral.NatToString | static/js/logic.js:157 | a natural number renders as a non-empty digit string with no leading zero, one digit exactly below 10 |
| Numeral.IntToString | static/js/logic.js:157 | an integer renders as a non-empty string that starts with `-` exactly when it is negative; `Numeral.IntToStringRoundTrip` and `Numeral.ParseIntRoundTrip` fix its value |
| Numeral.IntToStringRoundTrip | static/js/logic.js:157 | the rendering of every integer parses back to that integer |
| Numeral.ParseIntRoundTrip | static/js/logic.js:157 | every string that parses is the rendering of the integer it parses to, so rendering is a bijection onto canonical numerals |
| Legend.Rows | static/js/logic.js:154-158 | the loop emits exactly one row per breakpoint |
| Legend.RowsAt | static/js/logic.js:154-157 | row i's swatch is the colour of depth[i] + 1, and its label is built from depth[i] and the entry after it (ranged when that entry is truthy, open-ended otherwise) |
| Legend.Swatch | static/js/logic.js:156 | the swatch for breakpoint b is the colour of the bucket that holds depth b + 1 |
| Legend.Truthy | static/js/logic.js:157 | no contract of its own: it is JavaScript truthiness of `depth[i + 1]` (present and not 0); `Legend.RowsAt` and `Legend.ZeroBreakpointEndsRange` state its effect on labels |
| Legend.Label | static/js/logic.js:157 | no contract of its own: the ternary choosing `low&ndash;high<br>` or `low+`; `Legend.LabelShape` and `Legend.RowsAt` state its behaviour |
| Legend.LabelShape | static/js/logic.js:157 | a label starts with the numeral of its breakpoint and ends in `+` exactly when the next entry is not truthy |
| Legend.SwatchCoversUnitInterval | static/js/logic.js:156 | for an integer breakpoint b, every depth in (b, b + 1] gets the swatch colour sampled at b + 1 |
| Legend.LegendHasSixRows | static/js/logic.js:150-154 | the source's legend has exactly six rows, one per breakpoint |
| Legend.LegendSwatchesFollowTiers | static/js/logic.js:150-156 | row i's swatch has tier i: the first is lime, row i >= 1 is the bucket whose exclusive lower bound is depth[i], and the six colours are distinct and ascend |
| Legend.LegendAgreesWithClassifier | static/js/logic.js:150-157 | every depth in a row's announced range (depth[i], depth[i+1]] is classified as that row's colour; every depth above 90 gets the last row's colour; every depth at or below -10 gets the first row's |
| Legend.LegendLabels | static/js/logic.js:157 | rows 0 to 4 read `depth[i]&ndash;depth[i+1]<br>`, and only the last row reads `90+` |
| Legend.ZeroBreakpointEndsRange | static/js/logic.js:157 | the range test is truthiness: with a 0 as the next breakpoint, the row reads `-10+` |
| Legend.LegendRowsExact | static/js/logic.js:150-157 | the six rows are, in order, lime -10 to 10, greenyellow 10 to 30, gold 30 to 50, orange 50 to 70, orangered 70 to 90 (each a `low&ndash;high<br>` label), and red `90+` |
| Legend.BreakpointNumerals | static/js/logic.js:157 | the breakpoints render as `-10`, `10`, `30`, `50`, `70` and `90` in the labels |
| Legend.LegendHtmlInRowOrder | static/js/logic.js:152-157 | the markup the loop appends is the heading followed by the rows' markup in breakpoint order: each row's swatch-and-label markup comes after every earlier row's and before every later row's |
| Legend.RowHtml | static/js/logic.js:156-157 | no contract of its own: one row's markup; `Legend.RowHtmlShape` states its content |
| Legend.RowHtmlShape | static/js/logic.js:156-157 | a row's markup is exactly the opening of the `<i class="cirlce">` swatch element, the colour's CSS name as its background, the element's close and a space, then the row's label |
| Legend.RowsHtml | static/js/logic.js:154-158 | no contract of its own: the rows' markup appended one after another, as the loop's successive `innerHTML +=` do; `Legend.LegendHtmlInRowOrder` states where each row's markup sits |
| Legend.LegendHtml | static/js/logic.js:152-157 | the markup the loop appends starts with the heading; `Legend.LegendHtmlInRowOrder` states where each row's markup sits |
| Popup.PopupPositions | static/js/logic.js:18-19 | the popup is exactly the `<h4>Location: ` caption, the place, the `</h4><hr><p>Date: ` caption, the date, the `</p><hr><p>Magnitude: ` caption, the magnitude and `</p>`, each value verbatim |
| Popup.PopupText | static/js/logic.js:18-19 | no contract of its own: the concatenation of place, date and magnitude into fixed markup; `Popup.PopupPositions`, `Popup.DecodeRoundTrip` and `Popup.DecodeSound` state its behaviour |
| Popup.DecodeRoundTrip | static/js/logic.js:18-19 | when place and date contain no `<`, the three fields can be read back out of the popup unchanged |
| Popup.DecodeSound | static/js/logic.js:18-19 | every string that decodes is exactly the popup of the decoded fields |
| Popup.PopupNotInjective | static/js/logic.js:18-19 | no escaping is done: two different (place, date) pairs can produce the same popup text |

## Left out

- The two `d3.json` fetches and their nested callbacks (static/js/logic.js:8-11, 100, 137). These are network I/O and event-loop ordering.
- All Leaflet calls: tile layers, `L.map`, the layer control, `L.geoJSON`, `L.circleMarker`, `L.DomUtil`, and adding layers to the map. These belong to a foreign rendering library and mutate the DOM. This also leaves out the base and overlay layer switching and the map's centre and zoom (static/js/logic.js:25-98, 120-146, 161).
- `new Date(time)` formatting and JavaScript's rendering of a non-integer magnitude are host-library behaviour. The popup takes both as opaque strings.
- The duplicate earthquake fetch, and circle markers added to the same layer that already holds the default popup markers. These are layer-composition quirks of the library.
- Non-numeric input: in the source, a missing depth or magnitude (`undefined`, `NaN`) fails every `>` test and so colours lime, and it gives a `NaN` radius. The model takes reals only.
- Encoding.MarkerSize: modelled over exact reals. IEEE double rounding and overflow are not modelled. Multiplying by 4 is exact in binary floating point apart from overflow.
- Legend.LegendHtmlInRowOrder: states the appended markup as the heading plus the rows' markup in order. It does not write it out as one literal string. Together with `Legend.LegendRowsExact` and `Legend.BreakpointNumerals` it fixes the same text. It is the markup the loop appends with `div.innerHTML +=`, not what reading `innerHTML` back returns: the browser parses and re-serialises each append, so the heading comes back double-quoted and `&ndash;` as a literal dash. HTML parsing is not modelled.
- Numeral.IntToString: renders every integer as its exact decimal digits. JavaScript agrees for every integer of magnitude at most 2^53. Above that, an integer-valued number below 10^21 prints its shortest round-trip digits padded with zeros: 2^60 = 1152921504606846976 prints as `1152921504606847000`. From 10^21 upward JavaScript writes exponent notation such as `1e+21`. The legend's breakpoints lie far inside this range, but `Legend.Rows` accepts any integers, so for huge breakpoints its labels would differ from the program's.
- The API key, tile URLs and attribution strings are configuration only.
