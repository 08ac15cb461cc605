# Slope-stability result widget, modelled in Dafny

The widget shows precomputed slope-stability results for pipeline
excavations. The user picks four values: a zone (`ABC`, `D`, `EF`), an
excavation depth, an embankment angle and a water-level condition. The widget
then does four things:

- It maps the zone to a result group (`G1`, `G2`, `G3`) and the Thai
  water-level label to a load case (`WET`, `DRY`, `RAPID`).
- It searches the loaded data set for the first row whose group, depth, case
  and normalised angle match.
- It shows that row's factor of safety with three decimals and its
  displacement with one decimal.
- It fills the soil-parameter table of the zone, writing permeabilities in
  scientific notation with superscript exponents, and shows the matching
  failure-line diagram.

A separate Python script walks the picture folders and reads group, case,
angle and depth back out of each image file name.

The model is organised by component:

| module | file | what it holds |
|---|---|---|
| `Wrappers` | wrappers.dfy | `Option` |
| `Text` | text.dfy | trim, first-occurrence removal, split, digit strings |
| `JsNumbers` | numbers.dfy | numbers as exact decimals `Dec(coef, scale)`; `Number()`, `parseFloat`, `toString`, `toFixed`, `toExponential(2)` |
| `Readback` | readback.dfy | reading a number's text back gives the number |
| `Rounding` | rounding.dfy | what `toFixed` and `toExponential(2)` round to |
| `JsValues` | values.dfy | the primitive JavaScript values of a JSON row, truthiness, `===` and `==` |
| `Tables` | tables.dfy | `ZONE_MAP`, `WATER_LEVEL_MAP`, `SOIL_TABLE` |
| `Format` | format.dfy | `formatPower`, `formatFS` |
| `Resolver` | resolver.dfy | `normalizeDeg` and the `find` search of `computeFS` |
| `Widget` | widget.dfy | the page: a class `Page` holding `FS_DATA` and the display fields, with `resetDisplay`, `fillParams`, `loadZone`, `computeFS`, `showImage` and `handleInputChange` as methods |
| `Convert` | convert.dfy | the file-name pattern as a hand-written matcher, the records, and the nested directory walk as loops |

The global `FS_DATA` is a field `data: Option<seq<Row>>` of `Page`. It is
`None` until `Loaded` assigns the fetched rows. A JSON row is a `Row` of six
`JsValue`s: `Undefined`, `Null`, `Bool`, `Num` or `Str`. A key missing from
the object reads as `Undefined`.

`normalizeDeg` calls `toString` first. On a row whose angle is null or
missing, that call throws a `TypeError`. The model records this as `Threw` in
the search, and `Page.ComputeFS` then reports `threw`. `handleInputChange`
stops there, so `showImage` does not run.

The directory walk of the script reads a listing tree
(`Entry = File(name) | Dir(name, entries)`) in listing order.

Behaviour that follows the code exactly, where a looser reading is tempting:

- `formatPower` returns a non-numeric value unchanged. It does not return `"-"`.
- `normalizeDeg` removes only the first `°`, then trims.
- `computeFS` without data changes nothing. Without a match it writes `"0.000"` and `"0.0 m"`.
- The selection gate only tests that the four field strings are non-empty.

## Model

| member | source | states |
|---|---|---|
| `Tables.ZoneGroup` | app.js:4-8 | a group exists exactly for "ABC", "D" and "EF", and the group found is the one whose zone code is the input |
| `Tables.WaterCase` | app.js:13-17 | a case exists exactly for the three Thai labels, and the case found is the one whose label is the input |
| `Tables.ZoneGroupInverse` | app.js:4-8 | every group is reached from its own zone code |
| `Tables.WaterCaseInverse` | app.js:13-17 | every case is reached from its own label |
| `Tables.SoilTable` | app.js:22-38 | soil parameters exist for exactly the zones that have a group |
| `JsValues.Truthy` | app.js:82 | JavaScript truthiness of a primitive: false exactly for undefined, null, false, 0 and ""; its uses are stated by `Widget.CompleteMeansTruthy`, `Format.FormatFSFallbacks` and `Widget.RowReadout` |
| `JsValues.StrictEquals` | app.js:165 | `===`: same type and same value (numbers compared by value); `JsValues.StrictImpliesLoose` and `JsValues.NumberStringEquality` relate it to `==` |
| `JsValues.LooseEquals` | app.js:166 | `==` on primitives: `===` within a type, null and undefined equal to each other, a string or boolean compared with a number through `Number()`; `JsValues.LooseSymmetric`, `JsValues.StrictImpliesLoose` and `JsValues.NumberStringEquality` state its properties |
| `JsNumbers.StringToNumber` | app.js:49 | `Number()` of a string: a trimmed decimal literal with optional sign, point and exponent, "" as 0, anything else NaN (`None`); `Readback.NumberTextReadsBack`, `Readback.DigitsNumber` and `Readback.ExponentTextNumber` show it reads back the texts the widget writes |
| `JsNumbers.ParseFloat` | app.js:83 | `parseFloat`: the longest decimal-literal prefix after leading whitespace, NaN (`None`) when there is none; `Rounding.ToFixedReadsBack` and `Format.FormatFSOfText` use it |
| `JsNumbers.NumberToString` | app.js:121-128 | `String()` of a number in positional notation with no trailing zeros; `Readback.NumberTextReadsBack` proves it reads back as the same value |
| `JsNumbers.ToFixed` | app.js:84 | `toFixed(f)` in positional notation; `Rounding.RoundToNearest`, `Rounding.ToFixedShape`, `Rounding.ToFixedReadsBack` and `Rounding.ToFixedCanonical` state what it shows |
| `JsNumbers.ToSci` | app.js:53 | the three significant digits and the exponent of `toExponential(2)`; `Rounding.ToSciNearest` states they are the nearest such value |
| `JsNumbers.ToExponentialText` | app.js:53 | the text of `toExponential(2)`: mantissa, "e", then the signed exponent; `Format.SplitExponential` and `Readback.ExponentTextNumber` read it back apart |
| `Format.FormatPower` | app.js:46-76 | formatPower; `Format.FormatPowerFallbacks` states the "-" sentinels and the unreadable value, `Format.FormatPowerOfNumber` the superscript scientific form of a number |
| `Format.FormatFS` | app.js:81-85 | formatFS; `Format.FormatFSFallbacks` states the zero texts, `Format.FormatFSIsToFixed`, `Format.FormatFSOfText` and `Format.FormatFSOfNumber` what a number or numeric text shows |
| `JsValues.CallToString` | app.js:162 | `d.toString()` throws exactly on null and undefined, and otherwise gives `String(d)` |
| `JsValues.LooseSymmetric` | app.js:166 | the `==` of the depth test is symmetric |
| `JsValues.StrictImpliesLoose` | app.js:165-167 | values equal under `===` are equal under `==` and have the same type |
| `JsValues.NumberStringEquality` | app.js:166 | a number and a string are `==` exactly when `Number()` reads the string as the same value, and they are never `===` |
| `Text.Trim` | app.js:162 | the result of `trim` neither starts nor ends with whitespace |
| `Text.TrimPadded` | app.js:162 | `trim` removes exactly the whitespace around a trimmed text |
| `Text.TrimIdempotent` | app.js:162 | trimming twice is the same as trimming once |
| `Text.RemoveFirst` | app.js:162 | `replace("°", "")` leaves a text without `°` unchanged and otherwise removes one character |
| `Text.RemoveFirstAfter` | app.js:162 | `replace` removes exactly the first occurrence and keeps everything after it |
| `Text.SplitOnce` | app.js:54 | a text with one separator splits into the two parts around it |
| `Readback.NumberTextReadsBack` | app.js:121-128 | the text of a parameter value reads back, through `Number()` and `parseFloat`, as the same value |
| `Readback.DigitsNumber` | app.js:166 | a digit string such as "5" or "05" is read by `Number()` and `parseFloat` as the integer it spells |
| `Readback.ExponentTextNumber` | app.js:56 | `Number(parts[1])` gives back the exponent of `toExponential` |
| `Rounding.RoundToNearest` | app.js:84 | `toFixed` picks the value with the requested number of decimals that is nearest the number, the larger one on a tie |
| `Rounding.ToFixedReadsBack` | app.js:84 | the text of `toFixed(f)` reads back as the rounded value with f decimals and the number's sign |
| `Rounding.ToFixedShape` | app.js:84 | the text of `toFixed(f)` has exactly f digits after its point, and no point when f is 0 |
| `Rounding.ToFixedCanonical` | app.js:83-84 | `toFixed` depends only on the value, not on trailing zeros in how it is written |
| `Rounding.ToSciNearest` | app.js:53 | `toExponential(2)` keeps the sign, writes three significant digits 100..999 (zero as 0.00e+0), and is the nearest such value, the larger on a tie |
| `Format.Superscript` | app.js:59-73 | each character becomes its superscript glyph, in order, with the length kept |
| `Format.SuperscriptReadsBack` | app.js:59-73 | the superscript exponent can be read back and contains no plain sign or digit |
| `Format.SplitExponential` | app.js:53-55 | `split("e")` of the exponential text gives the mantissa and the exponent text |
| `Format.FormatPowerFallbacks` | app.js:47-50 | null, undefined, "-" and "" show as "-"; a value `Number()` cannot read is shown as itself |
| `Format.FormatPowerOfNumber` | app.js:49-75 | a numeric value shows as the `toExponential(2)` mantissa, " × 10", then the exponent's decimal text in superscript, with `⁻` only when the exponent is negative |
| `Format.FormatFSFallbacks` | app.js:81-85 | a falsy value, "N/A" or text `parseFloat` cannot read shows "0.000" when digits is 3 and "0.0" for any other digits |
| `Format.FormatFSOfText` | app.js:81-85 | a text other than "" and "N/A" that `parseFloat` reads shows as `toFixed(digits)` of its value, and reads back as that value rounded |
| `Format.FormatFSIsToFixed` | app.js:81-85 | a non-zero number shows as `toFixed(digits)` of that number |
| `Format.FormatFSOfNumber` | app.js:83-84 | the text shown for a non-zero number reads back as the number rounded to `digits` decimals |
| `Resolver.NormalizeDegText` | app.js:162 | the normalised angle never starts or ends with whitespace; without `°` it is just the trimmed text |
| `Resolver.NormalizeDeg` | app.js:162 | normalisation throws exactly on a null or undefined angle, and otherwise normalises its string form |
| `Resolver.DegreeForms` | app.js:162 | "15", " 15 " and "15°" with any whitespace around normalise to the same "15" |
| `Resolver.OnlyFirstDegreeSign` | app.js:162 | only the first `°` is removed: "15°°" normalises to "15°" |
| `Resolver.NumericAngle` | app.js:162 | a whole-number angle stored as a number normalises to its decimal text |
| `Resolver.DepthMatchesLoosely` | app.js:166 | a numeric row depth matches the digit text the form sends ("5" and "05" both match 5), and `===` would not |
| `Resolver.KeysMatch` | app.js:164-169 | a row whose group, depth and case match is accepted exactly when its normalised angle equals the query's |
| `Resolver.QueryFor` | app.js:154-160 | the search key: `ZONE_MAP[zone]`, the depth text, `WATER_LEVEL_MAP[wl]` and the angle text; `Tables.ZoneGroup` and `Tables.WaterCase` state the two lookups |
| `Resolver.RowTest` | app.js:164-169 | the predicate passed to `find`, short-circuiting left to right, with the `TypeError` of a null or undefined angle; `Resolver.KeysMatch` and `Resolver.DepthMatchesLoosely` state what it accepts |
| `Resolver.FindFrom` | app.js:164-169 | the search from an index returns the first accepted row, or the first row where the test throws, with every earlier row rejected; otherwise it reports that every row was rejected |
| `Resolver.Find` | app.js:164-169 | `find` over the whole data set: the first accepted row in data-set order, with every earlier row rejected |
| `Resolver.FirstMatchWins` | app.js:164-169 | once a row matches, the search ends at or before it, so a later row with the same key is never returned |
| `Resolver.FoundAt` | app.js:164-169 | a matching row with every earlier row rejected is exactly the row found |
| `Resolver.MatchIsFound` | app.js:164-169 | when the test throws on no row, any matching row makes the search succeed |
| `Widget.RowReadout` | app.js:177-183 | the F.S. box shows `formatFS` of the F.S. cell with three decimals; a falsy displacement shows "0.0 m", and any other shows `formatFS` of it with one decimal followed by " m" |
| `Widget.TextReadout` | app.js:177-183 | a matched row whose F.S. and displacement are texts `parseFloat` reads shows them as `toFixed(3)` and `toFixed(1)` + " m", and the F.S. text reads back as the rounded value |
| `Widget.Complete` | app.js:90-97 | checkInputs; `Widget.CompleteMeansTruthy` states it is the truthiness of all four fields |
| `Widget.CompleteMeansTruthy` | app.js:90-97 | the gate holds exactly when the zone, depth, angle and water-level values are all truthy |
| `Widget.ZoneHeader` | app.js:145 | the header: "Zone " and the zone for a non-empty zone, "ZONE" for the empty one; used by `Widget.Page.LoadZone` and `Widget.Page.ResetDisplay` |
| `Widget.Cells` | app.js:119-132 | the ten cells of one row of fillParams; `Widget.CellsReadBack`, `Widget.PermeabilityCells` and `Widget.UnknownZoneDashes` state what they show |
| `Widget.ImageFileName` | app.js:204 | the template-literal file name; `Convert.FileNameSpelled` and `Convert.ImageNameReadsBack` show the script's pattern reads it back |
| `Widget.ImagePath` | app.js:200-205 | the folder and file path showImage builds from group and case; `Widget.Page.ShowImage` shows it for a complete selection |
| `Widget.ComputeOutcome` | app.js:151-184 | computeFS as a function of data and selection; `Widget.NoDataNoChange`, `Widget.NoMatchShowsZero`, `Widget.FirstMatchShown`, `Widget.NumericReadout` and `Widget.TextReadout` state its cases, and `Widget.Page.ComputeFS` writes it to the page |
| `Widget.Page.constructor` | app.js:259-265 | the page starts with no data and a reset display |
| `Widget.Page.Loaded` | app.js:243-245 | loading sets the data set and changes no display field |
| `Widget.Page.ResetDisplay` | app.js:102-113 | the reset display: "0.000", "0.0 m", the prompt, "-" in every parameter cell and header "ZONE"; the data set is kept |
| `Widget.Page.FillParams` | app.js:118-133 | one parameter row is rewritten and nothing else changes |
| `Widget.Page.LoadZone` | app.js:138-146 | the three parameter rows show the zone's soft-clay, stiff-clay and sand layers, and the header shows the zone; the result boxes are kept |
| `Widget.Page.ComputeFS` | app.js:151-184 | without data, or when the search throws, the result boxes are kept; otherwise they show the readout of the first match, or the zero readout |
| `Widget.Page.ShowImage` | app.js:189-205 | an incomplete selection empties the image area; a complete one shows the image at the path built from group, case, angle and depth |
| `Widget.Page.HandleInputChange` | app.js:228-236 | an incomplete selection resets the display; a complete one loads the zone, computes the result and, unless the search threw, shows the image |
| `Widget.NoDataNoChange` | app.js:152 | before the data set loads, computing changes nothing |
| `Widget.NoMatchShowsZero` | app.js:171-175 | with data loaded and no match, the boxes show "0.000" and "0.0 m" |
| `Widget.NoCandidateShowsZero` | app.js:164-175 | when every row is rejected, the boxes show the zero readout |
| `Widget.FirstMatchShown` | app.js:164-183 | the first matching row decides the readout |
| `Widget.NumericReadout` | app.js:177-183 | a matched row with non-zero numbers shows F.S. with three decimals and displacement with one decimal followed by " m" |
| `Widget.CellsReadBack` | app.js:119-129 | each plain parameter cell reads back as the parameter's value |
| `Widget.PermeabilityCells` | app.js:130-132 | the Kx and Ky cells are in superscript scientific notation |
| `Widget.UnknownZoneDashes` | app.js:139-143 | a zone outside the soil table shows "-" in every parameter cell |
| `Widget.DigitAngle` | app.js:162 | an angle of plain digits, as the form sends it, normalises to itself |
| `Widget.SampleFixed` | app.js:84 | 1.234 with three decimals is "1.234", and 0.05 with one decimal rounds up to "0.1" |
| `Widget.SampleMatch` | app.js:151-183 | one row (G1, depth 5, WET, "15°", F.S. 1.234, X 0.05) queried with ABC, "5", "15" and the ground-surface level shows "1.234" and "0.1 m" |
| `Widget.SampleMiss` | app.js:171-175 | the same row queried with angle "20" shows "0.000" and "0.0 m" |
| `Convert.MatchPattern` | convert.py:8 | an accepted name has groups the pattern allows, and it starts with the text those groups spell |
| `Convert.MatchSpelled` | convert.py:8 | any name that starts with the text of valid groups is accepted with those groups, whatever follows |
| `Convert.MatchCharacterised` | convert.py:22 | the matcher accepts a name with given groups exactly when the groups are valid and the name starts with their text |
| `Convert.FilePath` | convert.py:29 | the stored path is exactly base, zone and sub-folder joined by backslashes, then "/" and the file name: it begins with the first part, ends with the second, and is as long as both |
| `Convert.RecordFor` | convert.py:21-37 | a name yields a record exactly when it ends in ".png" and matches the pattern |
| `Convert.PngOnly` | convert.py:21-27 | a name not ending in ".png" yields nothing; a matching ".png" name yields the record of its groups, with the angle as an integer and the depth with its "m" |
| `Convert.Convert` | convert.py:10-37 | the walk collects, in listing order, the record of every accepted name in every sub-folder of every zone folder |
| `Convert.WalkZone` | convert.py:15-18 | one zone folder appends the records of its sub-folders in order and skips plain files |
| `Convert.WalkSubfolder` | convert.py:20-37 | one sub-folder appends the records of its accepted names in order |
| `Convert.CatalogueValid` | convert.py:23-37 | every record has an alphanumeric zone, a DRY/RAPID/WET case, a depth of digits and "m", and a ".png" path under the base folder |
| `Convert.FileNameSpelled` | app.js:204 | the widget's image file name is the text the pattern spells for group, case, angle and depth plus "m" |
| `Convert.ImageNameReadsBack` | convert.py:22-29 | the widget's file name for any group, case, digit angle and digit depth parses back to that group and case, the angle's integer value and the depth with "m" |

## Left out

- DOM access is not modelled: `el`, element lookups, `innerHTML` markup, image
  creation, the `img.onerror` "collapse" message, event listeners and the
  parameter-table toggle. The display is the fields of `Page`, and the image
  area holds the path it would load.
- The `fetch` of the JSON file is not modelled. Loading is the single method
  `Page.Loaded`. A failed load leaves the data `None`, and console logging is
  left out.
- JavaScript numbers are exact decimals, not IEEE-754 doubles. `toFixed` and
  `toExponential(2)` round the exact decimal value, with ties going up. On
  inputs that a double cannot hold exactly, the browser can round the other
  way (for example `(1.005).toFixed(2)` is "1.00").
- `NumberToString` never uses exponent notation. JavaScript switches to it
  below 1e-6 and from 1e21 on. The soil values that small only reach the
  screen through `formatPower`.
- `JsNumbers.ToFixed`, and with it `Format.FormatFS`, always writes positional
  digits. For a magnitude of 1e21 or more JavaScript's `toFixed` returns the
  exponent form of `String()` instead (`"1e+21"`), which the model does not
  produce. Factors of safety and displacements are far below that bound.
- NaN, Infinity, `-0`, and the hex, octal and binary forms of `Number()` are
  not modelled. A string that is not a decimal literal reads as NaN, so
  `Format.FormatPower` shows "Infinity" unchanged where the browser would
  write "Infinity × 10NaN".
- `Format.FormatPower`: when `Number()` cannot read the value, the source
  returns the value itself, and `textContent` turns it into a string. The
  model returns the string directly.
- Object and array values inside a JSON row, and a non-array `FS_DATA`, are
  left out.
- The lookups in `ZONE_MAP`, `WATER_LEVEL_MAP` and `SOIL_TABLE` ignore
  inherited `Object.prototype` keys such as "constructor". The form offers
  only the listed codes and labels.
- In the script, `os.listdir`, `os.path.isdir`, `json.dump` and `print` are
  not modelled. The walk reads a given listing tree, and the records are the
  result.
- `\d` in the Python pattern is modelled as ASCII digits only. Python also
  accepts other Unicode decimal digits there.
