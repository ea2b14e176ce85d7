# dash2gps telemetry parser, modelled in Dafny

dash2gps reads GPS telemetry that a dashcam burns into its video frames. After OCR, each frame
gives a few lines of text such as `N51°25 48” E0°19 20” 51MPH 12:42:29 06/06/2021`. The parser in
`src/parser.rs` turns that text into degree-minute-second fixes (`CoordinateDms`). This project
models that parser and proves what it does:

- `parse_coordinate_from_lines` splits the text on line feeds and tries every line. It keeps the
  lines that parse, in order, and never fails as a whole.
- `CoordinateDms::try_parse` first replaces every `O` and `Q` with `0`. It then takes the first
  match of the fixed pattern
  `([N|S])[^\d]*(\d*)[^°]*°[^\d]*(\d*)[^\d]*(\d*).*([E|W])[^\d]*(\d*)[^°]*°[^\d]*(\d*)[^\d]*(\d*)`
  and converts its eight groups: two hemisphere letters (`DirectionLat`/`DirectionLon::from_str`)
  and six `i8` numbers.
- `Coordinate::to_decimal` computes `degrees + minutes/60 + seconds/3600` for each axis. The value
  is negated for South and for West.

The files:

- `wrappers.dfy` (`Wrappers`): `Option` and `Result`.
- `regex.dfy` (`Regex`): the part of the regex crate the pattern uses.
  - A pattern is a sequence of items. Each item is one character of a class, or a greedy star
    over a class, and may be a group.
  - `Decomposes` is the relational meaning of a match: item `i` spans `ks[i]` characters.
  - `MatchAt`/`Backtrack` is the backtracking search, and `FirstMatch` retries it at each start.
  - `Captures` cuts the groups out of a match.
  - The lemmas prove that the search returns the leftmost-first match. That match starts leftmost.
    Among matches there, it is the one whose first differing item is longer. No search is needed
    to state this.
- `pattern.dfy` (`TelemetryPattern`): the telemetry pattern of `src/parser.rs:97` as a `Pattern`.
  - It gives a closed form of the pattern's first match on a line (`Scan`), built from "first
    sign", "last sign" and "next degree sign" scans, and proves that `FirstMatch` equals it.
  - It proves that a line matches exactly when it holds, in this order, a latitude sign
    (`N`, `S` or `|`), a `°`, a longitude sign (`E`, `W` or `|`) and a second `°`.
- `parser.dfy` (`Parser`): the data model and `try_parse`, `from_str`, the `i8` parse,
  `parse_coordinate_from_lines` and `to_decimal`.
- `fixture.dfy` (`Fixture`): lines 132 and 136 of the test fixture, traced through the whole
  parser; line 141, traced through `try_parse`; and a made-up line `|N51°25 48” E0°19 20”`
  showing that the class `[N|S]` admits `|`.

## Model

| member | source | states |
|---|---|---|
| Regex.RunSpec | src/parser.rs:97 | a greedy star's first try covers only characters of its class, and stops at the end of the line or at a character outside the class |
| Regex.RunIs | src/parser.rs:97 | a run of class characters ending at the line end or at a non-class character is exactly the span a greedy star tries first |
| Regex.MatchAt | src/parser.rs:97 | the backtracking search at one position; `MatchAtSound` and `MatchAtTriedFirst` prove it returns a match, and the one of highest greedy priority, whenever one exists |
| Regex.Backtrack | src/parser.rs:97 | a greedy star tries its longest run first and gives back one character at a time; `StarSettles` and `StarFails` state where it settles |
| Regex.MatchAtSound | src/parser.rs:97 | every match the backtracking search returns decomposes the text as the pattern says |
| Regex.MatchAtTriedFirst | src/parser.rs:97 | whenever the pattern matches at a position, the search finds a match there, and it is the one tried first: the first item where it differs from any other match is longer (greedy priority) |
| Regex.TriedFirstAntisymmetric | src/parser.rs:97 | two span vectors that are each tried before the other are equal, so the priority order is strict |
| Regex.FirstMatch | src/parser.rs:105 | the search of `captures_iter` for its first match returns a start at or after where it began and one span per item; `FirstMatchSound` and `FirstMatchIsLeftmostFirst` prove it is the leftmost-first match |
| Regex.FirstMatchSound | src/parser.rs:105 | the first match that `captures_iter` yields is a match of the pattern, starting at or after where the search began |
| Regex.FirstMatchIsLeftmostFirst | src/parser.rs:105 | the first match starts where no earlier position matches, and it has priority over every other match at that start; when there is none, no position matches at all |
| Regex.FirstMatchFromStart | src/parser.rs:105 | the first match of a search from the start of the line is the leftmost-first match |
| Regex.LeftmostFirstIsUnique | src/parser.rs:105 | at most one start and span vector are leftmost-first, so the match `try_parse` uses is determined by the line alone |
| Regex.DecomposesAppend | src/parser.rs:97 | a match of a concatenated pattern is a match of the first part followed by a match of the second part, and conversely |
| Regex.MatchAtAppend | src/parser.rs:97 | when the second part of a pattern matches from exactly the positions up to `m`, the whole pattern matches exactly when the first part matches inside the first `m` characters |
| Regex.StarSettles | src/parser.rs:97 | a greedy star gives back characters one at a time and settles on the longest span after which the rest of the pattern matches |
| Regex.StarFails | src/parser.rs:97 | a greedy star followed by a pattern fails when the rest matches after none of its spans |
| Regex.AllStarsMatchGreedily | src/parser.rs:97 | a pattern made only of stars matches at every position, each star taking its longest run in turn |
| Regex.Groups | src/parser.rs:105-114 | one captured text per group of the pattern; `GroupsAppend` and `GroupsInClass` prove their order and contents |
| Regex.GroupsAppend | src/parser.rs:105-114 | the groups of a concatenated pattern are those of its first part followed by those of its second part |
| Regex.GroupsInClass | src/parser.rs:105-114 | every character of a captured group is in that group's class, and a single-character group captures exactly one character |
| Regex.Captures | src/parser.rs:105-114 | one capture for the whole match and one per group, as `caps.get(i)` sees them; `CapturesWhole` proves capture 0 is the matched text |
| Regex.CapturesWhole | src/parser.rs:105-114 | capture 0 is the matched text and lies inside the line |
| TelemetryPattern.FirstInSpec | src/parser.rs:97 | the forward scan finds the first character of a class in a range, or reports that the range has none |
| TelemetryPattern.LastInSpec | src/parser.rs:97 | the backward scan finds the last character of a class in a range, or reports that the range has none |
| TelemetryPattern.BodyMatches | src/parser.rs:97 | `[^\d]*(\d*)[^°]*°` matches as its closed form says: non-digits, then digits, then up to the next `°` |
| TelemetryPattern.HeadMatches | src/parser.rs:97 | the hemisphere half `([N|S])[^\d]*(\d*)[^°]*°` matches as its closed form says |
| TelemetryPattern.LonMatches | src/parser.rs:97 | the longitude half `([E|W])[^\d]*(\d*)[^°]*°…` matches at a position as its closed form says: a sign, then the same runs as the latitude half |
| TelemetryPattern.LonSignIsLast | src/parser.rs:97 | the greedy `.*` stops at the last `E`, `W` or `|` that still has a `°` after it |
| TelemetryPattern.RestMatches | src/parser.rs:97 | `.*` followed by the longitude half matches as its closed form says: `.*` runs up to the last longitude sign that has a `°` after it |
| TelemetryPattern.TailGreedy | src/parser.rs:97 | the four stars after the first `°` (`[^\d]*(\d*)[^\d]*(\d*)`) each take their longest run |
| TelemetryPattern.TelemetryMatchesAt | src/parser.rs:97 | the whole pattern matches at a position as its closed form says |
| TelemetryPattern.LatSignIsFirst | src/parser.rs:105 | the start scan finds the first `N`, `S` or `|` that has a `°` between it and the longitude sign, and no earlier position qualifies |
| TelemetryPattern.Scan | src/parser.rs:97 | the closed form of the pattern's first match; `ScanIsFirstMatch` proves it equals the search and `ScanSomeIffMarkers` says when it finds one |
| TelemetryPattern.ScanIsFirstMatch | src/parser.rs:105 | on a line, the first match of the pattern is exactly the closed form `Scan` |
| TelemetryPattern.ScanSomeIffMarkers | src/parser.rs:97 | the closed form finds a match exactly when the four markers appear in order |
| TelemetryPattern.MatchIffMarkers | src/parser.rs:97 | a line matches the pattern exactly when it has a latitude sign, a `°`, a longitude sign and a second `°`, in that order |
| TelemetryPattern.TelemetryGroupItems | src/parser.rs:97 | the pattern has exactly eight groups: a latitude sign, three digit runs, a longitude sign, three digit runs |
| TelemetryPattern.TelemetryGroups | src/parser.rs:97 | the eight groups of a match are the sign and the digit runs at the spans of the match |
| Parser.Replace | src/parser.rs:100-102 | `str::replace` of one character keeps the length and changes exactly the occurrences of that character |
| Parser.Normalise | src/parser.rs:100-102 | normalisation turns every `O` and `Q` into `0`, keeps every other character and keeps the length |
| Parser.LettersReadAsZero | src/parser.rs:100-102 | an `O` or a `Q` anywhere in a line gives the same `try_parse` result as a `0` in its place |
| Parser.NormaliseClears | src/parser.rs:100-102 | no `O` and no `Q` is left after normalisation |
| Parser.NormaliseKeeps | src/parser.rs:100-102 | a line without `O` or `Q` is left unchanged |
| Parser.NormaliseOneO | src/parser.rs:100-102 | an `O` between text without `O` or `Q` is read as `0` |
| Parser.NormaliseIdempotent | src/parser.rs:100-102 | normalising twice is the same as normalising once |
| Parser.NormaliseKeepsLines | src/parser.rs:100-102 | normalisation neither adds nor removes line feeds |
| Parser.LatFromStr | src/parser.rs:70-80 | a latitude direction parses exactly from `"N"` or `"S"`; anything else is an error |
| Parser.LonFromStr | src/parser.rs:82-92 | a longitude direction parses exactly from `"E"` or `"W"`; anything else is an error |
| Parser.LatRoundTrip | src/parser.rs:70-80 | `N` is North and `S` is South, and no other text gives either |
| Parser.LonRoundTrip | src/parser.rs:82-92 | `E` is East and `W` is West, and no other text gives either |
| Parser.ParseI8 | src/parser.rs:108-114 | `i8::from_str`: an empty text is `Empty`, a lone sign or a non-digit is `InvalidDigit`, and digits fold into the value; `ParseDigits` and `ParseI8RoundTrip` prove it reads decimal numbers exactly |
| Parser.FoldDigits | src/parser.rs:108-114 | the left-to-right digit fold, reporting at each position an invalid digit before an overflow; `FoldUp` and `FoldDown` prove it computes the value and overflows exactly outside the `i8` range |
| Parser.ParseField | src/parser.rs:108-114 | `parse::<i8>()?` on one captured number, with the `i8` error wrapped as `BadInt`; `FromCapturesOutcome` states when it succeeds |
| Parser.FoldUp | src/parser.rs:108-114 | the digit fold of `i8::from_str` computes the decimal value and reports overflow once the value passes 127 |
| Parser.FoldDown | src/parser.rs:108-114 | the negative fold of `i8::from_str` computes the negated value and reports overflow once it passes -128 |
| Parser.ParseDigits | src/parser.rs:108-114 | a run of digits parses to its decimal value when that is below 128; an empty run is an `Empty` error and a larger value a `PosOverflow` error |
| Parser.ParseI8RoundTrip | src/parser.rs:108-114 | every `i8` printed in decimal parses back to itself |
| Parser.MatchCapturesShape | src/parser.rs:105-114 | the captures of any match are a sign from `N|S`, three digit runs, a sign from `E|W` and three digit runs |
| Parser.FromCapture | src/parser.rs:121-125 | `from_capture_as_str`: the text of a group, or `MissingGroup`; `FromCapturesOutcome` with `MatchCapturesShape` proves `MissingGroup` never arises from a match |
| Parser.FromCaptures | src/parser.rs:106-115 | builds the fix from the eight groups in field order; `FromCapturesOutcome` and `FromCapturesBadLat` state its successes and its errors |
| Parser.FromCapturesOutcome | src/parser.rs:106-115 | conversion succeeds exactly when neither sign is `|` and every digit run is non-empty and below 128; the fields are then the captures' values in field order; otherwise the error is a `|` direction, an empty number or an overflow |
| Parser.FromCapturesBadLat | src/parser.rs:107 | a latitude capture other than `N` or `S` fails with that capture as the error |
| Parser.TryParse | src/parser.rs:95-119 | `try_parse`; `TryParseMatched`, `TryParseNoMatch`, `TryParseOutcome`, `TryParseNormalised` and `LettersReadAsZero` state its result |
| Parser.TryParseMatched | src/parser.rs:95-119 | the result of `try_parse` is the conversion of the groups of the leftmost-first match of the normalised line, as defined without any search; later matches are never looked at |
| Parser.TryParseNormalised | src/parser.rs:100-102 | `try_parse` gives the same result on a line and on its normalised form |
| Parser.TryParseOutcome | src/parser.rs:95-119 | `try_parse` fails only with no match, a `|` sign, an empty number or an overflowing number; every component of a success lies in 0..127 |
| Parser.TryParseNoMatch | src/parser.rs:97-118 | a line fails with no match exactly when its normalised form lacks the four markers in order |
| Parser.Split | src/parser.rs:10 | `str::split('\n')` yields at least one piece; `SplitJoin`, `JoinSplit` and `SplitAppend` prove it cuts exactly at the line feeds |
| Parser.SplitJoin | src/parser.rs:10 | splitting on line feeds gives one more piece than there are line feeds, none holding a line feed, and joining them restores the text |
| Parser.JoinSplit | src/parser.rs:10 | splitting the join of pieces without line feeds gives the pieces back |
| Parser.SplitAppend | src/parser.rs:10 | splitting two texts joined by a line feed gives the pieces of the first, then those of the second |
| Parser.Parsed | src/parser.rs:11-13 | each line contributes at most one coordinate |
| Parser.Collect | src/parser.rs:11-14 | collecting gives at most one coordinate per line |
| Parser.CollectAppend | src/parser.rs:11-14 | collecting keeps the lines' order |
| Parser.CollectMembers | src/parser.rs:11-14 | a coordinate is collected exactly when some line parses to it |
| Parser.ParseCoordinateFromLines | src/parser.rs:7-15 | `parse_coordinate_from_lines`; `ParseOneLine`, `ParseLinesAppend` and `ParseLinesMembers` state its result line by line |
| Parser.ParseOneLine | src/parser.rs:7-15 | a text without line feeds yields its own parse, or nothing when it fails |
| Parser.ParseLinesAppend | src/parser.rs:7-15 | the coordinates of two texts joined by a line feed are those of the first followed by those of the second |
| Parser.ParseLinesMembers | src/parser.rs:7-15 | there is at most one coordinate per line, and a coordinate is in the result exactly when some line parses to it |
| Parser.Magnitude | src/parser.rs:25-30 | `deg + min/60 + sec/3600` over exact reals; `MagnitudeInSeconds` and `MagnitudeInjective` state its meaning |
| Parser.MagnitudeInSeconds | src/parser.rs:25-30 | the magnitude `deg + min/60 + sec/3600` is the total number of seconds divided by 3600 |
| Parser.FromSecondsInverts | src/parser.rs:25-30 | degrees, minutes below 60 and seconds below 60 are recovered from the total seconds |
| Parser.MagnitudeInjective | src/parser.rs:25-30 | with minutes and seconds below 60, different components give different magnitudes |
| Parser.ToDecimal | src/parser.rs:22-45 | `to_decimal` as a pair of reals; `HemisphereNegates` and `ParsedDecimal` state its signs and range |
| Parser.HemisphereNegates | src/parser.rs:22-45 | South negates the latitude and West the longitude; neither hemisphere affects the other axis or the magnitude |
| Parser.ParsedDecimal | src/parser.rs:22-45 | the decimal value of any parsed fix is non-negative for North and East, non-positive for South and West, and below 130 in magnitude |
| Fixture.Line1Parses | src/parser.rs:196-201 | the test line `N51°25 48” E0°19 20” 51MPH 12:42:29 06/06/2021` parses to N 51 25 48, E 0 19 20 |
| Fixture.Line1Decimal | src/parser.rs:22-45 | that fix converts to 51.43 north and 29/90 (0.3222…) east |
| Fixture.Line1Collected | src/parser.rs:132 | the fixture's first line on its own yields exactly that one coordinate |
| Fixture.Line136Normalised | src/parser.rs:136 | the OCR'd `EO°` on fixture line 136 is read as `E0°` |
| Fixture.Line136Parses | src/parser.rs:136 | fixture line 136 parses to N 51 25 30, E 0 20 2 |
| Fixture.Line141Fails | src/parser.rs:141 | fixture line 141, which has no `°` after its `E`, fails with no match |
| Fixture.BarLineFails | src/parser.rs:97 | `[N|S]` admits `|`: a line starting with `|` before `N51°` matches at the `|` and then fails on its direction, instead of reading the `N` |

## Left out

- `src/main.rs` and `src/watcher.rs` are not part of this model: they are subprocess, OCR, image and file-watching plumbing.
- Parser.ToDecimal: computes over exact `real` numbers. The `f32` rounding and the `"{}, {}"` text that `to_decimal` returns are not modelled.
- The `Lazy` one-time compilation of the regex is caching and has no effect on results.
- Regex.IsDigit: `\d` is taken as the ASCII digits `0`-`9`. The regex crate also accepts other Unicode decimal digits, which `i8` parsing would then reject.
- The regex model covers single-class items, greedy stars and groups: the constructs the telemetry pattern uses. It is not a general regex engine.
- TelemetryPattern.ScanIsFirstMatch: the closed form is proved for single lines, the only input `try_parse` receives from `parse_coordinate_from_lines`. On text holding line feeds, `FirstMatch` remains the definition.
- Parser.ParseError: `anyhow` error messages are modelled as error variants (`NoMatch`, `BadDirection`, `BadInt`, `MissingGroup`), not as text. `MissingGroup` never arises: every group of the pattern takes part in every match (`MatchCapturesShape`, `FromCapturesOutcome`, `TryParseOutcome`).
- Fixture: only lines 132, 136 and 141 of the fixture are traced. The count of 40 coordinates asserted by the `coordinate_dms_lines` test is not proved.
