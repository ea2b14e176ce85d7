/**
 * The parser of dash-camera telemetry lines (`src/parser.rs`): each line of the recognised text
 * is normalised, searched for the telemetry pattern, and the eight captured texts are converted
 * into a latitude and a longitude in degrees, minutes and seconds.
 */
module Parser {
  import opened Wrappers
  import opened Regex
  import opened TelemetryPattern

  /** Rust's `i8`. */
  newtype i8 = x: int | -128 <= x < 128

  datatype DirectionLat = North | South

  datatype DirectionLon = East | West

  datatype CoordinateDms = CoordinateDms(
    latDirection: DirectionLat, latDegree: i8, latMin: i8, latSec: i8,
    lonDirection: DirectionLon, lonDegree: i8, lonMin: i8, lonSec: i8)

  datatype Coordinate = DegreeMinSec(dms: CoordinateDms)

  /** The kinds of `ParseIntError` that `i8::from_str` reports. */
  datatype IntErrorKind = Empty | InvalidDigit | PosOverflow | NegOverflow

  /** Why `try_parse` gave up; the source carries each of these as an `anyhow::Error`. */
  datatype ParseError =
    | NoMatch                      // the pattern matches nowhere: "failed"
    | MissingGroup(index: nat)     // `cap.get(index)` is `None`
    | BadDirection(text: string)   // a hemisphere `from_str`: "parse failed"
    | BadInt(kind: IntErrorKind)   // `i8::from_str`

  // ---------------------------------------------------------------------------------------------
  // Normalisation: `replace("O", "0")`, then `replace("Q", "0")`

  /** `str::replace` with a one-character pattern and replacement. */
  function Replace(s: string, from: char, to: char): (r: string)
    ensures |r| == |s|
    ensures forall i :: 0 <= i < |s| ==> r[i] == (if s[i] == from then to else s[i])
  {
    if s == [] then [] else [if s[0] == from then to else s[0]] + Replace(s[1..], from, to)
  }

  /** The letters the character recogniser confuses with a zero become zeros: exactly the letters
      O and Q change, into zeros, and the length is kept. */
  function Normalise(s: string): (r: string)
    ensures |r| == |s|
    ensures forall i :: 0 <= i < |s| ==> r[i] == (if s[i] in "OQ" then '0' else s[i])
  {
    Replace(Replace(s, 'O', '0'), 'Q', '0')
  }

  /** No O and no Q is left after normalising. */
  lemma {:induction false} NormaliseClears(s: string)
    ensures 'O' !in Normalise(s) && 'Q' !in Normalise(s)
  {
  }

  /** Text without an O or a Q is left as it is. */
  lemma {:induction false} NormaliseKeeps(s: string)
    requires 'O' !in s && 'Q' !in s
    ensures Normalise(s) == s
  {
  }

  /** A single misread O between two pieces that need no normalising becomes a zero. */
  lemma {:induction false} NormaliseOneO(a: string, b: string)
    requires 'O' !in a && 'Q' !in a && 'O' !in b && 'Q' !in b
    ensures Normalise(a + "O" + b) == a + "0" + b
  {
  }

  lemma {:induction false} NormaliseIdempotent(s: string)
    ensures Normalise(Normalise(s)) == Normalise(s)
  {
    NormaliseClears(s);
    NormaliseKeeps(Normalise(s));
  }

  /** Normalising neither adds nor removes a line feed. */
  lemma {:induction false} NormaliseKeepsLines(s: string)
    ensures IsLine(Normalise(s)) <==> IsLine(s)
  {
    if !IsLine(s) {
      var i :| 0 <= i < |s| && s[i] == '\n';
      assert Normalise(s)[i] == '\n';
    }
  }

  // ---------------------------------------------------------------------------------------------
  // Hemispheres

  /** `DirectionLat::from_str` */
  function LatFromStr(t: string): (r: Result<DirectionLat, ParseError>)
    ensures r.Ok? <==> t == "N" || t == "S"
  {
    if t == "N" then Ok(North)
    else if t == "S" then Ok(South)
    else Err(BadDirection(t))
  }

  /** `DirectionLon::from_str` */
  function LonFromStr(t: string): (r: Result<DirectionLon, ParseError>)
    ensures r.Ok? <==> t == "E" || t == "W"
  {
    if t == "E" then Ok(East)
    else if t == "W" then Ok(West)
    else Err(BadDirection(t))
  }

  /** The letter each hemisphere is written with. */
  function LatLetter(d: DirectionLat): string
  {
    match d
    case North => "N"
    case South => "S"
  }

  function LonLetter(d: DirectionLon): string
  {
    match d
    case East => "E"
    case West => "W"
  }

  /** Parsing a hemisphere letter gives back the hemisphere, and only its letter parses to it. */
  lemma {:induction false} LatRoundTrip(d: DirectionLat, t: string)
    ensures LatFromStr(LatLetter(d)) == Ok(d)
    ensures LatFromStr(t) == Ok(d) ==> t == LatLetter(d)
  {
  }

  lemma {:induction false} LonRoundTrip(d: DirectionLon, t: string)
    ensures LonFromStr(LonLetter(d)) == Ok(d)
    ensures LonFromStr(t) == Ok(d) ==> t == LonLetter(d)
  {
  }

  // ---------------------------------------------------------------------------------------------
  // `i8::from_str`

  function DigitValue(c: char): nat
    requires IsDigit(c)
  {
    (c as int) - ('0' as int)
  }

  predicate AllDigits(t: string)
  {
    forall i :: 0 <= i < |t| ==> IsDigit(t[i])
  }

  /** The number a string of decimal digits denotes. */
  function DigitsValue(t: string): nat
    requires AllDigits(t)
  {
    if t == [] then 0 else 10 * DigitsValue(t[..|t| - 1]) + DigitValue(t[|t| - 1])
  }

  function Pow10(k: nat): (p: nat)
    ensures p >= 1
  {
    if k == 0 then 1 else 10 * Pow10(k - 1)
  }

  /**
   * `i8::from_str`: an empty text and a lone sign are refused, a leading `+` or `-` is taken,
   * and the digits are folded in from the left with overflow checks.
   */
  function ParseI8(t: string): (r: Result<i8, IntErrorKind>)
  {
    if t == [] then Err(Empty)
    else if (t[0] == '+' || t[0] == '-') && |t| == 1 then Err(InvalidDigit)
    else if t[0] == '+' then FoldDigits(t[1..], 0, false)
    else if t[0] == '-' then FoldDigits(t[1..], 0, true)
    else FoldDigits(t, 0, false)
  }

  /** The digit loop: `acc * 10 + d` (or `- d` below zero), failing as soon as it leaves `i8`. */
  function FoldDigits(t: string, acc: i8, negative: bool): Result<i8, IntErrorKind>
    decreases |t|
  {
    if t == [] then Ok(acc)
    else if !IsDigit(t[0]) then Err(InvalidDigit)
    else
      var d := DigitValue(t[0]);
      var next := if negative then acc as int * 10 - d else acc as int * 10 + d;
      if -128 <= next < 128 then FoldDigits(t[1..], next as i8, negative)
      else Err(if negative then NegOverflow else PosOverflow)
  }

  /** Reading the leading digit first: it stands for its value times a power of ten. */
  lemma {:induction false} DigitsValueCons(t: string)
    requires t != [] && AllDigits(t)
    ensures DigitsValue(t) == DigitValue(t[0]) * Pow10(|t| - 1) + DigitsValue(t[1..])
    decreases |t|
  {
    if |t| > 1 {
      var init := t[..|t| - 1];
      assert init[0] == t[0] && init[1..] == t[1..][..|t| - 2];
      DigitsValueCons(init);
      var d := DigitValue(t[0]);
      var p := Pow10(|t| - 2);
      var x := DigitsValue(init[1..]);
      var last := DigitValue(t[|t| - 1]);
      assert DigitsValue(t) == 10 * (d * p + x) + last;
      assert DigitsValue(t[1..]) == 10 * x + last;
      Regroup(d, p, x, last);
    }
  }

  // Proof helpers: `Regroup` and `Shift` are arithmetic only, for `DigitsValueCons` and the folds.

  lemma {:induction false} Regroup(d: int, p: int, x: int, last: int)
    ensures 10 * (d * p + x) + last == d * (10 * p) + (10 * x + last)
  {
  }

  /** One step of the digit loop, in arithmetic: the value still to come, seen from the new
      accumulator, and a bound on it once that accumulator has left `i8`. */
  lemma {:induction false} Shift(acc: int, d: int, p: int, rest: int, sign: int)
    requires p >= 1 && rest >= 0 && (sign == 1 || sign == -1)
    ensures acc * (10 * p) + sign * (d * p + rest) == (acc * 10 + sign * d) * p + sign * rest
    ensures sign == 1 && acc * 10 + d >= 0 ==> (acc * 10 + d) * p + rest >= acc * 10 + d
    ensures sign == -1 && acc * 10 - d <= 0 ==> (acc * 10 - d) * p - rest <= acc * 10 - d
  {
    var next := acc * 10 + sign * d;
    assert acc * (10 * p) + sign * (d * p) == next * p;
    if next >= 0 {
      assert next * p >= next * 1;
    } else {
      assert next * p <= next * 1;
    }
  }

  /** The digit loop, above zero, computes the value of the digits or reports the overflow. */
  lemma {:induction false} FoldUp(t: string, acc: i8)
    requires AllDigits(t) && acc >= 0
    ensures var v := acc as int * Pow10(|t|) + DigitsValue(t);
            FoldDigits(t, acc, false) == if v < 128 then Ok(v as i8) else Err(PosOverflow)
    decreases |t|
  {
    if t != [] {
      var d := DigitValue(t[0]);
      var next := acc as int * 10 + d;
      var p := Pow10(|t| - 1);
      var rest := DigitsValue(t[1..]);
      DigitsValueCons(t);
      assert Pow10(|t|) == 10 * p;
      Shift(acc as int, d, p, rest, 1);
      if next < 128 {
        FoldUp(t[1..], next as i8);
      }
    }
  }

  /** The digit loop, below zero, computes minus the value of the digits or reports the
      overflow. */
  lemma {:induction false} FoldDown(t: string, acc: i8)
    requires AllDigits(t) && acc <= 0
    ensures var v := acc as int * Pow10(|t|) - DigitsValue(t);
            FoldDigits(t, acc, true) == if -128 <= v then Ok(v as i8) else Err(NegOverflow)
    decreases |t|
  {
    if t != [] {
      var d := DigitValue(t[0]);
      var next := acc as int * 10 - d;
      var p := Pow10(|t| - 1);
      var rest := DigitsValue(t[1..]);
      DigitsValueCons(t);
      assert Pow10(|t|) == 10 * p;
      Shift(acc as int, d, p, rest, -1);
      if -128 <= next {
        FoldDown(t[1..], next as i8);
      }
    }
  }

  /** On a text of digits alone, `i8::from_str` gives the value of the digits when it is at most
      127, reports an overflow above that, and refuses the empty text. */
  lemma {:induction false} ParseDigits(t: string)
    requires AllDigits(t)
    ensures ParseI8(t) ==
              if t == [] then Err(Empty)
              else if DigitsValue(t) < 128 then Ok(DigitsValue(t) as i8)
              else Err(PosOverflow)
  {
    if t != [] {
      FoldUp(t, 0);
    }
  }

  function DigitChar(d: nat): (c: char)
    requires d < 10
    ensures IsDigit(c) && DigitValue(c) == d
  {
    ('0' as int + d) as char
  }

  /** The decimal digits of `n`, as `Display` writes them. */
  function NatDigits(n: nat): (t: string)
    ensures t != [] && AllDigits(t)
  {
    if n < 10 then [DigitChar(n)] else NatDigits(n / 10) + [DigitChar(n % 10)]
  }

  /** `i8`'s `Display`: a minus sign before the digits of a negative value. */
  function I8ToString(x: i8): string
  {
    if x < 0 then "-" + NatDigits(-(x as int)) else NatDigits(x as int)
  }

  lemma {:induction false} NatDigitsValue(n: nat)
    ensures DigitsValue(NatDigits(n)) == n
    decreases n
  {
    if n >= 10 {
      NatDigitsValue(n / 10);
      var t := NatDigits(n);
      assert t[..|t| - 1] == NatDigits(n / 10);
    }
  }

  /** What `Display` writes for an `i8`, `i8::from_str` reads back. */
  lemma {:induction false} ParseI8RoundTrip(x: i8)
    ensures ParseI8(I8ToString(x)) == Ok(x)
  {
    var m: nat := if x < 0 then -(x as int) else x as int;
    var digits := NatDigits(m);
    NatDigitsValue(m);
    if x < 0 {
      FoldDown(digits, 0);
      assert ("-" + digits)[1..] == digits;
    } else {
      FoldUp(digits, 0);
      assert IsDigit(digits[0]);
    }
  }

  /** `parse::<i8>()` with its error carried into the parser's error. */
  function ParseField(t: string): Result<i8, ParseError>
  {
    match ParseI8(t)
    case Ok(v) => Ok(v)
    case Err(k) => Err(BadInt(k))
  }

  // ---------------------------------------------------------------------------------------------
  // `try_parse`

  /** `from_capture_as_str`: the text of group `index`, if the match has it. */
  function FromCapture(caps: seq<string>, index: nat): Result<string, ParseError>
  {
    if index < |caps| then Ok(caps[index]) else Err(MissingGroup(index))
  }

  /** The eight fields, read from groups 1 to 8 in order; the first failure wins. */
  function FromCaptures(caps: seq<string>): Result<CoordinateDms, ParseError>
  {
    var latDirectionText :- FromCapture(caps, 1);
    var latDirection :- LatFromStr(latDirectionText);
    var latDegreeText :- FromCapture(caps, 2);
    var latDegree :- ParseField(latDegreeText);
    var latMinText :- FromCapture(caps, 3);
    var latMin :- ParseField(latMinText);
    var latSecText :- FromCapture(caps, 4);
    var latSec :- ParseField(latSecText);
    var lonDirectionText :- FromCapture(caps, 5);
    var lonDirection :- LonFromStr(lonDirectionText);
    var lonDegreeText :- FromCapture(caps, 6);
    var lonDegree :- ParseField(lonDegreeText);
    var lonMinText :- FromCapture(caps, 7);
    var lonMin :- ParseField(lonMinText);
    var lonSecText :- FromCapture(caps, 8);
    var lonSec :- ParseField(lonSecText);
    Ok(CoordinateDms(latDirection, latDegree, latMin, latSec, lonDirection, lonDegree, lonMin, lonSec))
  }

  /** `CoordinateDms::try_parse`: normalise, take the first match, convert its groups. */
  function TryParse(input: string): Result<CoordinateDms, ParseError>
  {
    var s := Normalise(input);
    match FirstMatch(Telemetry, s, 0)
    case None => Err(NoMatch)
    case Some((start, ks)) => FromCaptures(Captures(Telemetry, s, start, ks))
  }

  /** Parsing converts the groups of the leftmost-first match in the normalised input, whichever
      other matches the input has. */
  lemma {:induction false} TryParseMatched(input: string, s: string, start: nat, ks: seq<nat>)
    requires Normalise(input) == s && IsLeftmostFirst(Telemetry, s, start, ks)
    ensures |ks| == |Telemetry|
    ensures TryParse(input) == FromCaptures(Captures(Telemetry, s, start, ks))
  {
    FirstMatchIsLeftmostFirst(Telemetry, s, 0);
    assert FirstMatch(Telemetry, s, 0).Some?;
    var (i, ls) := FirstMatch(Telemetry, s, 0).value;
    LeftmostFirstIsUnique(Telemetry, s, i, ls, start, ks);
  }

  /** An `O` or a `Q` anywhere in a line is read exactly as a zero there would be. */
  lemma {:induction false} LettersReadAsZero(a: string, c: char, b: string)
    requires c in "OQ"
    ensures TryParse(a + [c] + b) == TryParse(a + "0" + b)
  {
    var x := a + [c] + b;
    var y := a + "0" + b;
    forall i | 0 <= i < |x|
      ensures Normalise(x)[i] == Normalise(y)[i]
    {
      if i != |a| {
        assert x[i] == y[i];
      }
    }
    assert Normalise(x) == Normalise(y);
  }

  /** What a match of the telemetry pattern captures in groups 1 to 8: a latitude sign, three runs
      of digits, a longitude sign, three runs of digits. */
  predicate CapturesShape(caps: seq<string>)
  {
    && |caps| == 9
    && |caps[1]| == 1 && caps[1][0] in LatSigns
    && |caps[5]| == 1 && caps[5][0] in LonSigns
    && AllDigits(caps[2]) && AllDigits(caps[3]) && AllDigits(caps[4])
    && AllDigits(caps[6]) && AllDigits(caps[7]) && AllDigits(caps[8])
  }

  /** Every group of the pattern takes part in every match, and captures characters of its class. */
  lemma {:induction false} MatchCapturesShape(s: string, start: nat, ks: seq<nat>)
    requires Decomposes(Telemetry, s, start, ks)
    ensures CapturesShape(Captures(Telemetry, s, start, ks))
  {
    TelemetryGroupItems();
    var caps := Captures(Telemetry, s, start, ks);
    var g := Groups(Telemetry, s, start, ks);
    assert caps[1..] == g;
    GroupsInClass(Telemetry, s, start, ks, 0);
    GroupsInClass(Telemetry, s, start, ks, 4);
    assert caps[1][0] in caps[1];
    assert caps[5][0] in caps[5];
    DigitGroup(s, start, ks, 1);
    DigitGroup(s, start, ks, 2);
    DigitGroup(s, start, ks, 3);
    DigitGroup(s, start, ks, 5);
    DigitGroup(s, start, ks, 6);
    DigitGroup(s, start, ks, 7);
  }

  lemma {:induction false} DigitGroup(s: string, start: nat, ks: seq<nat>, j: nat)
    requires Decomposes(Telemetry, s, start, ks) && j < |GroupItems(Telemetry)|
    requires GroupItems(Telemetry)[j].cls == Digit
    ensures AllDigits(Groups(Telemetry, s, start, ks)[j])
  {
    var t := Groups(Telemetry, s, start, ks)[j];
    GroupsInClass(Telemetry, s, start, ks, j);
    forall i | 0 <= i < |t| ensures IsDigit(t[i]) {
      assert t[i] in t;
    }
  }

  /** A numeric field's text is accepted: at least one digit, and a value of at most 127. */
  predicate FieldFits(t: string)
    requires AllDigits(t)
  {
    t != [] && DigitsValue(t) < 128
  }

  /**
   * On what a match captures, the conversion succeeds exactly when neither sign is the `|` the
   * bracket classes let through and every numeric field fits; it then holds the hemispheres the
   * letters name and the values of the digits; otherwise it fails on a `|`, an empty field or a
   * field above 127.
   */
  lemma {:induction false} FromCapturesOutcome(caps: seq<string>)
    requires CapturesShape(caps)
    ensures FromCaptures(caps).Ok? <==>
              && caps[1] != "|" && caps[5] != "|"
              && FieldFits(caps[2]) && FieldFits(caps[3]) && FieldFits(caps[4])
              && FieldFits(caps[6]) && FieldFits(caps[7]) && FieldFits(caps[8])
    ensures FromCaptures(caps).Ok? ==>
              var d := FromCaptures(caps).value;
              && LatLetter(d.latDirection) == caps[1] && LonLetter(d.lonDirection) == caps[5]
              && d.latDegree as int == DigitsValue(caps[2]) && d.latMin as int == DigitsValue(caps[3])
              && d.latSec as int == DigitsValue(caps[4]) && d.lonDegree as int == DigitsValue(caps[6])
              && d.lonMin as int == DigitsValue(caps[7]) && d.lonSec as int == DigitsValue(caps[8])
    ensures FromCaptures(caps).Err? ==>
              FromCaptures(caps).error in {BadDirection("|"), BadInt(Empty), BadInt(PosOverflow)}
  {
    assert caps[1] == [caps[1][0]] && caps[5] == [caps[5][0]];
    ParseDigits(caps[2]);
    ParseDigits(caps[3]);
    ParseDigits(caps[4]);
    ParseDigits(caps[6]);
    ParseDigits(caps[7]);
    ParseDigits(caps[8]);
  }

  /** The latitude sign is converted first: when it is not a hemisphere letter, that is the
      error, whatever the other fields hold. */
  lemma {:induction false} FromCapturesBadLat(caps: seq<string>)
    requires |caps| > 1 && caps[1] != "N" && caps[1] != "S"
    ensures FromCaptures(caps) == Err(BadDirection(caps[1]))
  {
  }

  /** Parsing normalises first, so normalising beforehand changes nothing. */
  lemma {:induction false} TryParseNormalised(input: string)
    ensures TryParse(Normalise(input)) == TryParse(input)
  {
    NormaliseIdempotent(input);
  }

  /**
   * `try_parse` fails only for want of a match, on a `|` sign, or on an empty or too large number;
   * it never misses a group, and the fields it does return are never negative.
   */
  lemma {:induction false} TryParseOutcome(input: string)
    ensures TryParse(input).Err? ==>
              TryParse(input).error in {NoMatch, BadDirection("|"), BadInt(Empty), BadInt(PosOverflow)}
    ensures TryParse(input).Ok? ==>
              var d := TryParse(input).value;
              && d.latDegree >= 0 && d.latMin >= 0 && d.latSec >= 0
              && d.lonDegree >= 0 && d.lonMin >= 0 && d.lonSec >= 0
  {
    var s := Normalise(input);
    match FirstMatch(Telemetry, s, 0)
    case None =>
    case Some((start, ks)) =>
      FirstMatchSound(Telemetry, s, 0);
      MatchCapturesShape(s, start, ks);
      FromCapturesOutcome(Captures(Telemetry, s, start, ks));
  }

  /** On a line, `try_parse` finds no match exactly when the normalised line lacks a north/south
      sign, a degree sign, an east/west sign and a degree sign, in that order. */
  lemma {:induction false} TryParseNoMatch(input: string)
    requires IsLine(input)
    ensures TryParse(input) == Err(NoMatch) <==> !MarkersInOrder(Normalise(input))
  {
    var s := Normalise(input);
    NormaliseKeepsLines(input);
    MatchIffMarkers(s);
    match FirstMatch(Telemetry, s, 0)
    case None =>
    case Some((start, ks)) =>
      FirstMatchSound(Telemetry, s, 0);
      MatchCapturesShape(s, start, ks);
      FromCapturesOutcome(Captures(Telemetry, s, start, ks));
  }

  // ---------------------------------------------------------------------------------------------
  // `parse_coordinate_from_lines`

  const LineFeed: Class := OneOf("\n")

  /** `split("\n")`: the pieces between line feeds; a text without one is a single piece. */
  function Split(s: string): (lines: seq<string>)
    ensures |lines| >= 1
    decreases |s|
  {
    match FirstIn(s, 0, |s|, LineFeed)
    case None => [s]
    case Some(i) => [s[..i]] + Split(s[i + 1..])
  }

  /** The pieces put back together with a line feed between each two. */
  function Join(lines: seq<string>): string
    requires |lines| >= 1
  {
    if |lines| == 1 then lines[0] else lines[0] + "\n" + Join(lines[1..])
  }

  predicate AllLines(lines: seq<string>)
  {
    forall i :: 0 <= i < |lines| ==> IsLine(lines[i])
  }

  lemma {:induction false} NoLineFeed(s: string, lo: nat, hi: nat)
    requires lo <= hi <= |s| && NoneIn(s, lo, hi, LineFeed)
    ensures IsLine(s[lo..hi])
  {
  }

  /** Splitting leaves no line feed in any piece, one piece more than there are line feeds, and
      joining the pieces gives the text back. */
  lemma {:induction false} SplitJoin(s: string)
    ensures AllLines(Split(s))
    ensures |Split(s)| == multiset(s)['\n'] + 1
    ensures Join(Split(s)) == s
    decreases |s|
  {
    FirstInSpec(s, 0, |s|, LineFeed);
    match FirstIn(s, 0, |s|, LineFeed)
    case None =>
      NoLineFeed(s, 0, |s|);
      assert s[0..|s|] == s;
      LineFeedsNone(s);
    case Some(i) =>
      SplitJoin(s[i + 1..]);
      NoLineFeed(s, 0, i);
      LineFeedsFirst(s, i);
      assert Split(s) == [s[..i]] + Split(s[i + 1..]);
  }

  /** A line has no line feed to count. */
  lemma {:induction false} LineFeedsNone(s: string)
    requires IsLine(s)
    ensures multiset(s)['\n'] == 0
  {
  }

  /** Counting line feeds across the first one. */
  lemma {:induction false} LineFeedsFirst(s: string, i: nat)
    requires i < |s| && s[i] == '\n' && IsLine(s[..i])
    ensures multiset(s)['\n'] == multiset(s[i + 1..])['\n'] + 1
    ensures s == s[..i] + "\n" + s[i + 1..]
  {
    assert s == s[..i] + "\n" + s[i + 1..];
    LineFeedsNone(s[..i]);
    assert multiset(s) == multiset(s[..i]) + multiset("\n") + multiset(s[i + 1..]);
  }

  /** Joining lines and splitting the result gives the lines back. */
  lemma {:induction false} JoinSplit(lines: seq<string>)
    requires |lines| >= 1 && AllLines(lines)
    ensures Split(Join(lines)) == lines
    decreases |lines|
  {
    FirstInSpec(lines[0], 0, |lines[0]|, LineFeed);
    if |lines| > 1 {
      var s := Join(lines);
      var l := lines[0];
      JoinSplit(lines[1..]);
      assert IsLine(l);
      assert s[|l|] == '\n';
      assert NoneIn(s, 0, |l|, LineFeed) by {
        forall i | 0 <= i < |l| ensures s[i] == l[i] {
        }
      }
      FirstInIs(s, 0, |s|, LineFeed, |l|);
      assert s[..|l|] == l && s[|l| + 1..] == Join(lines[1..]);
    }
  }

  /** Splitting text that has a line feed between `a` and `b`: the pieces of `a`, then those
      of `b`. */
  lemma {:induction false} SplitAppend(a: string, b: string)
    ensures Split(a + "\n" + b) == Split(a) + Split(b)
    decreases |a|
  {
    var s := a + "\n" + b;
    FirstInSpec(a, 0, |a|, LineFeed);
    match FirstIn(a, 0, |a|, LineFeed)
    case None =>
      FirstLineFeedAt(a, b, |a|);
      assert s[..|a|] == a && s[|a| + 1..] == b;
    case Some(i) =>
      FirstLineFeedAt(a, b, i);
      SplitAppend(a[i + 1..], b);
  }

  /** The first line feed of `a + "\n" + b` is `a`'s first one, or the one put between. */
  lemma {:induction false} FirstLineFeedAt(a: string, b: string, i: nat)
    requires i <= |a| && NoneIn(a, 0, i, LineFeed) && (i == |a| || a[i] == '\n')
    ensures var s := a + "\n" + b;
            && FirstIn(s, 0, |s|, LineFeed) == Some(i)
            && (i < |a| ==> s[..i] == a[..i] && s[i + 1..] == a[i + 1..] + "\n" + b)
  {
    var s := a + "\n" + b;
    assert NoneIn(s, 0, i, LineFeed) by {
      forall j | 0 <= j < i ensures s[j] == a[j] {
      }
    }
    FirstInIs(s, 0, |s|, LineFeed, i);
    if i < |a| {
      assert s[i + 1..] == a[i + 1..] + "\n" + b;
    }
  }

  /** What one line contributes: its coordinate when it parses, nothing otherwise. */
  function Parsed(line: string): (cs: seq<Coordinate>)
    ensures |cs| <= 1
  {
    match TryParse(line) case Ok(d) => [DegreeMinSec(d)] case Err(_) => []
  }

  /** The lines that parse, in order, each wrapped as a coordinate. */
  function Collect(lines: seq<string>): (cs: seq<Coordinate>)
    ensures |cs| <= |lines|
  {
    if lines == [] then [] else Parsed(lines[0]) + Collect(lines[1..])
  }

  /** `parse_coordinate_from_lines`: every line is tried, and the failures are dropped. */
  function ParseCoordinateFromLines(text: string): seq<Coordinate>
  {
    Collect(Split(text))
  }

  lemma {:induction false} CollectAppend(a: seq<string>, b: seq<string>)
    ensures Collect(a + b) == Collect(a) + Collect(b)
    decreases |a|
  {
    if a == [] {
      assert a + b == b;
    } else {
      assert (a + b)[0] == a[0] && (a + b)[1..] == a[1..] + b;
      CollectAppend(a[1..], b);
      ConcatAssoc(Parsed(a[0]), Collect(a[1..]), Collect(b));
    }
  }

  // Proof helper: regrouping a concatenation, kept apart from the parser's definitions.
  lemma ConcatAssoc(x: seq<Coordinate>, y: seq<Coordinate>, z: seq<Coordinate>)
    ensures x + (y + z) == (x + y) + z
  { }

  /** A coordinate is collected exactly when some line parses to it. */
  lemma {:induction false} CollectMembers(lines: seq<string>, c: Coordinate)
    ensures c in Collect(lines) <==> exists i :: 0 <= i < |lines| && TryParse(lines[i]) == Ok(c.dms)
    decreases |lines|
  {
    if lines != [] {
      CollectMembers(lines[1..], c);
      if exists i :: 0 <= i < |lines| - 1 && TryParse(lines[1..][i]) == Ok(c.dms) {
        var i :| 0 <= i < |lines| - 1 && TryParse(lines[1..][i]) == Ok(c.dms);
        assert TryParse(lines[i + 1]) == Ok(c.dms);
      }
      if exists i :: 0 <= i < |lines| && TryParse(lines[i]) == Ok(c.dms) {
        var i :| 0 <= i < |lines| && TryParse(lines[i]) == Ok(c.dms);
        if i > 0 {
          assert TryParse(lines[1..][i - 1]) == Ok(c.dms);
        }
      }
    }
  }

  /** A single line gives its coordinate if it parses and nothing otherwise. */
  lemma {:induction false} ParseOneLine(s: string)
    requires IsLine(s)
    ensures ParseCoordinateFromLines(s) == Parsed(s)
  {
    JoinSplit([s]);
  }

  /** Two texts joined by a line feed give the coordinates of the first, then those of the
      second; at most one coordinate comes from each line. */
  lemma {:induction false} ParseLinesAppend(a: string, b: string)
    ensures ParseCoordinateFromLines(a + "\n" + b) ==
              ParseCoordinateFromLines(a) + ParseCoordinateFromLines(b)
  {
    SplitAppend(a, b);
    CollectAppend(Split(a), Split(b));
  }

  /** The coordinates found are those of the lines that parse, one at most per line. */
  lemma {:induction false} ParseLinesMembers(text: string, c: Coordinate)
    ensures |ParseCoordinateFromLines(text)| <= multiset(text)['\n'] + 1
    ensures c in ParseCoordinateFromLines(text) <==>
              exists line :: line in Split(text) && TryParse(line) == Ok(c.dms)
  {
    SplitJoin(text);
    var lines := Split(text);
    CollectMembers(lines, c);
    if exists line :: line in lines && TryParse(line) == Ok(c.dms) {
      var line :| line in lines && TryParse(line) == Ok(c.dms);
      var i :| 0 <= i < |lines| && lines[i] == line;
    }
  }

  // ---------------------------------------------------------------------------------------------
  // `to_decimal`

  /** Signed decimal degrees, north and east positive. */
  datatype LatLon = LatLon(lat: real, lon: real)

  /** Degrees, minutes and seconds as decimal degrees. */
  function Magnitude(degree: i8, min: i8, sec: i8): real
  {
    degree as real + min as real / 60.0 + sec as real / 3600.0
  }

  /** `Coordinate::to_decimal`, in exact arithmetic: south and west are negative. */
  function ToDecimal(c: Coordinate): LatLon
  {
    match c
    case DegreeMinSec(d) =>
      var lat := Magnitude(d.latDegree, d.latMin, d.latSec);
      var lon := Magnitude(d.lonDegree, d.lonMin, d.lonSec);
      LatLon(
        match d.latDirection case North => lat case South => -lat,
        match d.lonDirection case East => lon case West => -lon)
  }

  /** The whole number of seconds an angle in degrees, minutes and seconds stands for. */
  function TotalSeconds(degree: int, min: int, sec: int): int
  {
    degree * 3600 + min * 60 + sec
  }

  /** Degrees, minutes and seconds back from a number of seconds. */
  function FromSeconds(total: int): (int, int, int)
  {
    (total / 3600, total % 3600 / 60, total % 60)
  }

  /** An angle in decimal degrees is its number of seconds over 3600. */
  lemma {:induction false} MagnitudeInSeconds(degree: i8, min: i8, sec: i8)
    ensures Magnitude(degree, min, sec) * 3600.0 == TotalSeconds(degree as int, min as int, sec as int) as real
  {
  }

  /** With minutes and seconds below sixty, the number of seconds gives the three back. */
  lemma {:induction false} FromSecondsInverts(degree: int, min: int, sec: int)
    requires 0 <= min < 60 && 0 <= sec < 60
    ensures FromSeconds(TotalSeconds(degree, min, sec)) == (degree, min, sec)
  {
    var t := TotalSeconds(degree, min, sec);
    DivMod(degree, min * 60 + sec, 3600);
    DivMod(min, sec, 60);
    assert t == (degree * 60 + min) * 60 + sec;
    DivMod(degree * 60 + min, sec, 60);
  }

  // Proof helpers: `DivMod`, `SmallMultiple` and `MulSign` are arithmetic only.

  /** Euclidean division gives back the quotient and remainder a number was built from. */
  lemma {:induction false} DivMod(q: int, r: int, b: int)
    requires 0 <= r < b
    ensures (q * b + r) / b == q && (q * b + r) % b == r
  {
    var n := q * b + r;
    var d := n / b - q;
    assert n == (n / b) * b + n % b;
    assert d * b == r - n % b;
    SmallMultiple(d, b);
  }

  /** The only multiple of `b` strictly between `-b` and `b` is zero. */
  lemma {:induction false} SmallMultiple(d: int, b: int)
    requires -b < d * b < b
    ensures d == 0
  {
    MulSign(d - 1, b);
    MulSign(d + 1, b);
    assert d * b == b + (d - 1) * b && d * b == -b + (d + 1) * b;
  }

  lemma {:induction false} MulSign(x: int, b: int)
    requires b > 0
    ensures x >= 0 ==> x * b >= 0
    ensures x <= 0 ==> x * b <= 0
  {
  }

  /** With minutes and seconds below sixty, the decimal value tells the three components apart. */
  lemma {:induction false} MagnitudeInjective(d1: i8, m1: i8, s1: i8, d2: i8, m2: i8, s2: i8)
    requires 0 <= m1 < 60 && 0 <= s1 < 60 && 0 <= m2 < 60 && 0 <= s2 < 60
    requires Magnitude(d1, m1, s1) == Magnitude(d2, m2, s2)
    ensures d1 == d2 && m1 == m2 && s1 == s2
  {
    MagnitudeInSeconds(d1, m1, s1);
    MagnitudeInSeconds(d2, m2, s2);
    FromSecondsInverts(d1 as int, m1 as int, s1 as int);
    FromSecondsInverts(d2 as int, m2 as int, s2 as int);
  }

  /** The hemisphere sets the sign: the south and west values are the negated north and east
      ones, and the latitude does not depend on the longitude's hemisphere nor the other way. */
  lemma {:induction false} HemisphereNegates(d: CoordinateDms)
    ensures ToDecimal(DegreeMinSec(d.(latDirection := South))).lat ==
              -ToDecimal(DegreeMinSec(d.(latDirection := North))).lat
    ensures ToDecimal(DegreeMinSec(d.(lonDirection := West))).lon ==
              -ToDecimal(DegreeMinSec(d.(lonDirection := East))).lon
    ensures ToDecimal(DegreeMinSec(d.(latDirection := South))).lon == ToDecimal(DegreeMinSec(d)).lon
    ensures ToDecimal(DegreeMinSec(d.(lonDirection := West))).lat == ToDecimal(DegreeMinSec(d)).lat
  {
  }

  /** A parsed coordinate lies on the side of its hemisphere, less than 130 degrees out. */
  lemma {:induction false} ParsedDecimal(input: string)
    requires TryParse(input).Ok?
    ensures var d := TryParse(input).value;
            var v := ToDecimal(DegreeMinSec(d));
            && (d.latDirection == North ==> 0.0 <= v.lat < 130.0)
            && (d.latDirection == South ==> -130.0 < v.lat <= 0.0)
            && (d.lonDirection == East ==> 0.0 <= v.lon < 130.0)
            && (d.lonDirection == West ==> -130.0 < v.lon <= 0.0)
  {
    TryParseOutcome(input);
  }
}
