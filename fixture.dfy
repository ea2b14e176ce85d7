/**
 * Lines of the parser's own tests (`src/parser.rs`), worked through the model: the line of the
 * `coordinate_dms` test, and lines of the `coordinate_dms_lines` fixture. Each line is written
 * as two pieces joined together; a fixture line keeps the eight spaces of indentation it has in
 * the fixture.
 */
module Fixture {
  import opened Wrappers
  import opened Regex
  import opened TelemetryPattern
  import opened Parser

  // Proof helper: arithmetic on the span vectors of the traced lines.

  /** The spans of a head and of a tail, as the test lines have them, added up. */
  lemma {:induction false} SpanSums()
    ensures Sum([1, 0, 2, 0, 1]) == 4 && Sum([1, 0, 1, 0, 1]) == 3
    ensures Sum([0, 2, 1, 2]) == 5 && Sum([1, 2, 2, 1]) == 6
  {
    SumFour(0, 2, 1, 2);
    SumFour(1, 2, 2, 1);
    assert [1, 0, 2, 0, 1][1..] == [0, 2, 0, 1];
    SumFour(0, 2, 0, 1);
    assert [1, 0, 1, 0, 1][1..] == [0, 1, 0, 1];
    SumFour(0, 1, 0, 1);
  }

  // ---------------------------------------------------------------------------------------------
  // "N51°25 48” E0°19 20” 51MPH 12:42:29 06/06/2021"

  const Line1: string := "N51°25 48” " + ("E0°19 20” " + "51MPH 12:42:29 06/06/2021")

  /** The longitude sign is the E at 11, the latitude sign the N at 0. */
  lemma {:induction false} Line1Signs()
    ensures LonSign(Line1) == Some(11) && LatSign(Line1, 11) == Some(0)
  {
    Line1LonSign();
    Line1LatSign();
  }

  lemma {:induction false} Line1LonSign()
    ensures LonSign(Line1) == Some(11)
  {
    var l := Line1;
    assert LastIn(l, 0, |l|, DegreeSign) == Some(13) by {
      LastInIs(l, 0, |l|, DegreeSign, 13);
    }
    assert LastIn(l, 0, 13, OneOf(LonSigns)) == Some(11) by {
      LastInIs(l, 0, 13, OneOf(LonSigns), 11);
    }
  }

  lemma {:induction false} Line1LatSign()
    ensures LatSign(Line1, 11) == Some(0)
  {
    var l := Line1;
    assert LastIn(l, 0, 11, DegreeSign) == Some(3) by {
      LastInIs(l, 0, 11, DegreeSign, 3);
    }
    assert FirstIn(l, 0, 3, OneOf(LatSigns)) == Some(0) by {
      FirstInIs(l, 0, 3, OneOf(LatSigns), 0);
    }
  }

  /** The runs before the longitude sign: the sign, no junk, two digits, the degree sign; then no
      junk, two digits, a space and two digits. */
  lemma {:induction false} Line1LatHeadRuns()
    ensures var p := Line1[..11];
            && Run(p, 1, NonDigit) == 0 && Run(p, 1, Digit) == 2 && FirstIn(p, 3, 11, DegreeSign) == Some(3)
  {
    var p := Line1[..11];
    assert p == "N51°25 48” ";
    assert Run(p, 1, NonDigit) == 0 by {
      RunIs(p, 1, NonDigit, 0);
    }
    assert Run(p, 1, Digit) == 2 by {
      RunIs(p, 1, Digit, 2);
    }
    assert FirstIn(p, 3, 11, DegreeSign) == Some(3) by {
      FirstInIs(p, 3, 11, DegreeSign, 3);
    }
  }

  lemma {:induction false} Line1LatTailRuns()
    ensures var p := Line1[..11];
            && Run(p, 4, NonDigit) == 0 && Run(p, 4, Digit) == 2 && Run(p, 6, NonDigit) == 1 && Run(p, 7, Digit) == 2
  {
    var p := Line1[..11];
    assert p == "N51°25 48” ";
    assert Run(p, 4, NonDigit) == 0 by {
      RunIs(p, 4, NonDigit, 0);
    }
    assert Run(p, 4, Digit) == 2 by {
      RunIs(p, 4, Digit, 2);
    }
    assert Run(p, 6, NonDigit) == 1 by {
      RunIs(p, 6, NonDigit, 1);
    }
    assert Run(p, 7, Digit) == 2 by {
      RunIs(p, 7, Digit, 2);
    }
  }

  lemma {:induction false} Line1LatHead()
    ensures HeadScan(LatSigns, Line1[..11], 0) == Some([1, 0, 2, 0, 1])
  {
    Line1LatHeadRuns();
    assert Line1[..11][0] == 'N';
    HeadIs(LatSigns, Line1[..11], 0, 0, 2, 3);
  }

  lemma {:induction false} Line1LatTail()
    ensures TailSpans(Line1[..11], 4) == [0, 2, 1, 2]
  {
    Line1LatTailRuns();
  }

  /** The runs after the longitude sign: the sign, no junk, one digit, the degree sign; then no
      junk, two digits, a space and two digits. */
  lemma {:induction false} Line1LonHeadRuns()
    ensures var l := Line1;
            && Run(l, 12, NonDigit) == 0 && Run(l, 12, Digit) == 1 && FirstIn(l, 13, |l|, DegreeSign) == Some(13)
  {
    var l := Line1;
    assert Run(l, 12, NonDigit) == 0 by {
      RunIs(l, 12, NonDigit, 0);
    }
    assert Run(l, 12, Digit) == 1 by {
      RunIs(l, 12, Digit, 1);
    }
    assert FirstIn(l, 13, |l|, DegreeSign) == Some(13) by {
      FirstInIs(l, 13, |l|, DegreeSign, 13);
    }
  }

  lemma {:induction false} Line1LonTailRuns()
    ensures var l := Line1;
            && Run(l, 14, NonDigit) == 0 && Run(l, 14, Digit) == 2 && Run(l, 16, NonDigit) == 1 && Run(l, 17, Digit) == 2
  {
    var l := Line1;
    assert Run(l, 14, NonDigit) == 0 by {
      RunIs(l, 14, NonDigit, 0);
    }
    assert Run(l, 14, Digit) == 2 by {
      RunIs(l, 14, Digit, 2);
    }
    assert Run(l, 16, NonDigit) == 1 by {
      RunIs(l, 16, NonDigit, 1);
    }
    assert Run(l, 17, Digit) == 2 by {
      RunIs(l, 17, Digit, 2);
    }
  }

  lemma {:induction false} Line1LonHead()
    ensures HeadScan(LonSigns, Line1, 11) == Some([1, 0, 1, 0, 1])
  {
    Line1LonHeadRuns();
    assert Line1[11] == 'E';
    HeadIs(LonSigns, Line1, 11, 0, 1, 13);
  }

  lemma {:induction false} Line1LonTail()
    ensures TailSpans(Line1, 14) == [0, 2, 1, 2]
  {
    Line1LonTailRuns();
  }

  const Line1Spans: seq<nat> := [1, 0, 2, 0, 1] + ([0, 2, 1, 2] + ([2] + ([1, 0, 1, 0, 1] + [0, 2, 1, 2])))

  /** The match starts at the N and its items span `Line1Spans`. */
  lemma {:induction false} Line1Scan()
    ensures Scan(Line1) == Some((0, Line1Spans))
  {
    Line1Signs();
    Line1LatHead();
    Line1LatTail();
    Line1LonHead();
    Line1LonTail();
    SpanSums();
    ScanIs(Line1, 0, 4, 9, 11, 14, [1, 0, 2, 0, 1], [0, 2, 1, 2], [1, 0, 1, 0, 1], [0, 2, 1, 2]);
  }

  /** The search finds the match `Scan` describes. */
  lemma {:induction false} Line1Match()
    ensures FirstMatch(Telemetry, Line1, 0) == Some((0, Line1Spans))
  {
    assert IsLine(Line1);
    assert Scan(Line1) == Some((0, Line1Spans)) by {
      Line1Scan();
    }
    assert FirstMatch(Telemetry, Line1, 0) == Scan(Line1) by {
      ScanIsFirstMatch(Line1);
    }
  }

  /** Where the eight groups lie: the two heads capture their sign and degrees, the two tails
      their minutes and seconds. */
  lemma {:induction false} Line1Groups()
    ensures var l := Line1;
            Groups(Telemetry, l, 0, Line1Spans) ==
              [ Slice(l, 0, 1), Slice(l, 1, 3), Slice(l, 4, 6), Slice(l, 7, 9),
                Slice(l, 11, 12), Slice(l, 12, 13), Slice(l, 14, 16), Slice(l, 17, 19) ]
  {
    SpanSums();
    TelemetryGroups(Line1, 0, 4, 11, 14, [1, 0, 2, 0, 1], [0, 2, 1, 2], [1, 0, 1, 0, 1], [0, 2, 1, 2]);
  }

  /** The eight captured texts. */
  lemma {:induction false} Line1Captures()
    ensures Captures(Telemetry, Line1, 0, Line1Spans)[1..] == ["N", "51", "25", "48", "E", "0", "19", "20"]
  {
    var l := Line1;
    Line1Groups();
    assert Slice(l, 0, 1) == "N";
    assert Slice(l, 1, 3) == "51";
    assert Slice(l, 4, 6) == "25";
    assert Slice(l, 7, 9) == "48";
    assert Slice(l, 11, 12) == "E";
    assert Slice(l, 12, 13) == "0";
    assert Slice(l, 14, 16) == "19";
    assert Slice(l, 17, 19) == "20";
  }

  /** The line has no O and no Q, so normalising keeps it. */
  lemma {:induction false} Line1Kept()
    ensures Normalise(Line1) == Line1
  {
    assert 'O' !in Line1 && 'Q' !in Line1;
    NormaliseKeeps(Line1);
  }

  /** The eight texts convert to the test's expected coordinate. */
  lemma {:induction false} Line1Fields()
    ensures FromCaptures(Captures(Telemetry, Line1, 0, Line1Spans)) ==
              Ok(CoordinateDms(North, 51, 25, 48, East, 0, 19, 20))
  {
    Line1Captures();
    var caps := Captures(Telemetry, Line1, 0, Line1Spans);
    assert caps[1] == "N" && caps[2] == "51" && caps[3] == "25" && caps[4] == "48";
    assert caps[5] == "E" && caps[6] == "0" && caps[7] == "19" && caps[8] == "20";
  }

  /** The `coordinate_dms` test: the line parses, to 51°25'48" north and 0°19'20" east. */
  lemma {:induction false} Line1Parses()
    ensures TryParse(Line1) == Ok(CoordinateDms(North, 51, 25, 48, East, 0, 19, 20))
  {
    Line1Kept();
    Line1Match();
    FirstMatchFromStart(Telemetry, Line1, 0, Line1Spans);
    TryParseMatched(Line1, Line1, 0, Line1Spans);
    Line1Fields();
  }

  /** `to_decimal` of the test line, in exact arithmetic: 51.43 north and 29/90 of a degree east. */
  lemma {:induction false} Line1Decimal()
    ensures ToDecimal(DegreeMinSec(CoordinateDms(North, 51, 25, 48, East, 0, 19, 20))) ==
              LatLon(51.43, 29.0 / 90.0)
  {
  }

  /** On its own, the line gives the one coordinate. */
  lemma {:induction false} Line1Collected()
    ensures ParseCoordinateFromLines(Line1) == [DegreeMinSec(CoordinateDms(North, 51, 25, 48, East, 0, 19, 20))]
  {
    assert IsLine(Line1);
    ParseOneLine(Line1);
    Line1Parses();
  }

  // ---------------------------------------------------------------------------------------------
  // Fixture line 136: "N51°25 30” EO° 20’ 2” 64MPH 12:43:09 06/06/2021", whose longitude degrees
  // were read as the letter O

  const Line136: string := Line136Before + "O" + Line136After

  /** What comes before and after the misread O. */
  const Line136Before: string := "        N51°25 30” E"
  const Line136After: string := "° 20’ 2” " + "64MPH 12:43:09 06/06/2021"

  /** The line as the pattern sees it, after normalising. */
  const Line136Read: string := Line136Before + "0" + Line136After

  lemma {:induction false} Line136Normalised()
    ensures Normalise(Line136) == Line136Read
  {
    Line136Letters();
    NormaliseOneO(Line136Before, Line136After);
  }

  /** The misread O is the only O, and there is no Q. */
  lemma {:induction false} Line136Letters()
    ensures 'O' !in Line136Before && 'Q' !in Line136Before
    ensures 'O' !in Line136After && 'Q' !in Line136After
  {
    Line136LettersAfter();
  }

  lemma {:induction false} Line136LettersAfter()
    ensures 'O' !in Line136After && 'Q' !in Line136After
  {
  }

  lemma {:induction false} Line136Signs()
    ensures LonSign(Line136Read) == Some(19) && LatSign(Line136Read, 19) == Some(8)
  {
    Line136LonSign();
    Line136LatSign();
  }

  lemma {:induction false} Line136LonSign()
    ensures LonSign(Line136Read) == Some(19)
  {
    var l := Line136Read;
    assert LastIn(l, 0, |l|, DegreeSign) == Some(21) by {
      LastInIs(l, 0, |l|, DegreeSign, 21);
    }
    assert LastIn(l, 0, 21, OneOf(LonSigns)) == Some(19) by {
      LastInIs(l, 0, 21, OneOf(LonSigns), 19);
    }
  }

  lemma {:induction false} Line136LatSign()
    ensures LatSign(Line136Read, 19) == Some(8)
  {
    var l := Line136Read;
    assert LastIn(l, 0, 19, DegreeSign) == Some(11) by {
      LastInIs(l, 0, 19, DegreeSign, 11);
    }
    assert FirstIn(l, 0, 11, OneOf(LatSigns)) == Some(8) by {
      FirstInIs(l, 0, 11, OneOf(LatSigns), 8);
    }
  }

  /** The runs before the longitude sign: the sign, no junk, two digits, the degree sign; then no
      junk, two digits, a space and two digits. */
  lemma {:induction false} Line136LatHeadRuns()
    ensures var p := Line136Read[..19];
            && Run(p, 9, NonDigit) == 0 && Run(p, 9, Digit) == 2 && FirstIn(p, 11, 19, DegreeSign) == Some(11)
  {
    var p := Line136Read[..19];
    assert p == "        N51°25 30” ";
    assert Run(p, 9, NonDigit) == 0 by {
      RunIs(p, 9, NonDigit, 0);
    }
    assert Run(p, 9, Digit) == 2 by {
      RunIs(p, 9, Digit, 2);
    }
    assert FirstIn(p, 11, 19, DegreeSign) == Some(11) by {
      FirstInIs(p, 11, 19, DegreeSign, 11);
    }
  }

  lemma {:induction false} Line136LatTailRuns()
    ensures var p := Line136Read[..19];
            && Run(p, 12, NonDigit) == 0 && Run(p, 12, Digit) == 2 && Run(p, 14, NonDigit) == 1 && Run(p, 15, Digit) == 2
  {
    var p := Line136Read[..19];
    assert p == "        N51°25 30” ";
    assert Run(p, 12, NonDigit) == 0 by {
      RunIs(p, 12, NonDigit, 0);
    }
    assert Run(p, 12, Digit) == 2 by {
      RunIs(p, 12, Digit, 2);
    }
    assert Run(p, 14, NonDigit) == 1 by {
      RunIs(p, 14, NonDigit, 1);
    }
    assert Run(p, 15, Digit) == 2 by {
      RunIs(p, 15, Digit, 2);
    }
  }

  lemma {:induction false} Line136LatHead()
    ensures HeadScan(LatSigns, Line136Read[..19], 8) == Some([1, 0, 2, 0, 1])
  {
    Line136LatHeadRuns();
    assert Line136Read[..19][8] == 'N';
    HeadIs(LatSigns, Line136Read[..19], 8, 0, 2, 11);
  }

  lemma {:induction false} Line136LatTail()
    ensures TailSpans(Line136Read[..19], 12) == [0, 2, 1, 2]
  {
    Line136LatTailRuns();
  }

  /** The runs after the longitude sign: the sign, no junk, the zero, the degree sign; then a
      space, two digits, a quote and a space, and one digit. */
  lemma {:induction false} Line136LonHeadRuns()
    ensures var l := Line136Read;
            && Run(l, 20, NonDigit) == 0 && Run(l, 20, Digit) == 1 && FirstIn(l, 21, |l|, DegreeSign) == Some(21)
  {
    var l := Line136Read;
    assert Run(l, 20, NonDigit) == 0 by {
      RunIs(l, 20, NonDigit, 0);
    }
    assert Run(l, 20, Digit) == 1 by {
      RunIs(l, 20, Digit, 1);
    }
    assert FirstIn(l, 21, |l|, DegreeSign) == Some(21) by {
      FirstInIs(l, 21, |l|, DegreeSign, 21);
    }
  }

  lemma {:induction false} Line136LonTailRuns()
    ensures var l := Line136Read;
            && Run(l, 22, NonDigit) == 1 && Run(l, 23, Digit) == 2 && Run(l, 25, NonDigit) == 2 && Run(l, 27, Digit) == 1
  {
    var l := Line136Read;
    assert Run(l, 22, NonDigit) == 1 by {
      RunIs(l, 22, NonDigit, 1);
    }
    assert Run(l, 23, Digit) == 2 by {
      RunIs(l, 23, Digit, 2);
    }
    assert Run(l, 25, NonDigit) == 2 by {
      RunIs(l, 25, NonDigit, 2);
    }
    assert Run(l, 27, Digit) == 1 by {
      RunIs(l, 27, Digit, 1);
    }
  }

  lemma {:induction false} Line136LonHead()
    ensures HeadScan(LonSigns, Line136Read, 19) == Some([1, 0, 1, 0, 1])
  {
    Line136LonHeadRuns();
    assert Line136Read[19] == 'E';
    HeadIs(LonSigns, Line136Read, 19, 0, 1, 21);
  }

  lemma {:induction false} Line136LonTail()
    ensures TailSpans(Line136Read, 22) == [1, 2, 2, 1]
  {
    Line136LonTailRuns();
  }

  const Line136Spans: seq<nat> := [1, 0, 2, 0, 1] + ([0, 2, 1, 2] + ([2] + ([1, 0, 1, 0, 1] + [1, 2, 2, 1])))

  /** The match starts at the N, after the indentation. */
  lemma {:induction false} Line136Scan()
    ensures Scan(Line136Read) == Some((8, Line136Spans))
  {
    Line136Signs();
    Line136LatHead();
    Line136LatTail();
    Line136LonHead();
    Line136LonTail();
    SpanSums();
    ScanIs(Line136Read, 8, 12, 17, 19, 22, [1, 0, 2, 0, 1], [0, 2, 1, 2], [1, 0, 1, 0, 1], [1, 2, 2, 1]);
  }

  lemma {:induction false} Line136Match()
    ensures FirstMatch(Telemetry, Line136Read, 0) == Some((8, Line136Spans))
  {
    assert IsLine(Line136Read);
    assert Scan(Line136Read) == Some((8, Line136Spans)) by {
      Line136Scan();
    }
    assert FirstMatch(Telemetry, Line136Read, 0) == Scan(Line136Read) by {
      ScanIsFirstMatch(Line136Read);
    }
  }

  lemma {:induction false} Line136Groups()
    ensures var l := Line136Read;
            Groups(Telemetry, l, 8, Line136Spans) ==
              [ Slice(l, 8, 9), Slice(l, 9, 11), Slice(l, 12, 14), Slice(l, 15, 17),
                Slice(l, 19, 20), Slice(l, 20, 21), Slice(l, 23, 25), Slice(l, 27, 28) ]
  {
    SpanSums();
    TelemetryGroups(Line136Read, 8, 12, 19, 22, [1, 0, 2, 0, 1], [0, 2, 1, 2], [1, 0, 1, 0, 1], [1, 2, 2, 1]);
  }

  lemma {:induction false} Line136Captures()
    ensures Captures(Telemetry, Line136Read, 8, Line136Spans)[1..] == ["N", "51", "25", "30", "E", "0", "20", "2"]
  {
    var l := Line136Read;
    Line136Groups();
    assert Slice(l, 8, 9) == "N";
    assert Slice(l, 9, 11) == "51";
    assert Slice(l, 12, 14) == "25";
    assert Slice(l, 15, 17) == "30";
    assert Slice(l, 19, 20) == "E";
    assert Slice(l, 20, 21) == "0";
    assert Slice(l, 23, 25) == "20";
    assert Slice(l, 27, 28) == "2";
  }

  /** The eight texts convert to the coordinate the line was meant to carry. */
  lemma {:induction false} Line136Fields()
    ensures FromCaptures(Captures(Telemetry, Line136Read, 8, Line136Spans)) ==
              Ok(CoordinateDms(North, 51, 25, 30, East, 0, 20, 2))
  {
    Line136Captures();
    var caps := Captures(Telemetry, Line136Read, 8, Line136Spans);
    assert caps[1] == "N" && caps[2] == "51" && caps[3] == "25" && caps[4] == "30";
    assert caps[5] == "E" && caps[6] == "0" && caps[7] == "20" && caps[8] == "2";
  }

  /** The misread O is taken as the zero it stands for: 51°25'30" north, 0°20'2" east. */
  lemma {:induction false} Line136Parses()
    ensures TryParse(Line136) == Ok(CoordinateDms(North, 51, 25, 30, East, 0, 20, 2))
  {
    Line136Normalised();
    Line136Match();
    FirstMatchFromStart(Telemetry, Line136Read, 8, Line136Spans);
    TryParseMatched(Line136, Line136Read, 8, Line136Spans);
    Line136Fields();
  }

  // ---------------------------------------------------------------------------------------------
  // Fixture line 141: "N51°25 6” E021’ 0” 51MPH 12:43:59 06/06/2021", whose longitude lost its
  // degree sign

  const Line141: string := "        N51°25 6” E021’ 0” " + "51MPH 12:43:59 06/06/2021"

  /** The only degree sign is the latitude's, at 11. */
  lemma {:induction false} Line141Degree()
    ensures LastIn(Line141, 0, |Line141|, DegreeSign) == Some(11)
  {
    LastInIs(Line141, 0, |Line141|, DegreeSign, 11);
  }

  /** No east/west sign has a degree sign after it. */
  lemma {:induction false} Line141NoLonSign()
    ensures LonSign(Line141) == None
  {
    Line141Degree();
    LastInNone(Line141, 0, 11, OneOf(LonSigns));
  }

  /** The line has no O and no Q, so normalising keeps it. */
  lemma {:induction false} Line141Kept()
    ensures Normalise(Line141) == Line141 && IsLine(Line141)
  {
    Line141Letters();
    NormaliseKeeps(Line141);
    assert '\n' !in Line141;
  }

  lemma {:induction false} Line141Letters()
    ensures 'O' !in Line141 && 'Q' !in Line141
  {
  }

  /** The line is dropped: the pattern matches nowhere in it, for want of the markers. */
  lemma {:induction false} Line141Fails()
    ensures TryParse(Line141) == Err(NoMatch)
    ensures !MarkersInOrder(Normalise(Line141))
  {
    Line141Kept();
    Line141NoLonSign();
    ScanIsFirstMatch(Line141);
    TryParseNoMatch(Line141);
  }

  // ---------------------------------------------------------------------------------------------
  // "|N51°25 48” E0°19 20”": the bracket classes `[N|S]` and `[E|W]` also accept a `|`

  const BarLine: string := "|N51°25 48” E0°19 20”"

  lemma {:induction false} BarLineSigns()
    ensures LonSign(BarLine) == Some(12) && LatSign(BarLine, 12) == Some(0)
  {
    BarLineLonSign();
    BarLineLatSign();
  }

  lemma {:induction false} BarLineLonSign()
    ensures LonSign(BarLine) == Some(12)
  {
    var l := BarLine;
    assert LastIn(l, 0, |l|, DegreeSign) == Some(14) by {
      LastInIs(l, 0, |l|, DegreeSign, 14);
    }
    assert LastIn(l, 0, 14, OneOf(LonSigns)) == Some(12) by {
      LastInIs(l, 0, 14, OneOf(LonSigns), 12);
    }
  }

  lemma {:induction false} BarLineLatSign()
    ensures LatSign(BarLine, 12) == Some(0)
  {
    var l := BarLine;
    assert LastIn(l, 0, 12, DegreeSign) == Some(4) by {
      LastInIs(l, 0, 12, DegreeSign, 4);
    }
    assert FirstIn(l, 0, 4, OneOf(LatSigns)) == Some(0) by {
      FirstInIs(l, 0, 4, OneOf(LatSigns), 0);
    }
  }

  /** The line has no O, no Q and no line feed. */
  lemma {:induction false} BarLineKept()
    ensures Normalise(BarLine) == BarLine && IsLine(BarLine)
  {
    assert 'O' !in BarLine && 'Q' !in BarLine && '\n' !in BarLine;
    NormaliseKeeps(BarLine);
  }

  /** The closed form starts its match at the `|`. */
  lemma {:induction false} BarLineScan()
    ensures Scan(BarLine).Some? && Scan(BarLine).value.0 == 0
  {
    BarLineSigns();
    assert BarLine[0] == '|' && BarLine[4] == '°' && BarLine[12] == 'E' && BarLine[14] == '°';
    assert MarkersAt(BarLine, 0, 4, 12, 14);
    MarkersGiveScan(BarLine, 0, 4, 12, 14);
  }

  /** The match starts at the `|`. */
  lemma {:induction false} BarLineMatch() returns (ks: seq<nat>)
    ensures FirstMatch(Telemetry, BarLine, 0) == Some((0, ks))
    ensures Decomposes(Telemetry, BarLine, 0, ks) && ks[0] == 1
  {
    BarLineKept();
    BarLineScan();
    ks := Scan(BarLine).value.1;
    ScanIsFirstMatch(BarLine);
    FirstMatchSound(Telemetry, BarLine, 0);
    assert Telemetry[0].Once?;
  }

  /** The match starts at the `|`, which group 1 captures, and the hemisphere conversion refuses
      it, although an N follows. */
  lemma {:induction false} BarLineFails()
    ensures TryParse(BarLine) == Err(BadDirection("|"))
  {
    var ks := BarLineMatch();
    BarLineKept();
    FirstMatchFromStart(Telemetry, BarLine, 0, ks);
    TryParseMatched(BarLine, BarLine, 0, ks);
    var caps := Captures(Telemetry, BarLine, 0, ks);
    assert caps[1] == "|" by {
      assert Telemetry[0] == Once(OneOf(LatSigns), true);
      GroupsCons(Telemetry, BarLine, 0, ks);
      assert BarLine[0..1] == "|";
    }
    FromCapturesBadLat(caps);
  }
}
