/**
 * The telemetry pattern of `CoordinateDms::try_parse`,
 *
 *   ([N|S])[^\d]*(\d*)[^°]*°[^\d]*(\d*)[^\d]*(\d*).*([E|W])[^\d]*(\d*)[^°]*°[^\d]*(\d*)[^\d]*(\d*)
 *
 * and a closed form of its leftmost-first match on a line (text without a line feed), built from
 * simple scans and proved equal to the backtracking search of module Regex.
 */
module TelemetryPattern {
  import opened Wrappers
  import opened Regex

  const LatSigns: string := "N|S"
  const LonSigns: string := "E|W"
  const DegreeSign: Class := OneOf("°")

  /** `°` */
  const DegreeOnce: Pattern := [Once(DegreeSign, false)]

  /** `[^°]*°`: up to and including a degree sign. */
  const Mark: Pattern := [Star(NoneOf("°"), false)] + DegreeOnce

  /** `([..])[^\d]*(\d*)[^°]*°`: a hemisphere, lenient junk, the degrees and the degree sign. */
  function Head(signs: string): Pattern
  {
    [Once(OneOf(signs), true)] + Body
  }

  /** `[^\d]*(\d*)[^\d]*(\d*)`: the minutes and the seconds. */
  const Tail: Pattern := [Star(NonDigit, false), Star(Digit, true), Star(NonDigit, false), Star(Digit, true)]

  /** The longitude half, `([E|W])[^\d]*(\d*)[^°]*°[^\d]*(\d*)[^\d]*(\d*)`. */
  const Lon: Pattern := Head(LonSigns) + Tail

  /** `.*` and the longitude half. */
  const Rest: Pattern := [Star(Dot, false)] + Lon

  /** The whole pattern, as the latitude head, its tail, and the rest. */
  const Telemetry: Pattern := Head(LatSigns) + (Tail + Rest)

  predicate NoneIn(s: string, lo: nat, hi: nat, cls: Class)
    requires lo <= hi <= |s|
  {
    forall i :: lo <= i < hi ==> !Accepts(cls, s[i])
  }

  /** The first position in `[lo, hi)` holding a character of `cls`. */
  function FirstIn(s: string, lo: nat, hi: nat, cls: Class): (r: Option<nat>)
    requires lo <= hi <= |s|
    ensures r.Some? ==> lo <= r.value < hi
    decreases hi - lo
  {
    if lo == hi then None
    else if Accepts(cls, s[lo]) then Some(lo)
    else FirstIn(s, lo + 1, hi, cls)
  }

  /** The first occurrence holds a character of `cls` and none comes before it; without one,
      there is none at all. */
  lemma {:induction false} FirstInSpec(s: string, lo: nat, hi: nat, cls: Class)
    requires lo <= hi <= |s|
    ensures FirstIn(s, lo, hi, cls).Some? ==>
              var i := FirstIn(s, lo, hi, cls).value;
              Accepts(cls, s[i]) && NoneIn(s, lo, i, cls)
    ensures FirstIn(s, lo, hi, cls).None? ==> NoneIn(s, lo, hi, cls)
    decreases hi - lo
  {
    if lo < hi && !Accepts(cls, s[lo]) {
      FirstInSpec(s, lo + 1, hi, cls);
    }
  }

  /** The last position in `[lo, hi)` holding a character of `cls`. */
  function LastIn(s: string, lo: nat, hi: nat, cls: Class): (r: Option<nat>)
    requires lo <= hi <= |s|
    ensures r.Some? ==> lo <= r.value < hi
    decreases hi - lo
  {
    if lo == hi then None
    else if Accepts(cls, s[hi - 1]) then Some(hi - 1)
    else LastIn(s, lo, hi - 1, cls)
  }

  /** The last occurrence holds a character of `cls` and none comes after it; without one, there
      is none at all. */
  lemma {:induction false} LastInSpec(s: string, lo: nat, hi: nat, cls: Class)
    requires lo <= hi <= |s|
    ensures LastIn(s, lo, hi, cls).Some? ==>
              var i := LastIn(s, lo, hi, cls).value;
              Accepts(cls, s[i]) && NoneIn(s, i + 1, hi, cls)
    ensures LastIn(s, lo, hi, cls).None? ==> NoneIn(s, lo, hi, cls)
    decreases hi - lo
  {
    if lo < hi && !Accepts(cls, s[hi - 1]) {
      LastInSpec(s, lo, hi - 1, cls);
    }
  }

  /** The first occurrence is the position that holds one with none before it. */
  lemma {:induction false} FirstInIs(s: string, lo: nat, hi: nat, cls: Class, i: nat)
    requires lo <= i < hi <= |s| && Accepts(cls, s[i]) && NoneIn(s, lo, i, cls)
    ensures FirstIn(s, lo, hi, cls) == Some(i)
  {
    FirstInSpec(s, lo, hi, cls);
  }

  /** The last occurrence is the position that holds one with none after it. */
  lemma {:induction false} LastInIs(s: string, lo: nat, hi: nat, cls: Class, i: nat)
    requires lo <= i < hi <= |s| && Accepts(cls, s[i]) && NoneIn(s, i + 1, hi, cls)
    ensures LastIn(s, lo, hi, cls) == Some(i)
  {
    LastInSpec(s, lo, hi, cls);
  }

  /** Without a character of `cls` in the range, there is no last one. */
  lemma {:induction false} LastInNone(s: string, lo: nat, hi: nat, cls: Class)
    requires lo <= hi <= |s| && NoneIn(s, lo, hi, cls)
    ensures LastIn(s, lo, hi, cls) == None
  {
    LastInSpec(s, lo, hi, cls);
  }

  /**
   * The spans of the first match of `Head(signs)` at `n`: after the sign, the junk run and the
   * digit run are taken whole when a degree sign follows them; otherwise the junk run is cut back
   * to the last degree sign inside it and the degrees capture nothing.
   */
  function HeadScan(signs: string, s: string, n: nat): (r: Option<seq<nat>>)
    requires n <= |s|
  {
    if n < |s| && s[n] in signs then
      match BodyScan(s, n + 1)
      case Some(ks) => Some([1] + ks)
      case None => None
    else None
  }

  /** `[^°]*°` takes everything up to the first degree sign, if there is one. */
  lemma {:induction false} MarkMatches(s: string, x: nat)
    requires x <= |s|
    ensures MatchAt(Mark, s, x) ==
              match FirstIn(s, x, |s|, DegreeSign)
              case Some(d) => Some([d - x, 1])
              case None => None
  {
    var c := Run(s, x, NoneOf("°"));
    RunSpec(s, x, NoneOf("°"));
    FirstInSpec(s, x, |s|, DegreeSign);
    match FirstIn(s, x, |s|, DegreeSign)
    case Some(d) =>
      assert d == x + c;
      assert MatchAt(DegreeOnce, s, x + c) == Some([1]) by {
        DegreeOnceMatches(s, x + c);
      }
      StarSettles(NoneOf("°"), false, DegreeOnce, s, x, c);
      assert [c] + [1] == [d - x, 1];
    case None =>
      forall q | x <= q <= x + c
        ensures MatchAt(DegreeOnce, s, q).None?
      {
        DegreeOnceMatches(s, q);
      }
      StarFails(NoneOf("°"), false, DegreeOnce, s, x);
  }

  lemma {:induction false} DegreeOnceMatches(s: string, q: nat)
    requires q <= |s|
    ensures MatchAt(DegreeOnce, s, q) == if q < |s| && s[q] == '°' then Some([1]) else None
  {
    assert DegreeOnce[1..] == [];
    assert [1] + [] == [1];
  }

  /** Skipping characters that are not degree signs does not move the first degree sign. */
  lemma {:induction false} FirstInSkip(s: string, lo: nat, mid: nat, cls: Class)
    requires lo <= mid <= |s| && NoneIn(s, lo, mid, cls)
    ensures FirstIn(s, lo, |s|, cls) == FirstIn(s, mid, |s|, cls)
    decreases mid - lo
  {
    if lo < mid {
      FirstInSkip(s, lo + 1, mid, cls);
    }
  }

  /** `(\d*)[^°]*°`: the whole digit run, then up to the first degree sign after it. */
  lemma {:induction false} DigitsMarkMatches(s: string, y: nat)
    requires y <= |s|
    ensures var b := Run(s, y, Digit);
            MatchAt(DigitsMark, s, y) ==
              match FirstIn(s, y + b, |s|, DegreeSign)
              case Some(d) => Some([b, d - (y + b), 1])
              case None => None
  {
    var b := Run(s, y, Digit);
    RunSpec(s, y, Digit);
    forall q | y <= q <= y + b
      ensures FirstIn(s, q, |s|, DegreeSign) == FirstIn(s, y + b, |s|, DegreeSign)
    {
      FirstInSkip(s, q, y + b, DegreeSign);
    }
    forall q | y <= q <= y + b
      ensures MatchAt(Mark, s, q).Some? <==> FirstIn(s, y + b, |s|, DegreeSign).Some?
    {
      MarkMatches(s, q);
    }
    MarkMatches(s, y + b);
    match FirstIn(s, y + b, |s|, DegreeSign)
    case Some(d) =>
      StarSettles(Digit, true, Mark, s, y, b);
      assert [b] + [d - (y + b), 1] == [b, d - (y + b), 1];
    case None =>
      StarFails(Digit, true, Mark, s, y);
  }

  /** `[^\d]*(\d*)[^°]*°`, the part of a head after the sign. */
  const Body: Pattern := [Star(NonDigit, false)] + DigitsMark

  /** `(\d*)[^°]*°` */
  const DigitsMark: Pattern := [Star(Digit, true)] + Mark

  /** The spans of the first match of `Body` at `q` (see `HeadScan`). */
  function BodyScan(s: string, q: nat): (r: Option<seq<nat>>)
    requires q <= |s|
  {
    var a := Run(s, q, NonDigit);
    var b := Run(s, q + a, Digit);
    match FirstIn(s, q + a + b, |s|, DegreeSign)
    case Some(d) => Some([a, b, d - (q + a + b), 1])
    case None =>
      match LastIn(s, q, q + a, DegreeSign)
      case Some(d) => Some([d - q, 0, 0, 1])
      case None => None
  }

  /** On a character that is not a digit, `(\d*)` is empty. */
  lemma {:induction false} DigitsMarkOnJunk(s: string, j: nat)
    requires j < |s| && !IsDigit(s[j])
    ensures MatchAt(DigitsMark, s, j) ==
              match FirstIn(s, j, |s|, DegreeSign)
              case Some(d) => Some([0, d - j, 1])
              case None => None
  {
    DigitsMarkMatches(s, j);
    assert Run(s, j, Digit) == 0;
  }

  /** Inside a junk run with no degree sign up to `hi`, and none after the digits at `hi`,
      `(\d*)[^°]*°` cannot match. */
  lemma {:induction false} DigitsMarkNone(s: string, j: nat, hi: nat)
    requires j <= hi <= |s| && NoneIn(s, j, hi, DegreeSign) && AllIn(s, j, hi, NonDigit)
    requires FirstIn(s, hi + Run(s, hi, Digit), |s|, DegreeSign).None?
    ensures MatchAt(DigitsMark, s, j).None?
  {
    var b := Run(s, hi, Digit);
    RunSpec(s, hi, Digit);
    FirstInSkip(s, hi, hi + b, DegreeSign);
    FirstInSkip(s, j, hi, DegreeSign);
    assert FirstIn(s, j, |s|, DegreeSign).None?;
    if j < hi {
      assert !IsDigit(s[j]);
      DigitsMarkOnJunk(s, j);
    } else {
      DigitsMarkMatches(s, hi);
    }
  }

  lemma {:induction false} BodyWhole(s: string, q: nat)
    requires q <= |s|
    requires FirstIn(s, q + Run(s, q, NonDigit) + Run(s, q + Run(s, q, NonDigit), Digit), |s|, DegreeSign).Some?
    ensures MatchAt(Body, s, q) == BodyScan(s, q)
  {
    var a := Run(s, q, NonDigit);
    var b := Run(s, q + a, Digit);
    var d := FirstIn(s, q + a + b, |s|, DegreeSign).value;
    var ks := [b, d - (q + a + b), 1];
    assert MatchAt(DigitsMark, s, q + a) == Some(ks) by {
      DigitsMarkMatches(s, q + a);
    }
    StarSettles(NonDigit, false, DigitsMark, s, q, a);
    assert [a] + ks == [a, b, d - (q + a + b), 1];
  }

  /** With no degree sign after the junk run, `[^\d]*` gives back characters down to the last
      degree sign inside the run. */
  lemma {:induction false} BodyCut(s: string, q: nat)
    requires q <= |s|
    requires FirstIn(s, q + Run(s, q, NonDigit) + Run(s, q + Run(s, q, NonDigit), Digit), |s|, DegreeSign).None?
    requires LastIn(s, q, q + Run(s, q, NonDigit), DegreeSign).Some?
    ensures MatchAt(Body, s, q) == BodyScan(s, q)
  {
    var a := Run(s, q, NonDigit);
    var d := LastIn(s, q, q + a, DegreeSign).value;
    assert BodyScan(s, q) == Some([d - q, 0, 0, 1]);
    BodyCutMatch(s, q, a, d);
  }

  lemma {:induction false} BodyCutMatch(s: string, q: nat, a: nat, d: nat)
    requires q <= |s| && a == Run(s, q, NonDigit)
    requires FirstIn(s, q + a + Run(s, q + a, Digit), |s|, DegreeSign).None?
    requires LastIn(s, q, q + a, DegreeSign) == Some(d)
    ensures MatchAt(Body, s, q) == Some([d - q, 0, 0, 1])
  {
    LastInSpec(s, q, q + a, DegreeSign);
    RunSpec(s, q, NonDigit);
    assert MatchAt(DigitsMark, s, d) == Some([0, 0, 1]) by {
      FirstInIs(s, d, |s|, DegreeSign, d);
      DigitsMarkOnJunk(s, d);
    }
    forall j | q + (d - q) < j <= q + a
      ensures MatchAt(DigitsMark, s, j).None?
    {
      DigitsMarkNone(s, j, q + a);
    }
    StarSettles(NonDigit, false, DigitsMark, s, q, d - q);
    assert [d - q] + [0, 0, 1] == [d - q, 0, 0, 1];
  }

  lemma {:induction false} BodyFails(s: string, q: nat)
    requires q <= |s|
    requires FirstIn(s, q + Run(s, q, NonDigit) + Run(s, q + Run(s, q, NonDigit), Digit), |s|, DegreeSign).None?
    requires LastIn(s, q, q + Run(s, q, NonDigit), DegreeSign).None?
    ensures MatchAt(Body, s, q) == BodyScan(s, q)
  {
    var a := Run(s, q, NonDigit);
    RunSpec(s, q, NonDigit);
    LastInSpec(s, q, q + a, DegreeSign);
    DigitsMarkNowhere(s, q, q + a);
    StarFails(NonDigit, false, DigitsMark, s, q);
  }

  /** With no degree sign among the non-digits up to `hi`, nor after the digits from `hi`,
      `(\d*)[^°]*°` matches nowhere from `lo` to `hi`. */
  lemma {:induction false} DigitsMarkNowhere(s: string, lo: nat, hi: nat)
    requires lo <= hi <= |s| && NoneIn(s, lo, hi, DegreeSign) && AllIn(s, lo, hi, NonDigit)
    requires FirstIn(s, hi + Run(s, hi, Digit), |s|, DegreeSign).None?
    ensures forall j :: lo <= j <= hi ==> MatchAt(DigitsMark, s, j).None?
  {
    forall j | lo <= j <= hi
      ensures MatchAt(DigitsMark, s, j).None?
    {
      DigitsMarkNone(s, j, hi);
    }
  }

  /** The first match of `Body` is the one `BodyScan` describes. */
  lemma {:induction false} BodyMatches(s: string, q: nat)
    requires q <= |s|
    ensures MatchAt(Body, s, q) == BodyScan(s, q)
  {
    var a := Run(s, q, NonDigit);
    var b := Run(s, q + a, Digit);
    if FirstIn(s, q + a + b, |s|, DegreeSign).Some? {
      BodyWhole(s, q);
    } else if LastIn(s, q, q + a, DegreeSign).Some? {
      BodyCut(s, q);
    } else {
      BodyFails(s, q);
    }
  }

  /** The first match of a head is the one `HeadScan` describes. */
  lemma {:induction false} HeadMatches(signs: string, s: string, n: nat)
    requires n <= |s|
    ensures MatchAt(Head(signs), s, n) == HeadScan(signs, s, n)
  {
    assert Head(signs)[1..] == Body;
    if n < |s| && s[n] in signs {
      BodyMatches(s, n + 1);
    }
  }

  /** A head matches at `n` exactly when a sign stands there and a degree sign comes later. */
  lemma {:induction false} BodyScanSome(s: string, q: nat)
    requires q <= |s|
    ensures BodyScan(s, q).Some? <==> FirstIn(s, q, |s|, DegreeSign).Some?
  {
    var a := Run(s, q, NonDigit);
    var b := Run(s, q + a, Digit);
    RunSpec(s, q + a, Digit);
    FirstInSpec(s, q, |s|, DegreeSign);
    FirstInSpec(s, q + a + b, |s|, DegreeSign);
    LastInSpec(s, q, q + a, DegreeSign);
    match FirstIn(s, q, |s|, DegreeSign)
    case Some(d) =>
      if d < q + a {
        assert LastIn(s, q, q + a, DegreeSign).Some?;
      } else {
        assert !IsDigit(s[d]);
        assert FirstIn(s, q + a + b, |s|, DegreeSign).Some?;
      }
    case None =>
  }

  /** The bounds of a head's spans. */
  lemma {:induction false} HeadSpansFit(signs: string, s: string, n: nat)
    requires n <= |s| && HeadScan(signs, s, n).Some?
    ensures n + Sum(HeadScan(signs, s, n).value) <= |s|
  {
    HeadMatches(signs, s, n);
    MatchAtSound(Head(signs), s, n);
    DecomposesEnd(Head(signs), s, n, HeadScan(signs, s, n).value);
  }

  /** The spans of the first match of `Lon` at `r`: its head, then the tail, each star greedy. */
  function LonScan(s: string, r: nat): Option<seq<nat>>
    requires r <= |s|
  {
    match HeadScan(LonSigns, s, r)
    case None => None
    case Some(h) =>
      HeadSpansFit(LonSigns, s, r);
      Some(h + TailSpans(s, r + Sum(h)))
  }

  /** `r` can start the longitude half: an east/west sign there and a degree sign after it. */
  predicate LonOk(s: string, r: nat)
  {
    r < |s| && s[r] in LonSigns && FirstIn(s, r + 1, |s|, DegreeSign).Some?
  }

  /** The first match of the longitude half at `r`. */
  lemma {:induction false} LonMatches(s: string, r: nat)
    requires r <= |s|
    ensures MatchAt(Lon, s, r) == LonScan(s, r)
  {
    TailStars();
    HeadMatches(LonSigns, s, r);
    if HeadScan(LonSigns, s, r).Some? {
      HeadSpansFit(LonSigns, s, r);
      TailGreedy(s, r + Sum(HeadScan(LonSigns, s, r).value));
    }
    ThenTail(Head(LonSigns), Tail, s, r, HeadScan(LonSigns, s, r));
  }

  /** Greedy stars that take the tail's runs, after a pattern whose first match at `r` is `h`. */
  lemma {:induction false} ThenTail(p1: Pattern, p2: Pattern, s: string, r: nat, h: Option<seq<nat>>)
    requires r <= |s| && AllStars(p2) && MatchAt(p1, s, r) == h
    requires h.Some? ==> r + Sum(h.value) <= |s| && GreedyRuns(p2, s, r + Sum(h.value)) == TailSpans(s, r + Sum(h.value))
    ensures h.None? ==> MatchAt(p1 + p2, s, r).None?
    ensures h.Some? ==> MatchAt(p1 + p2, s, r) == Some(h.value + TailSpans(s, r + Sum(h.value)))
  {
    AppendStars(p1, p2, s, r);
  }

  /** The longitude half matches at `r` exactly when `r` can start it. */
  lemma {:induction false} LonScanSome(s: string, r: nat)
    requires r <= |s|
    ensures LonScan(s, r).Some? <==> LonOk(s, r)
  {
    if r < |s| && s[r] in LonSigns {
      BodyScanSome(s, r + 1);
    }
  }

  /** Where `.*` settles: the last east/west sign with a degree sign after it. */
  function LonSign(s: string): (r: Option<nat>)
    ensures r.Some? ==> r.value < |s|
  {
    match LastIn(s, 0, |s|, DegreeSign)
    case None => None
    case Some(l) => LastIn(s, 0, l, OneOf(LonSigns))
  }

  lemma {:induction false} LonSignIsLast(s: string)
    ensures LonSign(s).Some? ==> LonOk(s, LonSign(s).value)
    ensures LonSign(s).Some? ==> forall r: nat :: LonSign(s).value < r <= |s| ==> !LonOk(s, r)
    ensures LonSign(s).None? ==> forall r: nat :: r <= |s| ==> !LonOk(s, r)
  {
    LastInSpec(s, 0, |s|, DegreeSign);
    match LastIn(s, 0, |s|, DegreeSign)
    case None =>
      forall r: nat | r <= |s| ensures !LonOk(s, r) {
        if r < |s| {
          FirstInSpec(s, r + 1, |s|, DegreeSign);
        }
      }
    case Some(l) =>
      forall r: nat | r <= |s| ensures LonOk(s, r) <==> r < l && s[r] in LonSigns {
        if r < |s| {
          FirstInSpec(s, r + 1, |s|, DegreeSign);
        }
        if r < l {
          assert Accepts(DegreeSign, s[l]);
        }
      }
      LastInSpec(s, 0, l, OneOf(LonSigns));
  }

  /** A line: text without a line feed, as splitting the input on line feeds leaves it. */
  predicate IsLine(s: string)
  {
    '\n' !in s
  }

  lemma {:induction false} DotRunsToEnd(s: string, t: nat)
    requires IsLine(s) && t <= |s|
    ensures Run(s, t, Dot) == |s| - t
    decreases |s| - t
  {
    if t < |s| {
      assert s[t] != '\n';
      DotRunsToEnd(s, t + 1);
    }
  }

  /** The spans of the first match of `Rest` at `t`: `.*` runs to the last place the longitude
      half can start. */
  function RestScan(s: string, t: nat): Option<seq<nat>>
    requires t <= |s|
  {
    match LonSign(s)
    case None => None
    case Some(r) =>
      if t <= r then
        match LonScan(s, r)
        case None => None
        case Some(lon) => Some([r - t] + lon)
      else None
  }

  lemma {:induction false} LonNowhereAfter(s: string, t: nat)
    requires t <= |s|
    requires forall r: nat :: t <= r <= |s| ==> !LonOk(s, r)
    ensures forall q :: t <= q <= |s| ==> MatchAt(Lon, s, q).None?
  {
    forall q | t <= q <= |s|
      ensures MatchAt(Lon, s, q).None?
    {
      LonMatches(s, q);
      LonScanSome(s, q);
    }
  }

  /** The first match of `Rest` at `t`, on a line. */
  lemma {:induction false} RestMatches(s: string, t: nat)
    requires IsLine(s) && t <= |s|
    ensures MatchAt(Rest, s, t) == RestScan(s, t)
  {
    LonSignIsLast(s);
    if LonSign(s).Some? && t <= LonSign(s).value {
      RestSettles(s, t, LonSign(s).value);
    } else {
      RestFails(s, t);
    }
  }

  lemma {:induction false} RestSettles(s: string, t: nat, r: nat)
    requires IsLine(s) && t <= r && LonSign(s) == Some(r)
    ensures MatchAt(Rest, s, t) == RestScan(s, t)
  {
    DotRunsToEnd(s, t);
    LonSignIsLast(s);
    LonMatches(s, r);
    LonScanSome(s, r);
    LonNowhereAfter(s, r + 1);
    assert Rest == [Star(Dot, false)] + Lon;
    StarToLast(Dot, false, Lon, s, t, r);
  }

  lemma {:induction false} RestFails(s: string, t: nat)
    requires t <= |s| && forall r: nat :: t <= r <= |s| ==> !LonOk(s, r)
    ensures MatchAt(Rest, s, t).None?
  {
    LonNowhereAfter(s, t);
    assert Rest == [Star(Dot, false)] + Lon;
    AppendNoMatch([Star(Dot, false)], Lon, s, t);
  }

  /** `Rest` matches at `t` exactly when the longitude half can start at or after `t`. */
  lemma {:induction false} RestScanSome(s: string, t: nat)
    requires t <= |s|
    ensures RestScan(s, t).Some? <==> LonSign(s).Some? && t <= LonSign(s).value
  {
    LonSignIsLast(s);
    if LonSign(s).Some? {
      LonScanSome(s, LonSign(s).value);
    }
  }

  /** `Rest` matches, on a line, from exactly the positions up to the longitude sign. */
  lemma {:induction false} RestWhere(s: string)
    requires IsLine(s)
    ensures forall q: nat :: q <= |s| ==>
              (MatchAt(Rest, s, q).Some? <==> LonSign(s).Some? && q <= LonSign(s).value)
  {
    forall q: nat | q <= |s|
      ensures MatchAt(Rest, s, q).Some? <==> LonSign(s).Some? && q <= LonSign(s).value
    {
      RestMatches(s, q);
      RestScanSome(s, q);
    }
  }

  /** The tail is made of stars alone. */
  lemma {:induction false} TailStars()
    ensures AllStars(Tail)
  {
  }

  /** The spans of the tail when each of its stars takes its longest run: junk, digits, junk,
      digits. */
  function TailSpans(s: string, pos: nat): (ks: seq<nat>)
    requires pos <= |s|
    ensures |ks| == 4 && pos + Sum(ks) <= |s|
  {
    var a := Run(s, pos, NonDigit);
    var b := Run(s, pos + a, Digit);
    var c := Run(s, pos + a + b, NonDigit);
    var d := Run(s, pos + a + b + c, Digit);
    SumFour(a, b, c, d);
    [a, b, c, d]
  }

  lemma {:induction false} SumFour(a: nat, b: nat, c: nat, d: nat)
    ensures Sum([a, b, c, d]) == a + b + c + d
  {
    assert Sum([d]) == d by {
      assert [d][1..] == [];
    }
    assert Sum([c, d]) == c + d by {
      assert [c, d][1..] == [d];
    }
    assert Sum([b, c, d]) == b + c + d by {
      assert [b, c, d][1..] == [c, d];
    }
    assert [a, b, c, d][1..] == [b, c, d];
  }

  /** `TailSpans` is what the greedy stars of `Tail` take. */
  lemma {:induction false} TailGreedy(s: string, pos: nat)
    requires pos <= |s|
    ensures GreedyRuns(Tail, s, pos) == TailSpans(s, pos)
  {
    TailShaped(Tail, s, pos);
  }

  /** Four stars of the tail's classes, in the tail's order, take the tail's spans. */
  lemma {:induction false} TailShaped(p: Pattern, s: string, pos: nat)
    requires pos <= |s| && |p| == 4
    requires p[0].cls == NonDigit && p[1].cls == Digit && p[2].cls == NonDigit && p[3].cls == Digit
    ensures GreedyRuns(p, s, pos) == TailSpans(s, pos)
  {
    var _, _, _, _ := FourRuns(p, s, pos);
  }

  lemma {:induction false} FourRuns(p: Pattern, s: string, pos: nat) returns (a: nat, b: nat, c: nat, d: nat)
    requires pos <= |s| && |p| == 4
    ensures a == Run(s, pos, p[0].cls) && b == Run(s, pos + a, p[1].cls)
    ensures c == Run(s, pos + a + b, p[2].cls) && d == Run(s, pos + a + b + c, p[3].cls)
    ensures GreedyRuns(p, s, pos) == [a, b, c, d]
  {
    a := Run(s, pos, p[0].cls);
    b := Run(s, pos + a, p[1].cls);
    c := Run(s, pos + a + b, p[2].cls);
    d := Run(s, pos + a + b + c, p[3].cls);
    assert p[3..][1..] == [];
    GreedyRunsIs(p[3..], s, pos + a + b + c, d, []);
    assert p[2..][1..] == p[3..];
    GreedyRunsIs(p[2..], s, pos + a + b, c, [d]);
    assert p[1..][1..] == p[2..];
    GreedyRunsIs(p[1..], s, pos + a, b, [c, d]);
    GreedyRunsIs(p, s, pos, a, [b, c, d]);
  }

  /** The greedy runs of a pattern: the first item's run, then the rest from where it ends. */
  lemma {:induction false} GreedyRunsIs(p: Pattern, s: string, pos: nat, k: nat, rest: seq<nat>)
    requires p != [] && pos + k <= |s| && k == Run(s, pos, p[0].cls)
    requires GreedyRuns(p[1..], s, pos + k) == rest
    ensures GreedyRuns(p, s, pos) == [k] + rest
  {
  }

  /** The spans of the first match of `Tail + Rest` at `u`: the tail's stars take their longest
      runs short of the longitude sign. */
  function TailRestScan(s: string, u: nat): Option<seq<nat>>
    requires u <= |s|
  {
    match LonSign(s)
    case None => None
    case Some(r) =>
      if u <= r then
        var tail := TailSpans(s[..r], u);
        match RestScan(s, u + Sum(tail))
        case None => None
        case Some(rest) => Some(tail + rest)
      else None
  }

  lemma {:induction false} TailRestScanSome(s: string, u: nat)
    requires u <= |s|
    ensures TailRestScan(s, u).Some? <==> LonSign(s).Some? && u <= LonSign(s).value
  {
    if LonSign(s).Some? && u <= LonSign(s).value {
      var r := LonSign(s).value;
      RestScanSome(s, u + Sum(TailSpans(s[..r], u)));
    }
  }

  lemma {:induction false} TailRestMatches(s: string, u: nat)
    requires IsLine(s) && u <= |s|
    ensures MatchAt(Tail + Rest, s, u) == TailRestScan(s, u)
  {
    if LonSign(s).Some? && u <= LonSign(s).value {
      TailRestSettles(s, u, LonSign(s).value);
    } else {
      RestWhere(s);
      AppendNoMatch(Tail, Rest, s, u);
    }
  }

  lemma {:induction false} TailRestSettles(s: string, u: nat, r: nat)
    requires IsLine(s) && u <= r && LonSign(s) == Some(r)
    ensures MatchAt(Tail + Rest, s, u) == TailRestScan(s, u)
  {
    TailRestSpans(s, u, r);
    TailRestUnfolds(s, u, r);
  }

  /** The match of `Tail + Rest` at `u`: the tail's runs short of the longitude sign at `r`, then
      the first match of `Rest` after them. */
  lemma {:induction false} TailRestSpans(s: string, u: nat, r: nat)
    requires IsLine(s) && u <= r && LonSign(s) == Some(r)
    ensures RestScan(s, u + Sum(TailSpans(s[..r], u))).Some?
    ensures MatchAt(Tail + Rest, s, u) ==
              Some(TailSpans(s[..r], u) + RestScan(s, u + Sum(TailSpans(s[..r], u))).value)
  {
    TailThenRest(s, u, r);
    RestMatches(s, u + Sum(TailSpans(s[..r], u)));
  }

  /** The tail's stars take their runs short of `r`, since `Rest` matches exactly up to `r`. */
  lemma {:induction false} TailThenRest(s: string, u: nat, r: nat)
    requires IsLine(s) && u <= r && LonSign(s) == Some(r)
    ensures u + Sum(TailSpans(s[..r], u)) <= r
    ensures MatchAt(Rest, s, u + Sum(TailSpans(s[..r], u))).Some?
    ensures MatchAt(Tail + Rest, s, u) ==
              Some(TailSpans(s[..r], u) + MatchAt(Rest, s, u + Sum(TailSpans(s[..r], u))).value)
  {
    RestUpTo(s, u, r);
    TailStars();
    TailGreedy(s[..r], u);
    StarsThen(Tail, Rest, s, u, r);
  }

  /** Greedy stars whose runs short of `r` are the tail's, before a pattern that matches exactly
      up to `r`. */
  lemma {:induction false} StarsThen(p1: Pattern, p2: Pattern, s: string, u: nat, r: nat)
    requires AllStars(p1) && u <= r <= |s|
    requires forall q :: u <= q <= |s| ==> (MatchAt(p2, s, q).Some? <==> q <= r)
    requires GreedyRuns(p1, s[..r], u) == TailSpans(s[..r], u)
    ensures u + Sum(TailSpans(s[..r], u)) <= r
    ensures MatchAt(p2, s, u + Sum(TailSpans(s[..r], u))).Some?
    ensures MatchAt(p1 + p2, s, u) ==
              Some(TailSpans(s[..r], u) + MatchAt(p2, s, u + Sum(TailSpans(s[..r], u))).value)
  {
    StarsUpTo(p1, p2, s, u, r);
  }

  /** From `u` on, `Rest` matches exactly at the positions up to the longitude sign `r`. */
  lemma {:induction false} RestUpTo(s: string, u: nat, r: nat)
    requires IsLine(s) && u <= r && LonSign(s) == Some(r)
    ensures r <= |s|
    ensures forall q :: u <= q <= |s| ==> (MatchAt(Rest, s, q).Some? <==> q <= r)
  {
    RestWhere(s);
  }

  lemma {:induction false} TailRestUnfolds(s: string, u: nat, r: nat)
    requires u <= r && LonSign(s) == Some(r)
    requires RestScan(s, u + Sum(TailSpans(s[..r], u))).Some?
    ensures TailRestScan(s, u) == Some(TailSpans(s[..r], u) + RestScan(s, u + Sum(TailSpans(s[..r], u))).value)
  {
  }

  /** `Tail + Rest` matches, on a line, from exactly the positions up to the longitude sign. */
  lemma {:induction false} TailRestWhere(s: string)
    requires IsLine(s)
    ensures forall q: nat :: q <= |s| ==>
              (MatchAt(Tail + Rest, s, q).Some? <==> LonSign(s).Some? && q <= LonSign(s).value)
  {
    forall q: nat | q <= |s|
      ensures MatchAt(Tail + Rest, s, q).Some? <==> LonSign(s).Some? && q <= LonSign(s).value
    {
      TailRestMatches(s, q);
      TailRestScanSome(s, q);
    }
  }

  /** The spans of the first match of the whole pattern at `n`, on a line. */
  function TelemetryScanAt(s: string, n: nat): Option<seq<nat>>
    requires n <= |s|
  {
    match LonSign(s)
    case None => None
    case Some(r) =>
      if n <= r then
        match HeadScan(LatSigns, s[..r], n)
        case None => None
        case Some(h) =>
          HeadSpansFit(LatSigns, s[..r], n);
          match TailRestScan(s, n + Sum(h))
          case None => None
          case Some(rest) => Some(h + rest)
      else None
  }

  lemma {:induction false} TelemetryMatchesAt(s: string, n: nat)
    requires IsLine(s) && n <= |s|
    ensures MatchAt(Telemetry, s, n) == TelemetryScanAt(s, n)
  {
    if LonSign(s).Some? && n <= LonSign(s).value {
      TelemetrySettles(s, n, LonSign(s).value);
    } else {
      TailRestWhere(s);
      AppendNoMatch(Head(LatSigns), Tail + Rest, s, n);
    }
  }

  lemma {:induction false} TelemetrySettles(s: string, n: nat, r: nat)
    requires IsLine(s) && n <= r && LonSign(s) == Some(r)
    ensures MatchAt(Telemetry, s, n) == TelemetryScanAt(s, n)
  {
    TailRestUpTo(s, n, r);
    HeadMatches(LatSigns, s[..r], n);
    if HeadScan(LatSigns, s[..r], n).Some? {
      var h := HeadScan(LatSigns, s[..r], n).value;
      HeadSpansFit(LatSigns, s[..r], n);
      TailRestMatches(s, n + Sum(h));
    }
    HeadThen(Head(LatSigns), Tail + Rest, s, n, r, HeadScan(LatSigns, s[..r], n));
  }

  /** From `n` on, `Tail + Rest` matches exactly at the positions up to the longitude sign `r`. */
  lemma {:induction false} TailRestUpTo(s: string, n: nat, r: nat)
    requires IsLine(s) && n <= r && LonSign(s) == Some(r)
    ensures r <= |s|
    ensures forall q :: n <= q <= |s| ==> (MatchAt(Tail + Rest, s, q).Some? <==> q <= r)
  {
    TailRestWhere(s);
  }

  /** A pattern whose first match within the first `r` characters is `h`, before a pattern that
      matches exactly up to `r`. */
  lemma {:induction false} HeadThen(p1: Pattern, p2: Pattern, s: string, n: nat, r: nat, h: Option<seq<nat>>)
    requires n <= r <= |s| && MatchAt(p1, s[..r], n) == h
    requires forall q :: n <= q <= |s| ==> (MatchAt(p2, s, q).Some? <==> q <= r)
    ensures h.None? ==> MatchAt(p1 + p2, s, n).None?
    ensures h.Some? ==> n + Sum(h.value) <= r && MatchAt(p2, s, n + Sum(h.value)).Some?
    ensures h.Some? ==> MatchAt(p1 + p2, s, n) == Some(h.value + MatchAt(p2, s, n + Sum(h.value)).value)
  {
    MatchAtAppend(p1, p2, s, n, r);
  }

  /** Looking at the first `m` characters does not move the first occurrence before `hi`. */
  lemma {:induction false} FirstInPrefix(s: string, m: nat, lo: nat, hi: nat, cls: Class)
    requires lo <= hi <= m <= |s|
    ensures FirstIn(s[..m], lo, hi, cls) == FirstIn(s, lo, hi, cls)
    decreases hi - lo
  {
    if lo < hi {
      assert s[..m][lo] == s[lo];
      FirstInPrefix(s, m, lo + 1, hi, cls);
    }
  }

  /** `n` can start a match whose longitude sign is at `r`: a north/south sign there and a degree
      sign between it and `r`. */
  predicate LatOk(s: string, r: nat, n: nat)
    requires r <= |s|
  {
    n < r && s[n] in LatSigns && FirstIn(s, n + 1, r, DegreeSign).Some?
  }

  lemma {:induction false} TelemetryScanSome(s: string, n: nat)
    requires n <= |s|
    ensures TelemetryScanAt(s, n).Some? <==> LonSign(s).Some? && LatOk(s, LonSign(s).value, n)
  {
    if LonSign(s).Some? && n <= LonSign(s).value {
      var r := LonSign(s).value;
      LatHeadSome(s, r, n);
      match HeadScan(LatSigns, s[..r], n)
      case None =>
      case Some(h) =>
        HeadSpansFit(LatSigns, s[..r], n);
        TailRestScanSome(s, n + Sum(h));
    }
  }

  lemma {:induction false} LatHeadSome(s: string, r: nat, n: nat)
    requires n <= r <= |s|
    ensures HeadScan(LatSigns, s[..r], n).Some? <==> LatOk(s, r, n)
  {
    if n < r && s[n] in LatSigns {
      assert s[..r][n] == s[n];
      BodyScanSome(s[..r], n + 1);
      FirstInPrefix(s, r, n + 1, r, DegreeSign);
    }
  }

  /** Where the match starts: the first north/south sign with a degree sign between it and the
      longitude sign. */
  function LatSign(s: string, r: nat): (n: Option<nat>)
    requires r <= |s|
    ensures n.Some? ==> n.value < r
  {
    match LastIn(s, 0, r, DegreeSign)
    case None => None
    case Some(l) => FirstIn(s, 0, l, OneOf(LatSigns))
  }

  lemma {:induction false} LatSignIsFirst(s: string, r: nat)
    requires r <= |s|
    ensures LatSign(s, r).Some? ==> LatOk(s, r, LatSign(s, r).value)
    ensures LatSign(s, r).Some? ==> forall j: nat :: j < LatSign(s, r).value ==> !LatOk(s, r, j)
    ensures LatSign(s, r).None? ==> forall j: nat :: j <= |s| ==> !LatOk(s, r, j)
  {
    LastInSpec(s, 0, r, DegreeSign);
    match LastIn(s, 0, r, DegreeSign)
    case None =>
      forall j: nat | j <= |s| ensures !LatOk(s, r, j) {
        if j < r {
          FirstInSpec(s, j + 1, r, DegreeSign);
        }
      }
    case Some(l) =>
      forall j: nat | j <= |s| ensures LatOk(s, r, j) <==> j < l && s[j] in LatSigns {
        if j < r {
          FirstInSpec(s, j + 1, r, DegreeSign);
        }
        if j < l {
          assert Accepts(DegreeSign, s[l]);
        }
      }
      FirstInSpec(s, 0, l, OneOf(LatSigns));
  }

  /** The closed form of the first match of the telemetry pattern in a line. */
  function Scan(s: string): Option<(nat, seq<nat>)>
  {
    match LonSign(s)
    case None => None
    case Some(r) =>
      match LatSign(s, r)
      case None => None
      case Some(n) =>
        match TelemetryScanAt(s, n)
        case None => None
        case Some(ks) => Some((n, ks))
  }

  /** The backtracking search over the whole line finds the match `Scan` describes. */
  lemma {:induction false} ScanIsFirstMatch(s: string)
    requires IsLine(s)
    ensures FirstMatch(Telemetry, s, 0) == Scan(s)
  {
    forall n: nat | n <= |s|
      ensures MatchAt(Telemetry, s, n).Some? <==> LonSign(s).Some? && LatOk(s, LonSign(s).value, n)
    {
      TelemetryMatchesAt(s, n);
      TelemetryScanSome(s, n);
    }
    match LonSign(s)
    case None =>
      FirstMatchFails(Telemetry, s, 0);
    case Some(r) =>
      LatSignIsFirst(s, r);
      match LatSign(s, r)
      case None =>
        FirstMatchFails(Telemetry, s, 0);
      case Some(n) =>
        TelemetryMatchesAt(s, n);
        FirstMatchSettles(Telemetry, s, 0, n);
  }

  /** The groups of a head: its sign, then its degrees. */
  lemma {:induction false} HeadGroupItems(signs: string)
    ensures GroupItems(Head(signs)) == [Once(OneOf(signs), true), Star(Digit, true)]
  {
    assert GroupItems(Mark) == [] by {
      assert GroupItems(Mark[1..]) == [];
    }
    assert GroupItems(DigitsMark) == [Star(Digit, true)];
    assert GroupItems(Body) == [Star(Digit, true)];
  }

  /** The groups of the whole pattern: latitude sign, degrees, minutes, seconds, then the same for
      the longitude. */
  lemma {:induction false} TelemetryGroupItems()
    ensures GroupItems(Telemetry) ==
              [ Once(OneOf(LatSigns), true), Star(Digit, true), Star(Digit, true), Star(Digit, true),
                Once(OneOf(LonSigns), true), Star(Digit, true), Star(Digit, true), Star(Digit, true) ]
  {
    assert GroupItems(Tail) == [Star(Digit, true), Star(Digit, true)] by {
      assert GroupItems(Tail[1..]) == [Star(Digit, true), Star(Digit, true)] by {
        assert GroupItems(Tail[2..]) == [Star(Digit, true)] by {
          assert GroupItems(Tail[3..]) == [Star(Digit, true)];
        }
      }
    }
    HeadGroupItems(LatSigns);
    HeadGroupItems(LonSigns);
    GroupItemsAppend(Head(LonSigns), Tail);
    GroupItemsAppend([Star(Dot, false)], Lon);
    GroupItemsAppend(Tail, Rest);
    GroupItemsAppend(Head(LatSigns), Tail + Rest);
  }

  /** A head captures its sign and its degrees. */
  lemma {:induction false} HeadGroups(signs: string, s: string, pos: nat, h: seq<nat>)
    requires |h| == 5
    ensures Groups(Head(signs), s, pos, h) ==
              [Slice(s, pos, pos + h[0]), Slice(s, pos + h[0] + h[1], pos + h[0] + h[1] + h[2])]
  {
    var p := Head(signs);
    var x := pos + h[0] + h[1] + h[2];
    assert p[1..] == Body && Body[1..] == DigitsMark && DigitsMark[1..] == Mark;
    assert Groups(Mark, s, x, h[3..]) == [] by {
      assert Groups(Mark[1..], s, x + h[3], h[4..]) == [];
    }
    assert Groups(DigitsMark, s, x - h[2], h[2..]) == [Slice(s, x - h[2], x)];
    assert Groups(Body, s, pos + h[0], h[1..]) == [Slice(s, x - h[2], x)];
  }

  /** A tail captures its two digit runs. */
  lemma {:induction false} TailGroups(s: string, pos: nat, t: seq<nat>)
    requires |t| == 4
    ensures Groups(Tail, s, pos, t) ==
              [ Slice(s, pos + t[0], pos + t[0] + t[1]),
                Slice(s, pos + t[0] + t[1] + t[2], pos + t[0] + t[1] + t[2] + t[3]) ]
  {
    var x := pos + t[0] + t[1] + t[2];
    assert Groups(Tail[3..], s, x, t[3..]) == [Slice(s, x, x + t[3])] by {
      assert Groups(Tail[4..], s, x + t[3], t[4..]) == [];
    }
    assert Tail[2..][1..] == Tail[3..] && Tail[1..][1..] == Tail[2..];
    assert Groups(Tail[2..], s, x - t[2], t[2..]) == [Slice(s, x, x + t[3])];
    assert Groups(Tail[1..], s, pos + t[0], t[1..]) ==
           [Slice(s, pos + t[0], pos + t[0] + t[1]), Slice(s, x, x + t[3])];
  }

  /** The groups of the whole pattern: those of the two heads and the two tails; `.*` captures
      nothing. */
  lemma {:induction false} TelemetryGroups(s: string, n: nat, u: nat, r: nat, x: nat,
                                           h1: seq<nat>, t1: seq<nat>, h2: seq<nat>, t2: seq<nat>)
    requires |h1| == 5 && |t1| == 4 && |h2| == 5 && |t2| == 4
    requires n + Sum(h1) == u && u + Sum(t1) <= r && r + Sum(h2) == x
    ensures Groups(Telemetry, s, n, h1 + (t1 + ([r - (u + Sum(t1))] + (h2 + t2)))) ==
              [ Slice(s, n, n + h1[0]), Slice(s, n + h1[0] + h1[1], n + h1[0] + h1[1] + h1[2]),
                Slice(s, u + t1[0], u + t1[0] + t1[1]),
                Slice(s, u + t1[0] + t1[1] + t1[2], u + t1[0] + t1[1] + t1[2] + t1[3]),
                Slice(s, r, r + h2[0]), Slice(s, r + h2[0] + h2[1], r + h2[0] + h2[1] + h2[2]),
                Slice(s, x + t2[0], x + t2[0] + t2[1]),
                Slice(s, x + t2[0] + t2[1] + t2[2], x + t2[0] + t2[1] + t2[2] + t2[3]) ]
  {
    var t := u + Sum(t1);
    var k := r - t;
    GroupsAppend(Head(LonSigns), Tail, s, r, h2, t2);
    GroupsAppend([Star(Dot, false)], Lon, s, t, [k], h2 + t2);
    assert Sum([k]) == k;
    assert Groups([Star(Dot, false)], s, t, [k]) == [];
    GroupsAppend(Tail, Rest, s, u, t1, [k] + (h2 + t2));
    GroupsAppend(Head(LatSigns), Tail + Rest, s, n, h1, t1 + ([k] + (h2 + t2)));
    HeadGroups(LatSigns, s, n, h1);
    TailGroups(s, u, t1);
    HeadGroups(LonSigns, s, r, h2);
    TailGroups(s, x, t2);
  }

  // Proof helpers. `HeadIs`, `ScanIs`, `TelemetryAtIs`, `TailRestIs` and `RestIs` unfold the
  // closed form one layer at a time for concrete lines; they state nothing beyond the definitions
  // of `HeadScan`, `Scan`, `TelemetryScanAt`, `TailRestScan` and `RestScan`.

  /** A head whose digits are followed by a degree sign: the sign, the junk run, the digit run,
      everything up to that degree sign, and the degree sign. */
  lemma {:induction false} HeadIs(signs: string, s: string, n: nat, a: nat, b: nat, d: nat)
    requires n < |s| && s[n] in signs
    requires a == Run(s, n + 1, NonDigit) && n + 1 + a <= |s| && b == Run(s, n + 1 + a, Digit)
    requires n + 1 + a + b <= |s| && FirstIn(s, n + 1 + a + b, |s|, DegreeSign) == Some(d)
    ensures HeadScan(signs, s, n) == Some([1, a, b, d - (n + 1 + a + b), 1])
  {
    assert BodyScan(s, n + 1) == Some([a, b, d - (n + 1 + a + b), 1]);
    assert [1] + [a, b, d - (n + 1 + a + b), 1] == [1, a, b, d - (n + 1 + a + b), 1];
  }

  /** The closed form, put together from the signs and the spans of the two heads and tails. */
  lemma {:induction false} ScanIs(s: string, n: nat, u: nat, t: nat, r: nat, x: nat,
                                  h1: seq<nat>, t1: seq<nat>, h2: seq<nat>, t2: seq<nat>)
    requires n + Sum(h1) == u && u + Sum(t1) == t && t <= r && r + Sum(h2) == x
    requires LonSign(s) == Some(r) && LatSign(s, r) == Some(n)
    requires HeadScan(LatSigns, s[..r], n) == Some(h1) && TailSpans(s[..r], u) == t1
    requires HeadScan(LonSigns, s, r) == Some(h2) && x <= |s| && TailSpans(s, x) == t2
    ensures Scan(s) == Some((n, h1 + (t1 + ([r - t] + (h2 + t2)))))
  {
    RestIs(s, t, r, x, h2, t2);
    TailRestIs(s, u, r, t1, [r - t] + (h2 + t2));
    TelemetryAtIs(s, n, r, h1, t1 + ([r - t] + (h2 + t2)));
  }

  /** The whole pattern at `n`, from the latitude head and the spans after it. */
  lemma {:induction false} TelemetryAtIs(s: string, n: nat, r: nat, h1: seq<nat>, rest: seq<nat>)
    requires n <= r && LonSign(s) == Some(r) && HeadScan(LatSigns, s[..r], n) == Some(h1)
    requires n + Sum(h1) <= |s| && TailRestScan(s, n + Sum(h1)) == Some(rest)
    ensures TelemetryScanAt(s, n) == Some(h1 + rest)
  {
  }

  /** The latitude tail and what follows it, from the tail's spans and the spans after it. */
  lemma {:induction false} TailRestIs(s: string, u: nat, r: nat, t1: seq<nat>, rest: seq<nat>)
    requires u <= r && LonSign(s) == Some(r) && TailSpans(s[..r], u) == t1
    requires u + Sum(t1) <= |s| && RestScan(s, u + Sum(t1)) == Some(rest)
    ensures TailRestScan(s, u) == Some(t1 + rest)
  {
  }

  /** The longitude half and the `.*` before it, from the longitude sign and the spans after it. */
  lemma {:induction false} RestIs(s: string, t: nat, r: nat, x: nat, h2: seq<nat>, t2: seq<nat>)
    requires t <= r && LonSign(s) == Some(r) && r + Sum(h2) == x
    requires HeadScan(LonSigns, s, r) == Some(h2) && x <= |s| && TailSpans(s, x) == t2
    ensures RestScan(s, t) == Some([r - t] + (h2 + t2))
  {
    assert LonScan(s, r) == Some(h2 + t2);
  }

  /** What the pattern needs, in order: a north/south sign, a degree sign, an east/west sign and
      a degree sign. */
  ghost predicate MarkersInOrder(s: string)
  {
    exists n: nat, d1: nat, r: nat, d2: nat :: MarkersAt(s, n, d1, r, d2)
  }

  /** The markers at `n`, `d1`, `r` and `d2`. */
  predicate MarkersAt(s: string, n: nat, d1: nat, r: nat, d2: nat)
  {
    && n < d1 < r < d2 < |s|
    && s[n] in LatSigns && s[d1] == '°' && s[r] in LonSigns && s[d2] == '°'
  }

  /** The closed form finds a match exactly when the markers are there in order. */
  lemma {:induction false} ScanSomeIffMarkers(s: string)
    ensures Scan(s).Some? <==> MarkersInOrder(s)
  {
    if Scan(s).Some? {
      ScanNeedsSigns(s);
      ScanGivesMarkers(s);
    }
    if MarkersInOrder(s) {
      MarkersScan(s);
    }
  }

  lemma {:induction false} MarkersScan(s: string)
    requires MarkersInOrder(s)
    ensures Scan(s).Some?
  {
    var n: nat, d1: nat, r: nat, d2: nat :| MarkersAt(s, n, d1, r, d2);
    MarkersGiveScan(s, n, d1, r, d2);
  }

  lemma {:induction false} ScanGivesMarkers(s: string)
    requires LonSign(s).Some? && LatSign(s, LonSign(s).value).Some?
    ensures MarkersInOrder(s)
  {
    var r := LonSign(s).value;
    var n := LatSign(s, r).value;
    assert LonOk(s, r) by {
      LonSignIsLast(s);
    }
    assert LatOk(s, r, n) by {
      LatSignIsFirst(s, r);
    }
    var d1 := FirstIn(s, n + 1, r, DegreeSign).value;
    var d2 := FirstIn(s, r + 1, |s|, DegreeSign).value;
    FirstInSpec(s, n + 1, r, DegreeSign);
    FirstInSpec(s, r + 1, |s|, DegreeSign);
    assert MarkersAt(s, n, d1, r, d2);
  }

  lemma {:induction false} ScanNeedsSigns(s: string)
    requires Scan(s).Some?
    ensures LonSign(s).Some? && LatSign(s, LonSign(s).value).Some?
  {
  }

  lemma {:induction false} MarkersGiveScan(s: string, n: nat, d1: nat, r: nat, d2: nat)
    requires MarkersAt(s, n, d1, r, d2)
    ensures Scan(s).Some?
  {
    LonSignIsLast(s);
    assert LonOk(s, r) by {
      FirstInSpec(s, r + 1, |s|, DegreeSign);
    }
    var rm := LonSign(s).value;
    assert LatOk(s, rm, n) by {
      FirstInSpec(s, n + 1, rm, DegreeSign);
    }
    LatSignIsFirst(s, rm);
    TelemetryScanSome(s, LatSign(s, rm).value);
  }

  /** On a line, the pattern matches somewhere exactly when the markers are there in order. */
  lemma {:induction false} MatchIffMarkers(s: string)
    requires IsLine(s)
    ensures FirstMatch(Telemetry, s, 0).Some? <==> MarkersInOrder(s)
  {
    ScanIsFirstMatch(s);
    ScanSomeIffMarkers(s);
  }
}
