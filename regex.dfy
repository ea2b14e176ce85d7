/**
 * The fragment of the regex crate's matching semantics that the telemetry pattern uses: a
 * concatenation of items, each either one character of a class or a greedy star over a class,
 * some of them wrapped in a capture group.
 *
 * The crate promises leftmost-first semantics: the match that starts earliest wins, and among
 * the matches that start there, the one a backtracking search would meet first (greedy stars try
 * their longest span first). A match is represented by the vector `ks` of the lengths of its
 * items; the captured texts are read off that vector.
 */
module Regex {
  import opened Wrappers

  /** A bracket class `[..]`, a negated class `[^..]`, `\d` or `[^\d]`. */
  datatype Class = OneOf(chars: string) | NoneOf(chars: string) | Digit | NonDigit

  /** `\d`, taken here as the ASCII decimal digits. */
  predicate IsDigit(c: char) {
    '0' <= c <= '9'
  }

  predicate Accepts(cls: Class, c: char) {
    match cls
    case OneOf(cs) => c in cs
    case NoneOf(cs) => c !in cs
    case Digit => IsDigit(c)
    case NonDigit => !IsDigit(c)
  }

  /** `.` without the `s` flag matches every character except a line feed. */
  const Dot: Class := NoneOf("\n")

  /** `Once(c, _)` is the class `c` itself; `Star(c, _)` is the greedy `c*`; the flag marks a group. */
  datatype Item = Once(cls: Class, capture: bool) | Star(cls: Class, capture: bool)

  type Pattern = seq<Item>

  predicate AllIn(s: string, lo: nat, hi: nat, cls: Class)
    requires lo <= hi <= |s|
  {
    forall i :: lo <= i < hi ==> Accepts(cls, s[i])
  }

  function Sum(ks: seq<nat>): nat
  {
    if ks == [] then 0 else ks[0] + Sum(ks[1..])
  }

  /**
   * The relational meaning of a match: laid end to end from `pos`, item `i` of `p` spans `ks[i]`
   * characters of `s`, all of them in its class, and a `Once` item spans exactly one.
   */
  predicate Decomposes(p: Pattern, s: string, pos: nat, ks: seq<nat>)
    decreases |p|
  {
    && |ks| == |p|
    && pos <= |s|
    && (p != [] ==>
          && pos + ks[0] <= |s|
          && AllIn(s, pos, pos + ks[0], p[0].cls)
          && (p[0].Once? ==> ks[0] == 1)
          && Decomposes(p[1..], s, pos + ks[0], ks[1..]))
  }

  /** The order in which a backtracking search meets two matches of the same pattern at the same
      start: the first item where they differ decides, and the longer span is tried first. */
  predicate TriedFirst(a: seq<nat>, b: seq<nat>)
    decreases |a|
  {
    && |a| == |b|
    && (a == [] || a[0] > b[0] || (a[0] == b[0] && TriedFirst(a[1..], b[1..])))
  }

  /** The span a greedy star tries first: the longest run of `cls` characters from `pos`. */
  function Run(s: string, pos: nat, cls: Class): (n: nat)
    requires pos <= |s|
    ensures pos + n <= |s|
    decreases |s| - pos
  {
    if pos < |s| && Accepts(cls, s[pos]) then 1 + Run(s, pos + 1, cls) else 0
  }

  /** The run is made of `cls` characters and stops at the end or at a character outside `cls`. */
  lemma {:induction false} RunSpec(s: string, pos: nat, cls: Class)
    requires pos <= |s|
    ensures AllIn(s, pos, pos + Run(s, pos, cls), cls)
    ensures pos + Run(s, pos, cls) == |s| || !Accepts(cls, s[pos + Run(s, pos, cls)])
    decreases |s| - pos
  {
    if pos < |s| && Accepts(cls, s[pos]) {
      RunSpec(s, pos + 1, cls);
    }
  }

  /** The backtracking search for a match of `p` starting exactly at `pos`. */
  function MatchAt(p: Pattern, s: string, pos: nat): Option<seq<nat>>
    requires pos <= |s|
    decreases |p|, |s| - pos + 1
  {
    if p == [] then Some([])
    else
      match p[0]
      case Once(cls, _) =>
        if pos < |s| && Accepts(cls, s[pos]) then
          match MatchAt(p[1..], s, pos + 1)
          case Some(rest) => Some([1] + rest)
          case None => None
        else None
      case Star(cls, _) => Backtrack(p, s, pos, Run(s, pos, cls))
  }

  /** A greedy star at the head of `p` spanning `k` characters, then `k - 1`, ..., then none. */
  function Backtrack(p: Pattern, s: string, pos: nat, k: nat): Option<seq<nat>>
    requires p != [] && p[0].Star?
    requires pos + k <= |s|
    decreases |p|, k
  {
    match MatchAt(p[1..], s, pos + k)
    case Some(rest) => Some([k] + rest)
    case None => if k == 0 then None else Backtrack(p, s, pos, k - 1)
  }

  /** Soundness: what the search finds is a match. */
  lemma {:induction false} MatchAtSound(p: Pattern, s: string, pos: nat)
    requires pos <= |s|
    ensures MatchAt(p, s, pos).Some? ==> Decomposes(p, s, pos, MatchAt(p, s, pos).value)
    decreases |p|, |s| - pos + 1
  {
    if p != [] {
      match p[0]
      case Once(cls, _) =>
        if pos < |s| && Accepts(cls, s[pos]) {
          MatchAtSound(p[1..], s, pos + 1);
        }
      case Star(cls, _) =>
        RunSpec(s, pos, cls);
        BacktrackSound(p, s, pos, Run(s, pos, cls));
    }
  }

  lemma {:induction false} BacktrackSound(p: Pattern, s: string, pos: nat, k: nat)
    requires p != [] && p[0].Star?
    requires pos + k <= |s| && AllIn(s, pos, pos + k, p[0].cls)
    ensures Backtrack(p, s, pos, k).Some? ==>
              Decomposes(p, s, pos, Backtrack(p, s, pos, k).value) && Backtrack(p, s, pos, k).value[0] <= k
    decreases |p|, k
  {
    MatchAtSound(p[1..], s, pos + k);
    if MatchAt(p[1..], s, pos + k).None? && k > 0 {
      BacktrackSound(p, s, pos, k - 1);
    }
  }

  /** What `captures_iter` yields first: the search tried at each start position in turn. */
  function FirstMatch(p: Pattern, s: string, from: nat): (r: Option<(nat, seq<nat>)>)
    requires from <= |s|
    ensures r.Some? ==> from <= r.value.0 <= |s| && |r.value.1| == |p|
    decreases |s| - from
  {
    MatchAtSound(p, s, from);
    match MatchAt(p, s, from)
    case Some(ks) => Some((from, ks))
    case None => if from == |s| then None else FirstMatch(p, s, from + 1)
  }

  /** The leftmost-first match, stated without reference to any search. */
  ghost predicate IsLeftmostFirst(p: Pattern, s: string, start: nat, ks: seq<nat>)
  {
    && Decomposes(p, s, start, ks)
    && (forall j: nat, other :: j < start ==> !Decomposes(p, s, j, other))
    && (forall other :: Decomposes(p, s, start, other) ==> TriedFirst(ks, other))
  }

  ghost predicate NoMatch(p: Pattern, s: string)
  {
    forall j: nat, other :: !Decomposes(p, s, j, other)
  }

  lemma {:induction false} RunIsLongest(s: string, pos: nat, cls: Class, k: nat)
    requires pos + k <= |s| && AllIn(s, pos, pos + k, cls)
    ensures k <= Run(s, pos, cls)
    decreases k
  {
    if k > 0 {
      assert Accepts(cls, s[pos]);
      RunIsLongest(s, pos + 1, cls, k - 1);
    }
  }

  /** A run of `cls` characters from `pos` that stops at the end or at a character outside
      `cls` is the longest one. */
  lemma {:induction false} RunIs(s: string, pos: nat, cls: Class, k: nat)
    requires pos + k <= |s| && AllIn(s, pos, pos + k, cls)
    requires pos + k == |s| || !Accepts(cls, s[pos + k])
    ensures Run(s, pos, cls) == k
  {
    RunIsLongest(s, pos, cls, k);
    RunSpec(s, pos, cls);
  }

  /** Completeness and priority: whenever `p` matches at `pos` at all, the search finds a match,
      and no other match at `pos` is tried before it. */
  lemma {:induction false} MatchAtTriedFirst(p: Pattern, s: string, pos: nat, ks: seq<nat>)
    requires Decomposes(p, s, pos, ks)
    ensures MatchAt(p, s, pos).Some?
    ensures TriedFirst(MatchAt(p, s, pos).value, ks)
    decreases |p|, |s| - pos + 1
  {
    if p != [] {
      match p[0]
      case Once(cls, _) =>
        assert Accepts(cls, s[pos]);
        MatchAtTriedFirst(p[1..], s, pos + 1, ks[1..]);
      case Star(cls, _) =>
        RunIsLongest(s, pos, cls, ks[0]);
        RunSpec(s, pos, cls);
        BacktrackTriedFirst(p, s, pos, Run(s, pos, cls), ks);
    }
  }

  lemma {:induction false} BacktrackTriedFirst(p: Pattern, s: string, pos: nat, k: nat, ks: seq<nat>)
    requires p != [] && p[0].Star?
    requires pos + k <= |s| && AllIn(s, pos, pos + k, p[0].cls)
    requires Decomposes(p, s, pos, ks) && ks[0] <= k
    ensures Backtrack(p, s, pos, k).Some?
    ensures TriedFirst(Backtrack(p, s, pos, k).value, ks)
    decreases |p|, k
  {
    if ks[0] == k {
      MatchAtTriedFirst(p[1..], s, pos + k, ks[1..]);
    } else if MatchAt(p[1..], s, pos + k).None? {
      BacktrackTriedFirst(p, s, pos, k - 1, ks);
    } else {
      MatchAtSound(p[1..], s, pos + k);
    }
  }

  lemma {:induction false} TriedFirstAntisymmetric(a: seq<nat>, b: seq<nat>)
    requires |a| == |b| && TriedFirst(a, b) && TriedFirst(b, a)
    ensures a == b
    decreases |a|
  {
    if a != [] {
      TriedFirstAntisymmetric(a[1..], b[1..]);
      assert a == [a[0]] + a[1..] && b == [b[0]] + b[1..];
    }
  }

  /** `FirstMatch` finds exactly the leftmost-first match, and finds nothing only when the
      pattern matches nowhere. */
  lemma {:induction false} FirstMatchIsLeftmostFirst(p: Pattern, s: string, from: nat)
    requires from <= |s|
    requires forall j: nat, other :: j < from ==> !Decomposes(p, s, j, other)
    ensures FirstMatch(p, s, from).Some? ==>
              IsLeftmostFirst(p, s, FirstMatch(p, s, from).value.0, FirstMatch(p, s, from).value.1)
    ensures FirstMatch(p, s, from).None? ==> NoMatch(p, s)
    decreases |s| - from
  {
    var m := MatchAt(p, s, from);
    MatchAtSound(p, s, from);
    forall other | Decomposes(p, s, from, other)
      ensures m.Some? && TriedFirst(m.value, other)
    {
      MatchAtTriedFirst(p, s, from, other);
    }
    if m.None? && from < |s| {
      FirstMatchIsLeftmostFirst(p, s, from + 1);
    }
  }

  /** The first match of a search from the start of the text is the leftmost-first match. */
  lemma {:induction false} FirstMatchFromStart(p: Pattern, s: string, start: nat, ks: seq<nat>)
    requires FirstMatch(p, s, 0) == Some((start, ks))
    ensures IsLeftmostFirst(p, s, start, ks)
  {
    FirstMatchIsLeftmostFirst(p, s, 0);
  }

  /** What the search over start positions finds is a match. */
  lemma {:induction false} FirstMatchSound(p: Pattern, s: string, from: nat)
    requires from <= |s|
    ensures FirstMatch(p, s, from).Some? ==>
              Decomposes(p, s, FirstMatch(p, s, from).value.0, FirstMatch(p, s, from).value.1)
    decreases |s| - from
  {
    MatchAtSound(p, s, from);
    if MatchAt(p, s, from).None? && from < |s| {
      FirstMatchSound(p, s, from + 1);
    }
  }

  /** There is only one leftmost-first match. */
  lemma {:induction false} LeftmostFirstIsUnique(p: Pattern, s: string, i: nat, ks: seq<nat>, j: nat, ls: seq<nat>)
    requires IsLeftmostFirst(p, s, i, ks) && IsLeftmostFirst(p, s, j, ls)
    ensures i == j && ks == ls
  {
    assert !(i < j) && !(j < i);
    TriedFirstAntisymmetric(ks, ls);
  }

  /** A match never runs past the end of the text. */
  lemma {:induction false} DecomposesEnd(p: Pattern, s: string, pos: nat, ks: seq<nat>)
    requires Decomposes(p, s, pos, ks)
    ensures pos + Sum(ks) <= |s|
    decreases |p|
  {
    if p != [] {
      DecomposesEnd(p[1..], s, pos + ks[0], ks[1..]);
    }
  }

  /** The head and the tail of a concatenation whose first part is not empty. */
  lemma {:induction false} ConsAppend<T>(a: seq<T>, b: seq<T>)
    requires a != []
    ensures (a + b)[0] == a[0] && (a + b)[1..] == a[1..] + b
  {
    assert (a + b)[1..] == a[1..] + b;
  }

  lemma {:induction false} AppendAssoc<T>(a: seq<T>, b: seq<T>, c: seq<T>)
    ensures a + (b + c) == (a + b) + c
  {
    assert a + (b + c) == (a + b) + c;
  }

  lemma {:induction false} SumAppend(a: seq<nat>, b: seq<nat>)
    ensures Sum(a + b) == Sum(a) + Sum(b)
  {
    if a == [] {
      assert a + b == b;
    } else {
      assert (a + b)[1..] == a[1..] + b;
      SumAppend(a[1..], b);
    }
  }

  /** A match of `p1 + p2` is a match of `p1` followed by a match of `p2` where it ends. */
  lemma {:induction false} DecomposesAppend(p1: Pattern, p2: Pattern, s: string, pos: nat, ks1: seq<nat>, ks2: seq<nat>)
    requires |ks1| == |p1| && |ks2| == |p2|
    ensures Decomposes(p1 + p2, s, pos, ks1 + ks2) <==>
              Decomposes(p1, s, pos, ks1) && Decomposes(p2, s, pos + Sum(ks1), ks2)
    decreases |p1|
  {
    if p1 == [] {
      assert p1 + p2 == p2 && ks1 + ks2 == ks2;
    } else {
      var q, k, at := p1[1..], ks1[0], pos + ks1[0];
      assert (p1 + p2)[0] == p1[0] && (p1 + p2)[1..] == q + p2;
      assert (ks1 + ks2)[0] == k && (ks1 + ks2)[1..] == ks1[1..] + ks2;
      DecomposesAppend(q, p2, s, at, ks1[1..], ks2);
    }
  }

  lemma {:induction false} TriedFirstAppend(a1: seq<nat>, a2: seq<nat>, b1: seq<nat>, b2: seq<nat>)
    requires |a1| == |b1| && |a2| == |b2|
    requires TriedFirst(a1, b1) && (a1 == b1 ==> TriedFirst(a2, b2))
    ensures TriedFirst(a1 + a2, b1 + b2)
    decreases |a1|
  {
    if a1 == [] {
      assert a1 + a2 == a2 && b1 + b2 == b2;
    } else {
      assert (a1 + a2)[0] == a1[0] && (a1 + a2)[1..] == a1[1..] + a2;
      assert (b1 + b2)[0] == b1[0] && (b1 + b2)[1..] == b1[1..] + b2;
      if a1[0] == b1[0] {
        if a1[1..] == b1[1..] {
          assert a1 == [a1[0]] + a1[1..] && b1 == [b1[0]] + b1[1..];
        }
        TriedFirstAppend(a1[1..], a2, b1[1..], b2);
      }
    }
  }

  /** Matching in the first `m` characters is matching in the whole text with a match that ends
      by `m`. */
  lemma {:induction false} DecomposesPrefix(p: Pattern, s: string, m: nat, pos: nat, ks: seq<nat>)
    requires m <= |s|
    ensures Decomposes(p, s[..m], pos, ks) <==> Decomposes(p, s, pos, ks) && pos + Sum(ks) <= m
    decreases |p|
  {
    if p != [] && |ks| == |p| && pos <= m {
      if pos + ks[0] <= m {
        assert AllIn(s[..m], pos, pos + ks[0], p[0].cls) <==> AllIn(s, pos, pos + ks[0], p[0].cls);
      }
      DecomposesPrefix(p[1..], s, m, pos + ks[0], ks[1..]);
    }
    if Decomposes(p, s, pos, ks) {
      DecomposesEnd(p, s, pos, ks);
    }
  }

  /** The search succeeds exactly when some match exists. */
  lemma {:induction false} MatchAtFindsAny(p: Pattern, s: string, pos: nat, ks: seq<nat>)
    requires Decomposes(p, s, pos, ks)
    ensures MatchAt(p, s, pos).Some?
  {
    MatchAtTriedFirst(p, s, pos, ks);
  }

  /** A match of `p1 + p2` splits into a match of `p1` that ends by `m` and a match of `p2`. */
  lemma {:induction false} SplitMatch(p1: Pattern, p2: Pattern, s: string, pos: nat, m: nat, x: seq<nat>)
    requires m <= |s|
    requires forall q :: pos <= q <= |s| ==> (MatchAt(p2, s, q).Some? <==> q <= m)
    requires Decomposes(p1 + p2, s, pos, x)
    ensures |x| == |p1| + |p2| && x == x[..|p1|] + x[|p1|..]
    ensures Decomposes(p1, s[..m], pos, x[..|p1|])
    ensures Decomposes(p2, s, pos + Sum(x[..|p1|]), x[|p1|..])
  {
    var x1, x2 := x[..|p1|], x[|p1|..];
    assert x == x1 + x2;
    DecomposesAppend(p1, p2, s, pos, x1, x2);
    MatchAtFindsAny(p2, s, pos + Sum(x1), x2);
    DecomposesPrefix(p1, s, m, pos, x1);
  }

  /**
   * Sequencing: when `p2` matches from exactly the positions up to `m`, a match of `p1 + p2` is
   * the first match of `p1` within the first `m` characters, followed by the first match of `p2`
   * where it ends.
   */
  lemma {:induction false} MatchAtAppend(p1: Pattern, p2: Pattern, s: string, pos: nat, m: nat)
    requires pos <= m <= |s|
    requires forall q :: pos <= q <= |s| ==> (MatchAt(p2, s, q).Some? <==> q <= m)
    ensures MatchAt(p1 + p2, s, pos).Some? <==> MatchAt(p1, s[..m], pos).Some?
    ensures MatchAt(p1, s[..m], pos).Some? ==>
              var ks1 := MatchAt(p1, s[..m], pos).value;
              && pos + Sum(ks1) <= m
              && MatchAt(p2, s, pos + Sum(ks1)).Some?
              && MatchAt(p1 + p2, s, pos).value == ks1 + MatchAt(p2, s, pos + Sum(ks1)).value
  {
    var first := MatchAt(p1, s[..m], pos);
    var whole := MatchAt(p1 + p2, s, pos);
    if whole.Some? {
      MatchAtSound(p1 + p2, s, pos);
      SplitMatch(p1, p2, s, pos, m, whole.value);
      MatchAtFindsAny(p1, s[..m], pos, whole.value[..|p1|]);
    }
    if first.Some? {
      AppendFirst(p1, p2, s, pos, m);
    }
  }

  lemma {:induction false} AppendFirst(p1: Pattern, p2: Pattern, s: string, pos: nat, m: nat)
    requires pos <= m <= |s|
    requires forall q :: pos <= q <= |s| ==> (MatchAt(p2, s, q).Some? <==> q <= m)
    requires MatchAt(p1, s[..m], pos).Some?
    ensures var ks1 := MatchAt(p1, s[..m], pos).value;
            && pos + Sum(ks1) <= m
            && MatchAt(p2, s, pos + Sum(ks1)).Some?
            && MatchAt(p1 + p2, s, pos) == Some(ks1 + MatchAt(p2, s, pos + Sum(ks1)).value)
  {
    var ks1 := MatchAt(p1, s[..m], pos).value;
    MatchAtSound(p1, s[..m], pos);
    DecomposesPrefix(p1, s, m, pos, ks1);
    var e := pos + Sum(ks1);
    MatchAtSound(p2, s, e);
    var ks2 := MatchAt(p2, s, e).value;
    DecomposesAppend(p1, p2, s, pos, ks1, ks2);
    MatchAtTriedFirst(p1 + p2, s, pos, ks1 + ks2);
    MatchAtSound(p1 + p2, s, pos);
    var x := MatchAt(p1 + p2, s, pos).value;
    SplitMatch(p1, p2, s, pos, m, x);
    var x1, x2 := x[..|p1|], x[|p1|..];
    MatchAtTriedFirst(p1, s[..m], pos, x1);
    if ks1 == x1 {
      MatchAtTriedFirst(p2, s, e, x2);
    }
    TriedFirstAppend(ks1, ks2, x1, x2);
    TriedFirstAntisymmetric(x, ks1 + ks2);
  }

  /** When `p2` matches everywhere from `pos` on, `p1 + p2` matches as `p1` does, then `p2`. */
  lemma {:induction false} AppendEverywhere(p1: Pattern, p2: Pattern, s: string, pos: nat)
    requires pos <= |s|
    requires forall q :: pos <= q <= |s| ==> MatchAt(p2, s, q).Some?
    ensures MatchAt(p1, s, pos).None? ==> MatchAt(p1 + p2, s, pos).None?
    ensures MatchAt(p1, s, pos).Some? ==>
              var ks1 := MatchAt(p1, s, pos).value;
              && pos + Sum(ks1) <= |s|
              && MatchAt(p1 + p2, s, pos) == Some(ks1 + MatchAt(p2, s, pos + Sum(ks1)).value)
  {
    MatchAtAppend(p1, p2, s, pos, |s|);
    assert s[..|s|] == s;
  }

  /** Followed by stars alone, `p1` matches as on its own, and the stars then take their runs. */
  lemma {:induction false} AppendStars(p1: Pattern, p2: Pattern, s: string, pos: nat)
    requires pos <= |s| && AllStars(p2)
    ensures MatchAt(p1, s, pos).None? ==> MatchAt(p1 + p2, s, pos).None?
    ensures MatchAt(p1, s, pos).Some? ==>
              var ks1 := MatchAt(p1, s, pos).value;
              && pos + Sum(ks1) <= |s|
              && MatchAt(p1 + p2, s, pos) == Some(ks1 + GreedyRuns(p2, s, pos + Sum(ks1)))
  {
    forall q | pos <= q <= |s|
      ensures MatchAt(p2, s, q).Some?
    {
      AllStarsMatchGreedily(p2, s, q);
    }
    AppendEverywhere(p1, p2, s, pos);
    if MatchAt(p1, s, pos).Some? {
      var ks1 := MatchAt(p1, s, pos).value;
      AllStarsMatchGreedily(p2, s, pos + Sum(ks1));
    }
  }

  /** A greedy star settles on the longest span within its run after which the rest of the
      pattern matches. */
  lemma {:induction false} StarSettles(c: Class, g: bool, p: Pattern, s: string, pos: nat, j: nat)
    requires pos <= |s| && j <= Run(s, pos, c)
    requires MatchAt(p, s, pos + j).Some?
    requires forall q :: pos + j < q <= pos + Run(s, pos, c) ==> MatchAt(p, s, q).None?
    ensures MatchAt([Star(c, g)] + p, s, pos) == Some([j] + MatchAt(p, s, pos + j).value)
  {
    var sp := [Star(c, g)] + p;
    assert sp[0] == Star(c, g) && sp[1..] == p;
    assert MatchAt(sp, s, pos) == Backtrack(sp, s, pos, Run(s, pos, c));
    BacktrackSettles(sp, s, pos, Run(s, pos, c), j);
  }

  /** A greedy star fails when the rest of the pattern matches nowhere within its run. */
  lemma {:induction false} StarFails(c: Class, g: bool, p: Pattern, s: string, pos: nat)
    requires pos <= |s|
    requires forall q :: pos <= q <= pos + Run(s, pos, c) ==> MatchAt(p, s, q).None?
    ensures MatchAt([Star(c, g)] + p, s, pos).None?
  {
    var sp := [Star(c, g)] + p;
    assert sp[0] == Star(c, g) && sp[1..] == p;
    assert MatchAt(sp, s, pos) == Backtrack(sp, s, pos, Run(s, pos, c));
    BacktrackFails(sp, s, pos, Run(s, pos, c));
  }

  /** A star that can run to the end of the text settles on the last position where the rest of
      the pattern matches. */
  lemma {:induction false} StarToLast(c: Class, g: bool, p: Pattern, s: string, t: nat, r: nat)
    requires t <= r <= |s| && Run(s, t, c) == |s| - t
    requires MatchAt(p, s, r).Some?
    requires forall q :: r < q <= |s| ==> MatchAt(p, s, q).None?
    ensures MatchAt([Star(c, g)] + p, s, t) == Some([r - t] + MatchAt(p, s, r).value)
  {
    StarSettles(c, g, p, s, t, r - t);
  }

  /** Stars followed by `p2`, where `p2` matches from exactly the positions up to `m`: the stars
      take their longest runs within the first `m` characters. */
  lemma {:induction false} StarsUpTo(p1: Pattern, p2: Pattern, s: string, pos: nat, m: nat)
    requires AllStars(p1) && pos <= m <= |s|
    requires forall q :: pos <= q <= |s| ==> (MatchAt(p2, s, q).Some? <==> q <= m)
    ensures var ks1 := GreedyRuns(p1, s[..m], pos);
            && pos + Sum(ks1) <= m
            && MatchAt(p1 + p2, s, pos) == Some(ks1 + MatchAt(p2, s, pos + Sum(ks1)).value)
  {
    MatchAtAppend(p1, p2, s, pos, m);
    AllStarsMatchGreedily(p1, s[..m], pos);
  }

  /** When `p2` matches nowhere from `pos` on, neither does `p1 + p2`. */
  lemma {:induction false} AppendNoMatch(p1: Pattern, p2: Pattern, s: string, pos: nat)
    requires pos <= |s|
    requires forall q :: pos <= q <= |s| ==> MatchAt(p2, s, q).None?
    ensures MatchAt(p1 + p2, s, pos).None?
  {
    var whole := MatchAt(p1 + p2, s, pos);
    if whole.Some? {
      MatchAtSound(p1 + p2, s, pos);
      var x := whole.value;
      var x1, x2 := x[..|p1|], x[|p1|..];
      assert x == x1 + x2;
      DecomposesAppend(p1, p2, s, pos, x1, x2);
      DecomposesEnd(p1, s, pos, x1);
      MatchAtFindsAny(p2, s, pos + Sum(x1), x2);
    }
  }

  /** The search settles on the first start position where `p` matches. */
  lemma {:induction false} FirstMatchSettles(p: Pattern, s: string, from: nat, n: nat)
    requires from <= n <= |s| && MatchAt(p, s, n).Some?
    requires forall j :: from <= j < n ==> MatchAt(p, s, j).None?
    ensures FirstMatch(p, s, from) == Some((n, MatchAt(p, s, n).value))
    decreases n - from
  {
    if from < n {
      FirstMatchSettles(p, s, from + 1, n);
    }
  }

  lemma {:induction false} FirstMatchFails(p: Pattern, s: string, from: nat)
    requires from <= |s|
    requires forall j :: from <= j <= |s| ==> MatchAt(p, s, j).None?
    ensures FirstMatch(p, s, from).None?
    decreases |s| - from
  {
    if from < |s| {
      FirstMatchFails(p, s, from + 1);
    }
  }

  /** A greedy star settles on the longest span after which the rest of the pattern matches. */
  lemma {:induction false} BacktrackSettles(p: Pattern, s: string, pos: nat, k: nat, j: nat)
    requires p != [] && p[0].Star?
    requires pos + k <= |s|
    requires j <= k && MatchAt(p[1..], s, pos + j).Some?
    requires forall q :: pos + j < q <= pos + k ==> MatchAt(p[1..], s, q).None?
    ensures Backtrack(p, s, pos, k) == Some([j] + MatchAt(p[1..], s, pos + j).value)
    decreases k
  {
    if j < k {
      BacktrackSettles(p, s, pos, k - 1, j);
    }
  }

  lemma {:induction false} BacktrackFails(p: Pattern, s: string, pos: nat, k: nat)
    requires p != [] && p[0].Star?
    requires pos + k <= |s|
    requires forall q :: pos <= q <= pos + k ==> MatchAt(p[1..], s, q).None?
    ensures Backtrack(p, s, pos, k).None?
    decreases k
  {
    if k > 0 {
      BacktrackFails(p, s, pos, k - 1);
    }
  }

  /** `p` is made of stars alone, so it matches everywhere at the first try. */
  predicate AllStars(p: Pattern) {
    forall i :: 0 <= i < |p| ==> p[i].Star?
  }

  /** The spans of an all-star pattern when each star takes its longest run. */
  function GreedyRuns(p: Pattern, s: string, pos: nat): (ks: seq<nat>)
    requires pos <= |s|
    ensures |ks| == |p| && pos + Sum(ks) <= |s|
    decreases |p|
  {
    if p == [] then []
    else
      var k := Run(s, pos, p[0].cls);
      [k] + GreedyRuns(p[1..], s, pos + k)
  }

  lemma {:induction false} GreedyRunsStep(p: Pattern, s: string, pos: nat)
    requires pos <= |s| && p != []
    ensures GreedyRuns(p, s, pos) ==
              [Run(s, pos, p[0].cls)] + GreedyRuns(p[1..], s, pos + Run(s, pos, p[0].cls))
  {
  }

  lemma {:induction false} AllStarsMatchGreedily(p: Pattern, s: string, pos: nat)
    requires pos <= |s| && AllStars(p)
    ensures MatchAt(p, s, pos) == Some(GreedyRuns(p, s, pos))
    decreases |p|
  {
    if p != [] {
      var k := Run(s, pos, p[0].cls);
      AllStarsMatchGreedily(p[1..], s, pos + k);
      assert Backtrack(p, s, pos, k) == Some([k] + GreedyRuns(p[1..], s, pos + k));
    }
  }

  /** The items of `p` that are capture groups, in the order of their opening parentheses. */
  function GroupItems(p: Pattern): (g: seq<Item>)
    ensures |g| <= |p|
  {
    if p == [] then []
    else (if p[0].capture then [p[0]] else []) + GroupItems(p[1..])
  }

  /** `s[lo..hi]`, or nothing when the bounds do not fit; a match always fits. */
  function Slice(s: string, lo: nat, hi: nat): (t: string)
    ensures lo <= hi <= |s| ==> t == s[lo..hi]
  {
    if lo <= hi <= |s| then s[lo..hi] else []
  }

  lemma {:induction false} GroupItemsAppend(p1: Pattern, p2: Pattern)
    ensures GroupItems(p1 + p2) == GroupItems(p1) + GroupItems(p2)
    decreases |p1|
  {
    if p1 == [] {
      assert p1 + p2 == p2;
    } else {
      var head := if p1[0].capture then [p1[0]] else [];
      assert (p1 + p2)[0] == p1[0] && (p1 + p2)[1..] == p1[1..] + p2;
      assert GroupItems(p1 + p2) == head + GroupItems(p1[1..] + p2);
      GroupItemsAppend(p1[1..], p2);
    }
  }

  /** The texts of the capture groups of a match. */
  function Groups(p: Pattern, s: string, pos: nat, ks: seq<nat>): (g: seq<string>)
    requires |ks| == |p|
    ensures |g| == |GroupItems(p)|
    decreases |p|
  {
    if p == [] then []
    else
      var here := Slice(s, pos, pos + ks[0]);
      (if p[0].capture then [here] else []) + Groups(p[1..], s, pos + ks[0], ks[1..])
  }

  lemma {:induction false} GroupsAppend(p1: Pattern, p2: Pattern, s: string, pos: nat, ks1: seq<nat>, ks2: seq<nat>)
    requires |ks1| == |p1| && |ks2| == |p2|
    ensures Groups(p1 + p2, s, pos, ks1 + ks2) == Groups(p1, s, pos, ks1) + Groups(p2, s, pos + Sum(ks1), ks2)
    decreases |p1|
  {
    if p1 == [] {
      assert p1 + p2 == p2 && ks1 + ks2 == ks2;
    } else {
      var q, k, at := p1[1..], ks1[0], pos + ks1[0];
      var head := if p1[0].capture then [Slice(s, pos, at)] else [];
      ConsAppend(p1, p2);
      ConsAppend(ks1, ks2);
      GroupsCons(p1 + p2, s, pos, ks1 + ks2);
      GroupsCons(p1, s, pos, ks1);
      GroupsAppend(q, p2, s, at, ks1[1..], ks2);
      AppendAssoc(head, Groups(q, s, at, ks1[1..]), Groups(p2, s, at + Sum(ks1[1..]), ks2));
    }
  }

  /** The first item of a pattern contributes its own text, when it is a group, ahead of the
      rest of the pattern's groups. */
  lemma {:induction false} GroupsCons(p: Pattern, s: string, pos: nat, ks: seq<nat>)
    requires |ks| == |p| && p != []
    ensures Groups(p, s, pos, ks) ==
              (if p[0].capture then [Slice(s, pos, pos + ks[0])] else []) + Groups(p[1..], s, pos + ks[0], ks[1..])
  {
  }

  /** Each captured text consists of characters of its group's class, and a group around a
      single class captures exactly one character. */
  lemma {:induction false} GroupsInClass(p: Pattern, s: string, pos: nat, ks: seq<nat>, j: nat)
    requires Decomposes(p, s, pos, ks) && j < |GroupItems(p)|
    ensures forall c :: c in Groups(p, s, pos, ks)[j] ==> Accepts(GroupItems(p)[j].cls, c)
    ensures GroupItems(p)[j].Once? ==> |Groups(p, s, pos, ks)[j]| == 1
    decreases |p|
  {
    var rest := Groups(p[1..], s, pos + ks[0], ks[1..]);
    if p[0].capture && j == 0 {
      assert Groups(p, s, pos, ks)[0] == s[pos..pos + ks[0]];
    } else {
      var j' := if p[0].capture then j - 1 else j;
      GroupsInClass(p[1..], s, pos + ks[0], ks[1..], j');
      assert Groups(p, s, pos, ks)[j] == rest[j'];
      assert GroupItems(p)[j] == GroupItems(p[1..])[j'];
    }
  }

  /** What Rust's `Captures` holds: group 0 is the whole match, groups 1.. the capture groups. */
  function Captures(p: Pattern, s: string, start: nat, ks: seq<nat>): (caps: seq<string>)
    requires |ks| == |p|
    ensures |caps| == 1 + |GroupItems(p)|
  {
    [Slice(s, start, start + Sum(ks))] + Groups(p, s, start, ks)
  }

  /** Group 0 of a match is the text it spans. */
  lemma {:induction false} CapturesWhole(p: Pattern, s: string, start: nat, ks: seq<nat>)
    requires Decomposes(p, s, start, ks)
    ensures start + Sum(ks) <= |s|
    ensures Captures(p, s, start, ks)[0] == s[start..start + Sum(ks)]
  {
    DecomposesEnd(p, s, start, ks);
  }
}
