/**
 * The two String extensions the highlighter rests on: `ranges(of:)`, which
 * collects the leftmost non-overlapping matches of a pattern, and
 * `nsRange(from:)`, which turns a match into a location and a length.
 * String indices are modelled as character offsets.
 */
module StringRanges {
  import opened Matchers

  /** A half-open range `lo..<hi` of offsets into a string. */
  datatype Span = Span(lo: nat, hi: nat)

  /** A location and a length, as addAttributes expects them. */
  datatype NSRange = NSRange(location: int, length: int)

  /** No match of `p` starts at an offset in `a..<b`. */
  ghost predicate NoMatchIn(p: Pattern, s: seq<char>, a: nat, b: nat) {
    forall j :: a <= j < b ==> MatchAt(p, s, j).None?
  }

  /**
   * One search of `p` in `s[from..]`: the leftmost match that starts at or
   * after `from`, if there is one.
   */
  function FindFrom(p: Pattern, s: seq<char>, from: nat): (r: Option<Span>)
    decreases |s| - from
    ensures r.Some? ==>
      from <= r.value.lo < r.value.hi <= |s| &&
      MatchAt(p, s, r.value.lo) == Some(r.value.hi) &&
      NoMatchIn(p, s, from, r.value.lo)
    ensures r.None? ==> NoMatchIn(p, s, from, |s|)
  {
    if from >= |s| then None
    else
      match MatchAt(p, s, from)
      case Some(e) => Some(Span(from, e))
      case None => FindFrom(p, s, from + 1)
  }

  /**
   * The matches that repeated searches find when each search starts at the
   * end of the previous match; every one lies in `from..|s|` and is a match.
   */
  function ScanFrom(p: Pattern, s: seq<char>, from: nat): (r: seq<Span>)
    decreases |s| - from
    ensures forall k :: 0 <= k < |r| ==>
      from <= r[k].lo < r[k].hi <= |s| && MatchAt(p, s, r[k].lo) == Some(r[k].hi)
  {
    match FindFrom(p, s, from)
    case None => []
    case Some(m) => [m] + ScanFrom(p, s, m.hi)
  }

  /** All the matches that `ranges(of:)` collects in `s`. */
  function Scan(p: Pattern, s: seq<char>): seq<Span> {
    ScanFrom(p, s, 0)
  }

  /** Where the next search starts: the end of the last match, or the start of the string. */
  function Cursor(ranges: seq<Span>): nat {
    if ranges == [] then 0 else ranges[|ranges| - 1].hi
  }

  /**
   * `r` is the outcome of leftmost scanning from `from`: each span is a match,
   * each starts at or after the end of the one before it (the first at or
   * after `from`), no match starts in the gap before a span, and no match
   * starts after the end of the last one.
   */
  ghost predicate LeftmostFrom(p: Pattern, s: seq<char>, from: nat, r: seq<Span>) {
    (forall k :: 0 <= k < |r| ==> MatchAt(p, s, r[k].lo) == Some(r[k].hi)) &&
    (r == [] ==> NoMatchIn(p, s, from, |s|)) &&
    (r != [] ==>
       from <= r[0].lo && NoMatchIn(p, s, from, r[0].lo) &&
       NoMatchIn(p, s, r[|r| - 1].hi, |s|)) &&
    (forall i, j {:trigger r[i], r[j]} :: 0 <= i && j == i + 1 && j < |r| ==>
       r[i].hi <= r[j].lo && NoMatchIn(p, s, r[i].hi, r[j].lo))
  }

  /**
   * `ranges(of:)`: search, append the match, and search again from its
   * upper bound, until a search finds nothing.
   */
  method Ranges(p: Pattern, s: seq<char>) returns (ranges: seq<Span>)
    ensures ranges == Scan(p, s)
    ensures LeftmostFrom(p, s, 0, ranges)
    ensures InOrder(ranges, |s|)
  {
    ranges := [];
    var next := FindFrom(p, s, Cursor(ranges));
    while next.Some?
      invariant Cursor(ranges) <= |s|
      invariant ranges + ScanFrom(p, s, Cursor(ranges)) == Scan(p, s)
      invariant next == FindFrom(p, s, Cursor(ranges))
      decreases |s| - Cursor(ranges)
    {
      ScanStep(p, s, ranges, next.value);
      ranges := ranges + [next.value];
      next := FindFrom(p, s, Cursor(ranges));
    }
    ScanDone(p, s, ranges);
  }

  /** When a search from the cursor finds nothing, the result holds the whole scan. */
  lemma ScanDone(p: Pattern, s: seq<char>, ranges: seq<Span>)
    requires ranges + ScanFrom(p, s, Cursor(ranges)) == Scan(p, s)
    requires FindFrom(p, s, Cursor(ranges)).None?
    ensures ranges == Scan(p, s)
    ensures LeftmostFrom(p, s, 0, ranges)
    ensures InOrder(ranges, |s|)
  {
    assert ScanFrom(p, s, Cursor(ranges)) == [];
    assert ranges == Scan(p, s);
    ScanLeftmostOrdered(p, s);
  }

  /**
   * The spans are non-empty, end within `0..n`, and come in increasing order
   * without overlapping: each ends at or before every later one starts.
   */
  ghost predicate InOrder(spans: seq<Span>, n: nat) {
    (forall k :: 0 <= k < |spans| ==> spans[k].lo < spans[k].hi <= n) &&
    (forall i, j :: 0 <= i < j < |spans| ==> spans[i].hi <= spans[j].lo)
  }

  /** The matches a scan collects are leftmost, in bounds, non-empty and in increasing order. */
  lemma ScanLeftmostOrdered(p: Pattern, s: seq<char>)
    ensures LeftmostFrom(p, s, 0, Scan(p, s))
    ensures InOrder(Scan(p, s), |s|)
  {
    ScanIsLeftmost(p, s, 0);
    LeftmostOrdered(p, s, 0, Scan(p, s));
  }

  /** One search of the loop in `Ranges` moves one match from the scan still to do to the result. */
  lemma ScanStep(p: Pattern, s: seq<char>, ranges: seq<Span>, m: Span)
    requires FindFrom(p, s, Cursor(ranges)) == Some(m)
    ensures Cursor(ranges + [m]) == m.hi
    ensures ranges + ScanFrom(p, s, Cursor(ranges)) == (ranges + [m]) + ScanFrom(p, s, m.hi)
  {
  }

  /** Scanning yields exactly the leftmost non-overlapping matches. */
  lemma {:induction false} ScanIsLeftmost(p: Pattern, s: seq<char>, from: nat)
    decreases |s| - from
    ensures LeftmostFrom(p, s, from, ScanFrom(p, s, from))
  {
    var r := ScanFrom(p, s, from);
    match FindFrom(p, s, from)
    case None =>
    case Some(m) =>
      var rest := ScanFrom(p, s, m.hi);
      ScanIsLeftmost(p, s, m.hi);
      assert r == [m] + rest;
      if rest != [] {
        assert r[|r| - 1] == rest[|rest| - 1];
        assert r[0].hi <= r[1].lo && NoMatchIn(p, s, r[0].hi, r[1].lo) by {
          assert r[1] == rest[0];
        }
      }
      forall i, j | 1 <= i && j == i + 1 && j < |r|
        ensures r[i].hi <= r[j].lo && NoMatchIn(p, s, r[i].hi, r[j].lo)
      {
        assert r[i] == rest[i - 1] && r[j] == rest[j - 1];
      }
  }

  /** The first step of a leftmost scan leaves a leftmost scan of the rest. */
  lemma LeftmostTail(p: Pattern, s: seq<char>, from: nat, r: seq<Span>)
    requires LeftmostFrom(p, s, from, r) && r != []
    ensures LeftmostFrom(p, s, r[0].hi, r[1..])
  {
  }

  /** Leftmost scanning has one outcome only: the one `ScanFrom` computes. */
  lemma {:induction false} LeftmostIsScan(p: Pattern, s: seq<char>, from: nat, r: seq<Span>)
    requires LeftmostFrom(p, s, from, r)
    decreases |r|
    ensures r == ScanFrom(p, s, from)
  {
    match FindFrom(p, s, from)
    case None =>
      if r != [] {
        assert false;
      }
    case Some(m) =>
      assert r != [] by {
        if r == [] {
          assert false;
        }
      }
      assert r[0] == m by {
        if r[0].lo < m.lo {
            assert false;
        } else if r[0].lo > m.lo {
          assert false;
        }
      }
      LeftmostTail(p, s, from, r);
      LeftmostIsScan(p, s, m.hi, r[1..]);
      assert r == [r[0]] + r[1..];
  }

  /**
   * The matches of a leftmost scan come in strictly increasing order and do
   * not overlap: each starts at or after the end of every earlier one.
   */
  lemma {:induction false} LeftmostOrdered(p: Pattern, s: seq<char>, from: nat, r: seq<Span>)
    requires LeftmostFrom(p, s, from, r)
    ensures forall k :: 0 <= k < |r| ==> from <= r[k].lo < r[k].hi <= |s|
    ensures forall i, j :: 0 <= i < j < |r| ==> r[i].hi <= r[j].lo
  {
    forall j | 0 <= j < |r|
      ensures from <= r[j].lo < r[j].hi <= |s|
      ensures forall i :: 0 <= i < j ==> r[i].hi <= r[j].lo
    {
      var i := j;
      while i > 0
        invariant 0 <= i <= j
        invariant r[i].lo <= r[j].lo
        invariant forall h :: i <= h < j ==> r[h].hi <= r[j].lo
      {
        assert r[i - 1].hi <= r[i].lo;
        assert r[i - 1].lo < r[i - 1].hi;
        i := i - 1;
      }
    }
  }

  /**
   * Every match of `p` that starts at or after `from` is one of the spans
   * that scanning collects: matches never start inside one another, so the
   * leftmost scan skips none of them.
   */
  lemma {:induction false} ScanFindsEveryMatch(p: Pattern, s: seq<char>, from: nat, b: nat)
    requires from <= b && MatchAt(p, s, b).Some?
    decreases |s| - from
    ensures Span(b, MatchAt(p, s, b).value) in ScanFrom(p, s, from)
  {
    match FindFrom(p, s, from)
    case None =>
      assert false;
    case Some(m) =>
      assert ScanFrom(p, s, from) == [m] + ScanFrom(p, s, m.hi);
      if m.lo != b {
        if b < m.hi {
          NoMatchStartsInside(p, s, m.lo, b);
          assert false;
        }
        ScanFindsEveryMatch(p, s, m.hi, b);
      }
  }

  /** The spans of a scan are exactly the matches of the pattern in the text. */
  lemma ScanIsEveryMatch(p: Pattern, s: seq<char>, b: nat, e: nat)
    ensures Span(b, e) in Scan(p, s) <==> b < e <= |s| && IsMatch(p, s[b..e])
  {
    if b < e <= |s| {
      MatchAtIsMatch(p, s, b, e);
      if IsMatch(p, s[b..e]) {
        ScanFindsEveryMatch(p, s, 0, b);
      }
    }
    if Span(b, e) in Scan(p, s) {
      MatchAtIsMatch(p, s, b, e);
    }
  }

  /** Offset `i` lies in one of the spans of `spans`. */
  ghost predicate Covers(spans: seq<Span>, i: nat) {
    exists k :: 0 <= k < |spans| && spans[k].lo <= i < spans[k].hi
  }

  /** Offset `i` of `s` lies inside some match of `p`, wherever it starts. */
  ghost predicate InMatch(p: Pattern, s: seq<char>, i: nat) {
    exists b, e :: 0 <= b <= i < e <= |s| && IsMatch(p, s[b..e])
  }

  /** The spans a scan collects cover exactly the offsets that lie inside a match. */
  lemma ScanCoversMatches(p: Pattern, s: seq<char>, i: nat)
    ensures Covers(Scan(p, s), i) <==> InMatch(p, s, i)
  {
    var r := Scan(p, s);
    if Covers(r, i) {
      var k :| 0 <= k < |r| && r[k].lo <= i < r[k].hi;
      ScanIsEveryMatch(p, s, r[k].lo, r[k].hi);
      assert IsMatch(p, s[r[k].lo..r[k].hi]);
    }
    if InMatch(p, s, i) {
      var b, e :| 0 <= b <= i < e <= |s| && IsMatch(p, s[b..e]);
      ScanIsEveryMatch(p, s, b, e);
      var k :| 0 <= k < |r| && r[k] == Span(b, e);
    }
  }

  /** `String.distance(from:to:)` between two offsets. */
  function Distance(from: nat, to: nat): int {
    to - from
  }

  /** The span an NSRange denotes. */
  function SpanOf(n: NSRange): Span
    requires 0 <= n.location && 0 <= n.length
  {
    Span(n.location, n.location + n.length)
  }

  /**
   * `nsRange(from:)`: the location is the offset of the lower bound and the
   * length the distance from lower to upper bound, so the result stays
   * inside the string and denotes the same span.
   */
  function NsRange(s: seq<char>, range: Span): (n: NSRange)
    requires range.lo <= range.hi <= |s|
    ensures 0 <= n.location && 0 <= n.length && n.location + n.length <= |s|
    ensures SpanOf(n) == range
  {
    var startPos := Distance(0, range.lo);
    var endPos := Distance(0, range.hi);
    NSRange(startPos, endPos - startPos)
  }
}
