/**
 * What the highlighting pass leaves on each character, stated without
 * reference to the order of the scans: a character's colour is that of the
 * last pass whose pattern has a match covering it, its font is bold exactly
 * when a quantifier pass covered it, and a character no match covers is
 * regular and black, whatever its attributes were before.
 */
module HighlightProperties {
  import opened Matchers
  import opened StringRanges
  import opened SyntaxHighlighting

  /** The font the highlighter should leave on offset `i` of `s`. */
  ghost function ExpectedFont(s: seq<char>, i: nat): Font {
    if InMatch(Repetition, s, i) || InMatch(Quantifier, s, i) then Bold else Regular
  }

  /** The colour the highlighter should leave on offset `i` of `s`: the last matching pass wins. */
  ghost function ExpectedColor(s: seq<char>, i: nat): Color {
    if InMatch(Anchor, s, i) then Blue
    else if InMatch(Quantifier, s, i) || InMatch(Repetition, s, i) then DarkGreen
    else if InMatch(Group, s, i) then Green
    else if InMatch(Escape, s, i) then Red
    else Black
  }

  /**
   * Adding `u` over a list of spans adds it once to each character some span
   * covers and leaves every other character as it was.
   */
  lemma {:induction false} PaintedAt(store: seq<Attr>, s: seq<char>, spans: seq<Span>, u: Attributes, i: nat)
    requires |store| == |s| && i < |s|
    requires forall k :: 0 <= k < |spans| ==> spans[k].lo <= spans[k].hi <= |s|
    decreases |spans|
    ensures Painted(store, s, spans, u)[i] == if Covers(spans, i) then Merge(store[i], u) else store[i]
  {
    if spans != [] {
      var init := spans[..|spans| - 1];
      var last := spans[|spans| - 1];
      PaintedAt(store, s, init, u, i);
      var n := NsRange(s, last);
      assert n.location == last.lo && n.location + n.length == last.hi;
      if Covers(init, i) {
        var k :| 0 <= k < |init| && init[k].lo <= i < init[k].hi;
        assert spans[k] == init[k];
        MergeIdempotent(store[i], u);
      }
      if last.lo <= i < last.hi {
        assert Covers(spans, i);
      }
      if Covers(spans, i) && !(last.lo <= i < last.hi) {
        var k :| 0 <= k < |spans| && spans[k].lo <= i < spans[k].hi;
        assert init[k] == spans[k];
        assert Covers(init, i);
      }
    }
  }

  /**
   * One pass adds its attributes to exactly the characters that lie inside a
   * match of its pattern; it changes no key it does not set and no other
   * character.
   */
  lemma PassAt(store: seq<Attr>, s: seq<char>, p: Pattern, u: Attributes, i: nat)
    requires |store| == |s| && i < |s|
    ensures PassResult(store, s, p, u)[i] == if InMatch(p, s, i) then Merge(store[i], u) else store[i]
  {
    PaintedAt(store, s, Scan(p, s), u, i);
    ScanCoversMatches(p, s, i);
  }

  /**
   * The attributes each character ends with after the whole pass depend only
   * on which patterns match around it: bold exactly under a quantifier
   * match, and the colour of the last pass that covered it.
   */
  lemma HighlightedAt(s: seq<char>, store: seq<Attr>, i: nat)
    requires |store| == |s| && i < |s|
    ensures Highlighted(s, store)[i] == Attr(ExpectedFont(s, i), ExpectedColor(s, i))
  {
    var base := Added(store, BaseAttributes, NSRange(0, |s|));
    var escapes := PassResult(base, s, Escape, EscapeAttributes);
    var groups := PassResult(escapes, s, Group, GroupAttributes);
    var repetitions := PassResult(groups, s, Repetition, QuantifierAttributes);
    var quantifiers := PassResult(repetitions, s, Quantifier, QuantifierAttributes);
    assert base[i] == Attr(Regular, Black);
    PassAt(base, s, Escape, EscapeAttributes, i);
    PassAt(escapes, s, Group, GroupAttributes, i);
    PassAt(groups, s, Repetition, QuantifierAttributes, i);
    PassAt(repetitions, s, Quantifier, QuantifierAttributes, i);
    PassAt(quantifiers, s, Anchor, AnchorAttributes, i);
  }

  /** A character inside no match ends regular and black, whatever it had before. */
  lemma UnmatchedIsPlain(s: seq<char>, store: seq<Attr>, i: nat)
    requires |store| == |s| && i < |s|
    requires forall p: Pattern :: !InMatch(p, s, i)
    ensures Highlighted(s, store)[i] == Attr(Regular, Black)
  {
    HighlightedAt(s, store, i);
    assert !InMatch(Escape, s, i) && !InMatch(Group, s, i) && !InMatch(Repetition, s, i);
    assert !InMatch(Quantifier, s, i) && !InMatch(Anchor, s, i);
  }

  /**
   * The base reset spans the whole text, so the outcome does not depend on
   * the attributes the text had before.
   */
  lemma HighlightIgnoresPrevious(s: seq<char>, store1: seq<Attr>, store2: seq<Attr>)
    requires |store1| == |s| && |store2| == |s|
    ensures Highlighted(s, store1) == Highlighted(s, store2)
  {
    forall i | 0 <= i < |s|
      ensures Highlighted(s, store1)[i] == Highlighted(s, store2)[i]
    {
      HighlightedAt(s, store1, i);
      HighlightedAt(s, store2, i);
    }
  }

  /** Running the highlighting pass twice gives the same attributes as running it once. */
  lemma HighlightIdempotent(s: seq<char>, store: seq<Attr>)
    requires |store| == |s|
    ensures Highlighted(s, Highlighted(s, store)) == Highlighted(s, store)
  {
    HighlightIgnoresPrevious(s, Highlighted(s, store), store);
  }

  /** An escape match starts at `i`. */
  predicate EscapeStartsAt(s: seq<char>, i: nat) {
    MatchAt(Escape, s, i).Some?
  }

  /** A character is inside an escape match exactly when it starts one or follows the start of one. */
  lemma InEscapeMatch(s: seq<char>, i: nat)
    requires i < |s|
    ensures InMatch(Escape, s, i) <==> EscapeStartsAt(s, i) || (i > 0 && EscapeStartsAt(s, i - 1))
  {
    if InMatch(Escape, s, i) {
      var b, e :| 0 <= b <= i < e <= |s| && IsMatch(Escape, s[b..e]);
      MatchAtIsMatch(Escape, s, b, e);
    }
    if EscapeStartsAt(s, i) {
      MatchAtIsMatch(Escape, s, i, i + 2);
    }
    if i > 0 && EscapeStartsAt(s, i - 1) {
      MatchAtIsMatch(Escape, s, i - 1, i + 1);
    }
  }

  /** A character is inside a group match exactly when it is a parenthesis. */
  lemma InGroupMatch(s: seq<char>, i: nat)
    requires i < |s|
    ensures InMatch(Group, s, i) <==> s[i] == '(' || s[i] == ')'
  {
    if InMatch(Group, s, i) {
      var b, e :| 0 <= b <= i < e <= |s| && IsMatch(Group, s[b..e]);
      assert s[b..e][0] == s[i];
    }
    if s[i] == '(' || s[i] == ')' {
      assert s[i..i + 1][0] == s[i];
      assert IsMatch(Group, s[i..i + 1]);
    }
  }

  /** A character is inside a quantifier match exactly when it is `?`, `*` or `.`. */
  lemma InQuantifierMatch(s: seq<char>, i: nat)
    requires i < |s|
    ensures InMatch(Quantifier, s, i) <==> s[i] == '?' || s[i] == '*' || s[i] == '.'
  {
    if InMatch(Quantifier, s, i) {
      var b, e :| 0 <= b <= i < e <= |s| && IsMatch(Quantifier, s[b..e]);
      assert s[b..e][0] == s[i];
    }
    if s[i] == '?' || s[i] == '*' || s[i] == '.' {
      assert s[i..i + 1][0] == s[i];
      assert IsMatch(Quantifier, s[i..i + 1]);
    }
  }

  /** A character is inside an anchor match exactly when it is `^`, `[`, `$` or `]`. */
  lemma InAnchorMatch(s: seq<char>, i: nat)
    requires i < |s|
    ensures InMatch(Anchor, s, i) <==> s[i] == '^' || s[i] == '[' || s[i] == '$' || s[i] == ']'
  {
    if InMatch(Anchor, s, i) {
      var b, e :| 0 <= b <= i < e <= |s| && IsMatch(Anchor, s[b..e]);
      assert s[b..e][0] == s[i];
    }
    if s[i] == '^' || s[i] == '[' || s[i] == '$' || s[i] == ']' {
      assert s[i..i + 1][0] == s[i];
      assert IsMatch(Anchor, s[i..i + 1]);
    }
  }

  /** Only braces, digits and commas lie inside a bounded-repetition match. */
  lemma InRepetitionMatch(s: seq<char>, i: nat)
    requires i < |s| && InMatch(Repetition, s, i)
    ensures s[i] == '{' || s[i] == '}' || IsDigitOrComma(s[i])
  {
  }

  /** Every parenthesis ends regular and green. */
  lemma GroupIsGreen(s: seq<char>, store: seq<Attr>, i: nat)
    requires |store| == |s| && i < |s|
    requires s[i] == '(' || s[i] == ')'
    ensures Highlighted(s, store)[i] == Attr(Regular, Green)
  {
    HighlightedAt(s, store, i);
    InGroupMatch(s, i);
    InQuantifierMatch(s, i);
    InAnchorMatch(s, i);
    if InMatch(Repetition, s, i) {
      InRepetitionMatch(s, i);
    }
  }

  /** Every `?`, `*` and `.` ends bold and dark green. */
  lemma QuantifierIsBoldDarkGreen(s: seq<char>, store: seq<Attr>, i: nat)
    requires |store| == |s| && i < |s|
    requires s[i] == '?' || s[i] == '*' || s[i] == '.'
    ensures Highlighted(s, store)[i] == Attr(Bold, DarkGreen)
  {
    HighlightedAt(s, store, i);
    InQuantifierMatch(s, i);
    InAnchorMatch(s, i);
  }

  /** Every character of a `{digits-or-commas}` match ends bold and dark green. */
  lemma RepetitionIsBoldDarkGreen(s: seq<char>, store: seq<Attr>, i: nat)
    requires |store| == |s| && i < |s|
    requires InMatch(Repetition, s, i)
    ensures Highlighted(s, store)[i] == Attr(Bold, DarkGreen)
  {
    HighlightedAt(s, store, i);
    InRepetitionMatch(s, i);
    InAnchorMatch(s, i);
  }

  /** Every `^`, `[`, `$` and `]` ends blue, in the regular font. */
  lemma AnchorIsBlue(s: seq<char>, store: seq<Attr>, i: nat)
    requires |store| == |s| && i < |s|
    requires s[i] == '^' || s[i] == '[' || s[i] == '$' || s[i] == ']'
    ensures Highlighted(s, store)[i] == Attr(Regular, Blue)
  {
    HighlightedAt(s, store, i);
    InAnchorMatch(s, i);
    InQuantifierMatch(s, i);
    if InMatch(Repetition, s, i) {
      InRepetitionMatch(s, i);
    }
  }

  /** The backslash that starts an escape match ends red, in the regular font. */
  lemma EscapeStartIsRed(s: seq<char>, store: seq<Attr>, i: nat)
    requires |store| == |s|
    requires EscapeStartsAt(s, i)
    ensures Highlighted(s, store)[i] == Attr(Regular, Red)
  {
    HighlightedAt(s, store, i);
    InEscapeMatch(s, i);
    InGroupMatch(s, i);
    InQuantifierMatch(s, i);
    InAnchorMatch(s, i);
    if InMatch(Repetition, s, i) {
      InRepetitionMatch(s, i);
    }
  }

  /** A word character that completes an escape match ends red, in the regular font. */
  lemma EscapedWordIsRed(s: seq<char>, store: seq<Attr>, i: nat)
    requires |store| == |s|
    requires EscapeStartsAt(s, i) && IsWordChar(s[i + 1])
    ensures Highlighted(s, store)[i + 1] == Attr(Regular, Red)
  {
    HighlightedAt(s, store, i + 1);
    InEscapeMatch(s, i + 1);
    InGroupMatch(s, i + 1);
    InQuantifierMatch(s, i + 1);
    InAnchorMatch(s, i + 1);
    NoRepetitionAfterBackslash(s, i);
  }

  /**
   * A repetition match that covered the character after a backslash would
   * have to start at that character, which is then not a brace.
   */
  lemma NoRepetitionAfterBackslash(s: seq<char>, i: nat)
    requires i + 1 < |s| && s[i] == '\\' && s[i + 1] != '{'
    ensures !InMatch(Repetition, s, i + 1)
  {
  }

  /**
   * A backslash followed by `$` or a word character: the backslash ends red,
   * and so does a following word character, while a following `$` ends blue
   * because the anchor pass runs after the escape pass.
   */
  lemma EscapeColors(s: seq<char>, store: seq<Attr>, i: nat)
    requires |store| == |s|
    requires EscapeStartsAt(s, i)
    ensures Highlighted(s, store)[i] == Attr(Regular, Red)
    ensures IsWordChar(s[i + 1]) ==> Highlighted(s, store)[i + 1] == Attr(Regular, Red)
    ensures s[i + 1] == '$' ==> Highlighted(s, store)[i + 1] == Attr(Regular, Blue)
  {
    EscapeStartIsRed(s, store, i);
    if IsWordChar(s[i + 1]) {
      EscapedWordIsRed(s, store, i);
    }
    if s[i + 1] == '$' {
      AnchorIsBlue(s, store, i + 1);
    }
  }
}
