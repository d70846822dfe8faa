/**
 * The highlighting pass on a few concrete patterns, whatever attributes the
 * text had before.
 */
module HighlightExamples {
  import opened Matchers
  import opened StringRanges
  import opened SyntaxHighlighting
  import opened HighlightProperties

  const Plain := Attr(Regular, Black)
  const Escaped := Attr(Regular, Red)
  const Grouped := Attr(Regular, Green)
  const Quantified := Attr(Bold, DarkGreen)
  const Anchored := Attr(Regular, Blue)

  /** Gathers what is known about the character at `i` of `s` and the attributes it ends with. */
  lemma Classify(s: seq<char>, store: seq<Attr>, i: nat)
    requires |store| == |s| && i < |s|
    ensures Highlighted(s, store)[i] == Attr(ExpectedFont(s, i), ExpectedColor(s, i))
    ensures InMatch(Escape, s, i) <==> EscapeStartsAt(s, i) || (i > 0 && EscapeStartsAt(s, i - 1))
    ensures InMatch(Group, s, i) <==> s[i] == '(' || s[i] == ')'
    ensures InMatch(Quantifier, s, i) <==> s[i] == '?' || s[i] == '*' || s[i] == '.'
    ensures InMatch(Anchor, s, i) <==> s[i] == '^' || s[i] == '[' || s[i] == '$' || s[i] == ']'
    ensures InMatch(Repetition, s, i) ==> s[i] == '{' || s[i] == '}' || IsDigitOrComma(s[i])
  {
    HighlightedAt(s, store, i);
    InEscapeMatch(s, i);
    InGroupMatch(s, i);
    InQuantifierMatch(s, i);
    InAnchorMatch(s, i);
    if InMatch(Repetition, s, i) {
      InRepetitionMatch(s, i);
    }
  }

  /**
   * A character that is no metacharacter, digit or comma, and does not
   * follow a backslash, lies in no match, so it keeps the base style.
   */
  lemma OrdinaryIsPlain(s: seq<char>, store: seq<Attr>, i: nat)
    requires |store| == |s| && i < |s|
    requires s[i] !in "\\(){}?*.^[$]" && !IsDigitOrComma(s[i])
    requires i == 0 || s[i - 1] != '\\'
    ensures Highlighted(s, store)[i] == Plain
  {
    Classify(s, store, i);
  }

  /** In `(a|b)` the two parentheses turn green and nothing else changes from the base style. */
  lemma GroupExample(s: seq<char>, store: seq<Attr>)
    requires s == "(a|b)" && |store| == |s|
    ensures Highlighted(s, store) == [Grouped, Plain, Plain, Plain, Grouped]
  {
    forall i | 1 <= i < 4 ensures Highlighted(s, store)[i] == Plain {
      OrdinaryIsPlain(s, store, i);
    }
    GroupIsGreen(s, store, 0);
    GroupIsGreen(s, store, 4);
  }

  /** In `a{2,3}` the whole of `{2,3}` turns bold and dark green; the `a` keeps the base style. */
  lemma RepetitionExample(s: seq<char>, store: seq<Attr>)
    requires s == "a{2,3}" && |store| == |s|
    ensures Highlighted(s, store) == [Plain, Quantified, Quantified, Quantified, Quantified, Quantified]
  {
    assert IsMatch(Repetition, s[1..6]);
    OrdinaryIsPlain(s, store, 0);
    forall i | 1 <= i < 6 ensures Highlighted(s, store)[i] == Quantified {
      RepetitionIsBoldDarkGreen(s, store, i);
    }
  }

  /** In `\d` both characters turn red, since `d` is a word character. */
  lemma EscapeExample(s: seq<char>, store: seq<Attr>)
    requires s == "\\d" && |store| == |s|
    ensures Highlighted(s, store) == [Escaped, Escaped]
  {
    Classify(s, store, 0);
    Classify(s, store, 1);
  }

  /** In `^[abc]$` the anchors and brackets turn blue and the letters keep the base style. */
  lemma AnchorExample(s: seq<char>, store: seq<Attr>)
    requires s == "^[abc]$" && |store| == |s|
    ensures Highlighted(s, store) == [Anchored, Anchored, Plain, Plain, Plain, Anchored, Anchored]
  {
    forall i | 2 <= i < 5 ensures Highlighted(s, store)[i] == Plain {
      OrdinaryIsPlain(s, store, i);
    }
    forall i | i in {0, 1, 5, 6} ensures Highlighted(s, store)[i] == Anchored {
      AnchorIsBlue(s, store, i);
    }
  }

  /**
   * In `\$` the escape pass colours both characters red, and then the anchor
   * pass, which runs later, turns the `$` blue; neither is bold.
   */
  lemma EscapedDollarExample(s: seq<char>, store: seq<Attr>)
    requires s == "\\$" && |store| == |s|
    ensures Highlighted(s, store) == [Escaped, Anchored]
  {
    Classify(s, store, 0);
    Classify(s, store, 1);
  }

  /** In `{,}?` the braces form a repetition and the `?` a quantifier: all of it is bold and dark green. */
  lemma AdjacentQuantifiersExample(s: seq<char>, store: seq<Attr>)
    requires s == "{,}?" && |store| == |s|
    ensures Highlighted(s, store) == [Quantified, Quantified, Quantified, Quantified]
  {
    assert IsMatch(Repetition, s[0..3]);
    forall i | 0 <= i < 3 ensures Highlighted(s, store)[i] == Quantified {
      RepetitionIsBoldDarkGreen(s, store, i);
    }
    QuantifierIsBoldDarkGreen(s, store, 3);
  }

  /** `{}` holds no digit or comma, so it is not a repetition and keeps the base style. */
  lemma EmptyBracesExample(s: seq<char>, store: seq<Attr>)
    requires s == "{}" && |store| == |s|
    ensures Highlighted(s, store) == [Plain, Plain]
  {
  }
}
