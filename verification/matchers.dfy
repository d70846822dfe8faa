/**
 * Hand-written matchers for the five fixed regular expressions that the
 * syntax highlighter searches for. They take the place of the regular
 * expression engine: for each pattern, `IsMatch` says which strings it
 * matches as a whole, and `MatchAt` finds the match that starts at a given
 * offset of a text.
 */
module Matchers {

  datatype Option<T> = None | Some(value: T)

  /** `\d`: a decimal digit (ASCII digits in this model). */
  predicate IsDigit(c: char) {
    '0' <= c <= '9'
  }

  /** `\w`: a letter, a digit or the underscore (ASCII in this model). */
  predicate IsWordChar(c: char) {
    'a' <= c <= 'z' || 'A' <= c <= 'Z' || IsDigit(c) || c == '_'
  }

  /** The character class `[\d,]` of the bounded-repetition pattern. */
  predicate IsDigitOrComma(c: char) {
    IsDigit(c) || c == ','
  }

  /** The five patterns of the highlighter, in the order it applies them. */
  datatype Pattern =
    | Escape      // \\[$$\w]              a backslash and then `$` or a word character
    | Group       // [\(\)]                a parenthesis
    | Repetition  // (?:\{)[\d,]+(?:\})    braces around one or more digits or commas
    | Quantifier  // [\?\*\.]              one of ? * .
    | Anchor      // [\^\[\$\]]            one of ^ [ $ ]

  /**
   * The language of each pattern: `t` as a whole is a match of `p`. No
   * pattern matches the empty string.
   */
  predicate IsMatch(p: Pattern, t: seq<char>): (r: bool)
    ensures r ==> |t| > 0
  {
    match p
    case Escape => |t| == 2 && t[0] == '\\' && (t[1] == '$' || IsWordChar(t[1]))
    case Group => |t| == 1 && (t[0] == '(' || t[0] == ')')
    case Repetition =>
      |t| >= 3 && t[0] == '{' && t[|t| - 1] == '}' &&
      forall k :: 1 <= k < |t| - 1 ==> IsDigitOrComma(t[k])
    case Quantifier => |t| == 1 && (t[0] == '?' || t[0] == '*' || t[0] == '.')
    case Anchor => |t| == 1 && (t[0] == '^' || t[0] == '[' || t[0] == '$' || t[0] == ']')
  }

  /** The end of the longest run of digits and commas in `s` from offset `i`. */
  function SkipDigitsOrCommas(s: seq<char>, i: nat): (j: nat)
    requires i <= |s|
    decreases |s| - i
    ensures i <= j <= |s|
    ensures forall k :: i <= k < j ==> IsDigitOrComma(s[k])
    ensures j == |s| || !IsDigitOrComma(s[j])
  {
    if i < |s| && IsDigitOrComma(s[i]) then SkipDigitsOrCommas(s, i + 1) else i
  }

  /**
   * The match of `p` in `s` that starts at offset `b`, given by its end.
   * Each pattern has at most one match starting at a given offset (the
   * greedy `[\d,]+` cannot stop early, since `}` is not in its class), and
   * no match is empty, so the end lies strictly after `b`.
   */
  function MatchAt(p: Pattern, s: seq<char>, b: nat): (r: Option<nat>)
    ensures r.Some? ==> b < r.value <= |s|
  {
    if b >= |s| then None
    else
      match p
      case Escape =>
        if s[b] == '\\' && b + 1 < |s| && (s[b + 1] == '$' || IsWordChar(s[b + 1]))
        then Some(b + 2) else None
      case Group =>
        if s[b] == '(' || s[b] == ')' then Some(b + 1) else None
      case Repetition =>
        if s[b] == '{' then
          var j := SkipDigitsOrCommas(s, b + 1);
          if b + 1 < j < |s| && s[j] == '}' then Some(j + 1) else None
        else None
      case Quantifier =>
        if s[b] == '?' || s[b] == '*' || s[b] == '.' then Some(b + 1) else None
      case Anchor =>
        if s[b] == '^' || s[b] == '[' || s[b] == '$' || s[b] == ']' then Some(b + 1) else None
  }

  /**
   * `MatchAt` finds a match exactly when `s[b..e]` is one, and the match it
   * finds is the only one that starts at `b`.
   */
  lemma MatchAtIsMatch(p: Pattern, s: seq<char>, b: nat, e: nat)
    requires b < e <= |s|
    ensures IsMatch(p, s[b..e]) <==> MatchAt(p, s, b) == Some(e)
  {
    if p == Repetition && s[b] == '{' {
      RepetitionEnd(s, b, SkipDigitsOrCommas(s, b + 1));
    }
  }

  /** A repetition match starting at `b` can only end just after the run of digits and commas. */
  lemma RepetitionEnd(s: seq<char>, b: nat, j: nat)
    requires b < |s| && s[b] == '{'
    requires j == SkipDigitsOrCommas(s, b + 1)
    ensures forall e :: b < e <= |s| && IsMatch(Repetition, s[b..e]) ==> e == j + 1
    ensures b + 1 < j < |s| && s[j] == '}' ==> IsMatch(Repetition, s[b..j + 1])
  {
  }

  /**
   * No match of a pattern starts strictly inside another match of the same
   * pattern, so leftmost non-overlapping scanning finds every match.
   */
  lemma NoMatchStartsInside(p: Pattern, s: seq<char>, b: nat, c: nat)
    requires MatchAt(p, s, b).Some?
    requires b < c < MatchAt(p, s, b).value
    ensures MatchAt(p, s, c).None?
  {
  }
}
