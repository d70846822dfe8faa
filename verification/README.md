# RegEx+ syntax highlighter, modelled in Dafny

RegEx+ has a multi-line text field for editing regular expressions. It
colours the regex metacharacters as the user types. The logic lives in
`RegExSyntaxHighlighter`, the delegate of the field's `NSTextStorage`. Each
time the storage has processed an edit, it works over the whole text:

1. It resets every character to the regular system font and black.
2. It runs five passes in a fixed order. Each pass collects the matches of
   one fixed pattern with `String.ranges(of:)` and adds an attribute
   dictionary over each match with `addAttributes(_:range:)`:
   - `\\[$$\w]`, a backslash followed by `$` or a word character: red;
   - `[\(\)]`, a parenthesis: green (RGB 0, 0.5, 0.2);
   - `(?:\{)[\d,]+(?:\})`, braces around one or more digits or commas: bold
     and dark green (RGB 0, 0.3, 0);
   - `[\?\*\.]`, one of `?`, `*`, `.`: bold and dark green;
   - `[\^\[\$\]]`, one of `^`, `[`, `$`, `]`: blue (RGB 0, 0, 0.8).

`ranges(of:)` searches, appends the match, and searches again from the
match's upper bound until a search finds nothing. `nsRange(from:)` turns
each match into a location and a length.

The project has five modules, one file each:

- `matchers.dfy` (`Matchers`) holds hand-written matchers for the five
  patterns. They replace the regex engine. `IsMatch` is the language of each
  pattern. `MatchAt` finds the match that starts at a given offset.
- `string_ranges.dfy` (`StringRanges`) models `ranges(of:)` and
  `nsRange(from:)`. `FindFrom` is one bounded search. The method `Ranges` is
  the `while let` loop. `Scan` is its specification. `LeftmostFrom` states
  leftmost, non-overlapping scanning declaratively.
- `syntax_highlighting.dfy` (`SyntaxHighlighting`) models the attribute
  store. `TextStorage` is a class whose `attributes` array has one entry
  per character. `AddAttributes` updates it in place. `HighlightPass` is
  one pass, proved against the function `PassResult`. `DidProcessEditing`
  is the delegate callback, proved against the function `Highlighted` of
  the text and the old attributes.
- `highlight_properties.dfy` (`HighlightProperties`) describes what each
  character ends with, without reference to scan order. It also holds the
  per-pattern colour facts and idempotence.
- `highlight_examples.dfy` (`HighlightExamples`) proves what the pass
  leaves on a few concrete patterns.

## Model

| member | source | states |
|---|---|---|
| `Matchers.IsMatch` | RegEx+/Views/RegExSyntaxView.swift:166-192 | the language of each of the five patterns, a string matched as a whole; none of them contains the empty string |
| `Matchers.SkipDigitsOrCommas` | RegEx+/Views/RegExSyntaxView.swift:178 | the greedy `[\d,]+` stops at the end of the longest run of digits and commas: everything before the result is a digit or comma, and the character at the result is not |
| `Matchers.MatchAt` | RegEx+/Views/RegExSyntaxView.swift:166-192 | a match found at an offset ends strictly after it and within the text: none of the five patterns matches the empty string |
| `Matchers.MatchAtIsMatch` | RegEx+/Views/RegExSyntaxView.swift:166-192 | `MatchAt` finds the end `e` exactly when `s[b..e]` is in the pattern's language, so at most one match starts at any offset |
| `Matchers.RepetitionEnd` | RegEx+/Views/RegExSyntaxView.swift:178 | a `{digits-or-commas}` match can end only just after the maximal run of digits and commas, and does when a `}` is there |
| `Matchers.NoMatchStartsInside` | RegEx+/Views/RegExSyntaxView.swift:166-192 | no match of a pattern starts strictly inside another match of the same pattern |
| `StringRanges.FindFrom` | RegEx+/Views/RegExSyntaxView.swift:213 | one search from a cursor returns a match that starts at or after the cursor, and no match starts between the cursor and it; when it returns nothing, no match starts anywhere after the cursor |
| `StringRanges.ScanFrom` | RegEx+/Views/RegExSyntaxView.swift:211-217 | every collected range lies between the cursor and the end of the text, is non-empty and is a match of the pattern |
| `StringRanges.Ranges` | RegEx+/Views/RegExSyntaxView.swift:211-217 | the loop terminates and returns exactly the leftmost non-overlapping matches: its result equals `Scan` and satisfies `LeftmostFrom`, and its ranges lie in the text, are non-empty and come in increasing order without overlapping |
| `StringRanges.ScanStep` | RegEx+/Views/RegExSyntaxView.swift:213-214 | appending a match moves the cursor to the match's upper bound and moves that match from the remaining scan into the result |
| `StringRanges.ScanDone` | RegEx+/Views/RegExSyntaxView.swift:213-217 | once a search from the cursor finds nothing, the ranges collected so far are the whole scan: leftmost, in bounds and in increasing order |
| `StringRanges.ScanIsLeftmost` | RegEx+/Views/RegExSyntaxView.swift:212-214 | the scan's ranges are matches; each starts at or after the previous range's end; no match starts in any gap or after the last range |
| `StringRanges.LeftmostTail` | RegEx+/Views/RegExSyntaxView.swift:213 | after the first match, the rest of a leftmost scan is a leftmost scan from that match's upper bound |
| `StringRanges.LeftmostIsScan` | RegEx+/Views/RegExSyntaxView.swift:211-217 | any sequence of ranges meeting the leftmost conditions is the scan's result: leftmost scanning has exactly one outcome |
| `StringRanges.LeftmostOrdered` | RegEx+/Views/RegExSyntaxView.swift:212-214 | the ranges are in bounds and strictly increasing, and pairwise disjoint: each ends at or before every later one starts |
| `StringRanges.ScanLeftmostOrdered` | RegEx+/Views/RegExSyntaxView.swift:211-217 | the ranges the scan collects are leftmost, non-empty, in bounds and in increasing order without overlapping |
| `StringRanges.ScanFindsEveryMatch` | RegEx+/Views/RegExSyntaxView.swift:213 | every match that starts at or after the cursor is one of the collected ranges |
| `StringRanges.ScanIsEveryMatch` | RegEx+/Views/RegExSyntaxView.swift:211-217 | a range is collected if and only if it is a match of the pattern in the text |
| `StringRanges.ScanCoversMatches` | RegEx+/Views/RegExSyntaxView.swift:211-217 | an offset lies in a collected range if and only if it lies inside some match of the pattern |
| `StringRanges.NsRange` | RegEx+/Views/RegExSyntaxView.swift:203-206 | location and length are non-negative, location plus length is at most the text length, and the NSRange denotes exactly the original range |
| `SyntaxHighlighting.Merge` | RegEx+/Views/RegExSyntaxView.swift:160-196 | `addAttributes` overwrites only the keys its dictionary holds: a key the dictionary lacks (the font, in the three colour-only passes) keeps its old value, a dictionary with both font and colour (the reset at lines 160-163) decides the attributes alone, and an empty one changes nothing |
| `SyntaxHighlighting.MergeIdempotent` | RegEx+/Views/RegExSyntaxView.swift:167-169 | adding the same attribute dictionary twice to a character gives the same result as adding it once |
| `SyntaxHighlighting.PassResult` | RegEx+/Views/RegExSyntaxView.swift:166-196 | a pass changes attributes but not the number of characters |
| `SyntaxHighlighting.Highlighted` | RegEx+/Views/RegExSyntaxView.swift:159-198 | the whole pass keeps one attribute entry per character of the text |
| `SyntaxHighlighting.TextStorage.AddAttributes` | RegEx+/Views/RegExSyntaxView.swift:161-164 | `addAttributes` merges the dictionary into every character in the range, overwriting only the keys it holds, and changes no other character |
| `SyntaxHighlighting.HighlightPass` | RegEx+/Views/RegExSyntaxView.swift:166-170 | one `forEach` over `ranges(of:)` leaves the store equal to `PassResult` of the store before it |
| `SyntaxHighlighting.DidProcessEditing` | RegEx+/Views/RegExSyntaxView.swift:159-198 | the delegate callback leaves the store equal to `Highlighted` of the text and the store before it |
| `HighlightProperties.PaintedAt` | RegEx+/Views/RegExSyntaxView.swift:166-170 | adding a dictionary over a list of ranges merges it once into each character some range covers and leaves every other character unchanged |
| `HighlightProperties.PassAt` | RegEx+/Views/RegExSyntaxView.swift:166-196 | a pass merges its dictionary into exactly the characters inside a match of its pattern; other keys and other characters are unchanged |
| `HighlightProperties.HighlightedAt` | RegEx+/Views/RegExSyntaxView.swift:159-198 | each character ends bold exactly when it lies in a repetition or quantifier match, and with the colour of the last pass whose pattern covers it: blue, then dark green, green, red, else black |
| `HighlightProperties.UnmatchedIsPlain` | RegEx+/Views/RegExSyntaxView.swift:161-164 | a character inside no match ends regular and black, whatever its attributes were before |
| `HighlightProperties.HighlightIgnoresPrevious` | RegEx+/Views/RegExSyntaxView.swift:161-164 | the reset spans the whole text, so the result does not depend on the previous attributes |
| `HighlightProperties.HighlightIdempotent` | RegEx+/Views/RegExSyntaxView.swift:159-198 | running the pass twice gives the same attributes as running it once |
| `HighlightProperties.InEscapeMatch` | RegEx+/Views/RegExSyntaxView.swift:166 | a character is inside an escape match if and only if it is a backslash followed by `$` or a word character, or it follows such a backslash |
| `HighlightProperties.InGroupMatch` | RegEx+/Views/RegExSyntaxView.swift:172 | a character is inside a group match if and only if it is `(` or `)` |
| `HighlightProperties.InQuantifierMatch` | RegEx+/Views/RegExSyntaxView.swift:185 | a character is inside a quantifier match if and only if it is `?`, `*` or `.` |
| `HighlightProperties.InAnchorMatch` | RegEx+/Views/RegExSyntaxView.swift:192 | a character is inside an anchor match if and only if it is `^`, `[`, `$` or `]` |
| `HighlightProperties.InRepetitionMatch` | RegEx+/Views/RegExSyntaxView.swift:178 | only braces, digits and commas lie inside a repetition match |
| `HighlightProperties.GroupIsGreen` | RegEx+/Views/RegExSyntaxView.swift:172-176 | every parenthesis ends regular and green |
| `HighlightProperties.QuantifierIsBoldDarkGreen` | RegEx+/Views/RegExSyntaxView.swift:185-190 | every `?`, `*` and `.` ends bold and dark green |
| `HighlightProperties.RepetitionIsBoldDarkGreen` | RegEx+/Views/RegExSyntaxView.swift:178-183 | every character of a `{digits-or-commas}` match ends bold and dark green |
| `HighlightProperties.AnchorIsBlue` | RegEx+/Views/RegExSyntaxView.swift:192-196 | every `^`, `[`, `$` and `]` ends blue in the regular font |
| `HighlightProperties.NoRepetitionAfterBackslash` | RegEx+/Views/RegExSyntaxView.swift:178 | no repetition match covers a character that follows a backslash and is not `{` |
| `HighlightProperties.EscapeStartIsRed` | RegEx+/Views/RegExSyntaxView.swift:166-196 | the backslash of an escape ends red in the regular font, whatever it had before |
| `HighlightProperties.EscapedWordIsRed` | RegEx+/Views/RegExSyntaxView.swift:166-196 | the word character of an escape `\x` ends red in the regular font |
| `HighlightProperties.EscapeColors` | RegEx+/Views/RegExSyntaxView.swift:166-196 | in an escape `\x`, the backslash ends red, a word character `x` ends red, and a `$` ends blue because the anchor pass runs later |
| `HighlightExamples.OrdinaryIsPlain` | RegEx+/Views/RegExSyntaxView.swift:161-164 | a character that is no metacharacter, digit or comma, and does not follow a backslash, keeps the base style |
| `HighlightExamples.GroupExample` | RegEx+/Views/RegExSyntaxView.swift:159-198 | in the alternation of `a` and `b` in parentheses, exactly the two parentheses are green and the rest is regular black |
| `HighlightExamples.RepetitionExample` | RegEx+/Views/RegExSyntaxView.swift:159-198 | in `a{2,3}` all of `{2,3}` is bold dark green and `a` is regular black |
| `HighlightExamples.EscapeExample` | RegEx+/Views/RegExSyntaxView.swift:159-198 | in `\d` both characters are red |
| `HighlightExamples.AnchorExample` | RegEx+/Views/RegExSyntaxView.swift:159-198 | in `^[abc]$` the `^`, `[`, `]` and `$` are blue and the letters are regular black |
| `HighlightExamples.EscapedDollarExample` | RegEx+/Views/RegExSyntaxView.swift:159-198 | in `\$` the backslash is red and the `$` ends blue, not red: the later pass wins |
| `HighlightExamples.AdjacentQuantifiersExample` | RegEx+/Views/RegExSyntaxView.swift:159-198 | in `{,}?` every character is bold dark green |
| `HighlightExamples.EmptyBracesExample` | RegEx+/Views/RegExSyntaxView.swift:159-198 | `{}` is not a repetition (it needs at least one digit or comma), so both braces stay regular black |

## Left out

- The UIKit and SwiftUI plumbing is not modelled. This covers `UITextViewWrapper.makeUIView` and `updateUIView`, the asynchronous `recalculateHeight`, the `Coordinator` callbacks, `RegExTextView` with its placeholder, and the DEBUG previews. These are view configuration, focus handling, float layout and event glue.
- The regex engine is replaced by hand-written matchers for the five fixed patterns. `\w` and `\d` are ASCII here (letters, digits, underscore; digits `0`-`9`), whereas the engine uses the Unicode classes. The proofs need only that none of the characters the five patterns name (`\ ( ) { } ? * . ^ [ $ ]`) is a word character, and so none is a digit. This holds for the Unicode classes too.
- `UIFont` and `UIColor` values become tags. `Font` records only the weight: both faces use the highlighter's `fontSize`, which is 16 and never changed. Colours are the five names above; the RGB components are not modelled.
- Offsets are one abstract character index. `nsRange(from:)` counts Swift `Character`s, while `NSTextStorage` indexes UTF-16 units. That mismatch is not reproduced. `String.distance` is the difference of offsets.
- The `options` and `locale` parameters of `ranges(of:)` are not modelled. They are always `.regularExpression` and `nil` here. `ranges(of:)` is modelled for the five patterns only. None of them matches the empty string, which is why the loop terminates. A pattern with a zero-width match would leave the cursor in place; that case is not modelled.
- The callback's `editedMask`, `editedRange` and `changeInLength` arguments are not modelled. The source never reads them and always rescans the whole text.
- Attributes other than the font and the foreground colour are not modelled. The highlighter never sets them.
- Out-of-bounds ranges are not modelled. `addAttributes` raises an exception for a range outside the text, so `AddAttributes` requires its range to be in bounds; `NsRange` proves every range the highlighter passes is.
- The pass mutates the text storage in place, and so does the model: `DidProcessEditing` updates the `attributes` array rather than returning a list of style ranges.
