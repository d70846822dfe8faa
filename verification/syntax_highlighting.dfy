/**
 * The syntax-highlighting pass: each time the text storage has processed an
 * edit, every character is reset to the regular font and black, and then
 * five passes, in a fixed order, write attributes onto the matches of five
 * fixed patterns. A later pass overwrites the keys it sets on the
 * characters it covers; keys it does not set are left as they were.
 */
module SyntaxHighlighting {
  import opened Matchers
  import opened StringRanges

  datatype Font = Regular | Bold
  datatype Color = Black | Red | Green | DarkGreen | Blue

  /** The attributes of one character: its font and its foreground colour. */
  datatype Attr = Attr(font: Font, color: Color)

  /** An attribute dictionary passed to `addAttributes`: only the keys present are written. */
  datatype Attributes = Attributes(font: Option<Font>, color: Option<Color>)

  /**
   * The attributes of a character after `u` is added to them: the keys `u`
   * holds are overwritten and the others kept, so a dictionary that holds
   * both keys decides the result alone.
   */
  function Merge(a: Attr, u: Attributes): (b: Attr)
    ensures u.font.Some? && u.color.Some? ==> b == Attr(u.font.value, u.color.value)
    ensures u.font.None? && u.color.None? ==> b == a
    ensures u.font.None? ==> b.font == a.font
    ensures u.color.None? ==> b.color == a.color
  {
    Attr(if u.font.Some? then u.font.value else a.font,
         if u.color.Some? then u.color.value else a.color)
  }

  /** Adding the same dictionary twice is the same as adding it once. */
  lemma MergeIdempotent(a: Attr, u: Attributes)
    ensures Merge(Merge(a, u), u) == Merge(a, u)
  {
  }

  const BaseAttributes := Attributes(Some(Regular), Some(Black))
  const EscapeAttributes := Attributes(None, Some(Red))
  const GroupAttributes := Attributes(None, Some(Green))
  const QuantifierAttributes := Attributes(Some(Bold), Some(DarkGreen))
  const AnchorAttributes := Attributes(None, Some(Blue))

  /** The attributes of a whole text after `u` is added over `range`. */
  function Added(store: seq<Attr>, u: Attributes, range: NSRange): (r: seq<Attr>)
    requires 0 <= range.location && 0 <= range.length
    requires range.location + range.length <= |store|
    ensures |r| == |store|
  {
    seq(|store|, i requires 0 <= i < |store| =>
      if range.location <= i < range.location + range.length then Merge(store[i], u) else store[i])
  }

  /** The attributes after `u` is added over each span of `spans`, in order. */
  function Painted(store: seq<Attr>, s: seq<char>, spans: seq<Span>, u: Attributes): (r: seq<Attr>)
    requires |store| == |s|
    requires forall k :: 0 <= k < |spans| ==> spans[k].lo <= spans[k].hi <= |s|
    decreases |spans|
    ensures |r| == |store|
  {
    if spans == [] then store
    else
      var last := spans[|spans| - 1];
      Added(Painted(store, s, spans[..|spans| - 1], u), u, NsRange(s, last))
  }

  /** The attributes after one pass: `u` added over every match of `p` in `s`. */
  function PassResult(store: seq<Attr>, s: seq<char>, p: Pattern, u: Attributes): (r: seq<Attr>)
    requires |store| == |s|
    ensures |r| == |store|
  {
    Painted(store, s, Scan(p, s), u)
  }

  /** The attributes of `s` after the whole highlighting pass, starting from `store`. */
  function Highlighted(s: seq<char>, store: seq<Attr>): (r: seq<Attr>)
    requires |store| == |s|
    ensures |r| == |s|
  {
    var base := Added(store, BaseAttributes, NSRange(0, |s|));
    var escapes := PassResult(base, s, Escape, EscapeAttributes);
    var groups := PassResult(escapes, s, Group, GroupAttributes);
    var repetitions := PassResult(groups, s, Repetition, QuantifierAttributes);
    var quantifiers := PassResult(repetitions, s, Quantifier, QuantifierAttributes);
    PassResult(quantifiers, s, Anchor, AnchorAttributes)
  }

  /**
   * The attributed text whose edits the highlighter processes. Its string is
   * fixed for the duration of one highlighting pass; its attributes are an
   * array with one entry per character.
   */
  class TextStorage {
    const text: seq<char>
    const attributes: array<Attr>

    ghost predicate Valid()
      reads this
    {
      attributes.Length == |text|
    }

    constructor (text: seq<char>, initial: seq<Attr>)
      requires |initial| == |text|
      ensures Valid() && fresh(attributes)
      ensures this.text == text && attributes[..] == initial
    {
      this.text := text;
      attributes := new Attr[|initial|](i requires 0 <= i < |initial| => initial[i]);
    }

    /** `addAttributes(_:range:)`: add `u` to every character in `range`, and to no other. */
    method AddAttributes(u: Attributes, range: NSRange)
      requires Valid()
      requires 0 <= range.location && 0 <= range.length
      requires range.location + range.length <= |text|
      modifies attributes
      ensures attributes[..] == Added(old(attributes[..]), u, range)
    {
      var i := range.location;
      while i < range.location + range.length
        invariant range.location <= i <= range.location + range.length
        invariant forall j :: 0 <= j < attributes.Length ==>
          attributes[j] == if range.location <= j < i then Merge(old(attributes[j]), u) else old(attributes[j])
      {
        attributes[i] := Merge(attributes[i], u);
        i := i + 1;
      }
    }
  }

  /** One pass: add `u` over every range that `ranges(of:)` finds for `p`. */
  method HighlightPass(storage: TextStorage, p: Pattern, u: Attributes)
    requires storage.Valid()
    modifies storage.attributes
    ensures storage.attributes[..] == PassResult(old(storage.attributes[..]), storage.text, p, u)
  {
    var ranges := Ranges(p, storage.text);
    var k := 0;
    while k < |ranges|
      invariant 0 <= k <= |ranges|
      invariant storage.attributes[..] == Painted(old(storage.attributes[..]), storage.text, ranges[..k], u)
    {
      storage.AddAttributes(u, NsRange(storage.text, ranges[k]));
      assert ranges[..k + 1][..k] == ranges[..k];
      k := k + 1;
    }
    assert ranges[..k] == ranges;
  }

  /**
   * `textStorage(_:didProcessEditing:range:changeInLength:)`: reset the whole
   * text to the base style, then run the five passes in their fixed order.
   */
  method DidProcessEditing(storage: TextStorage)
    requires storage.Valid()
    modifies storage.attributes
    ensures storage.attributes[..] == Highlighted(storage.text, old(storage.attributes[..]))
  {
    storage.AddAttributes(BaseAttributes, NSRange(0, |storage.text|));
    HighlightPass(storage, Escape, EscapeAttributes);
    HighlightPass(storage, Group, GroupAttributes);
    HighlightPass(storage, Repetition, QuantifierAttributes);
    HighlightPass(storage, Quantifier, QuantifierAttributes);
    HighlightPass(storage, Anchor, AnchorAttributes);
  }
}
