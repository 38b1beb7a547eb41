/** Styled text spans (`TextSpan` in src/schemas.py). */
module Spans {
  import opened Wrappers

  /** Smallest font size that `is_heading` accepts. */
  const MinHeadingSize: real := 16.0

  datatype TextSpan = TextSpan(text: string, isBold: bool, isItalic: bool, size: real)
  {
    predicate IsHeading() {
      size >= MinHeadingSize && isBold
    }

    /** The span starts a bold run: it is bold and its predecessor is absent or not bold. */
    predicate OpensBold(prev: Option<TextSpan>) {
      isBold && (prev.None? || !prev.value.isBold)
    }

    predicate OpensItalic(prev: Option<TextSpan>) {
      isItalic && (prev.None? || !prev.value.isItalic)
    }

    /** The span ends a bold run: it is bold and its successor is absent or not bold. */
    predicate ClosesBold(next: Option<TextSpan>) {
      isBold && (next.None? || !next.value.isBold)
    }

    predicate ClosesItalic(next: Option<TextSpan>) {
      isItalic && (next.None? || !next.value.isItalic)
    }

    /** `formatted_text`: the text with markdown markers added only at style
        boundaries. The italic marker ends up outermost on both sides. */
    function FormattedText(prev: Option<TextSpan>, next: Option<TextSpan>): (r: string)
      ensures r == (if OpensItalic(prev) then "*" else "") + (if OpensBold(prev) then "**" else "")
                   + text
                   + (if ClosesBold(next) then "**" else "") + (if ClosesItalic(next) then "*" else "")
    {
      var f1 := if OpensBold(prev) then "**" + text else text;
      var f2 := if OpensItalic(prev) then "*" + f1 else f1;
      assert f2 == (if OpensItalic(prev) then "*" else "") + (if OpensBold(prev) then "**" else "") + text;
      var f3 := if ClosesBold(next) then f2 + "**" else f2;
      if ClosesItalic(next) then f3 + "*" else f3
    }
  }

  /** A span that is neither bold nor italic is formatted as its bare text. */
  lemma PlainSpanUnformatted(s: TextSpan, prev: Option<TextSpan>, next: Option<TextSpan>)
    requires !s.isBold && !s.isItalic
    ensures s.FormattedText(prev, next) == s.text
  {
  }

  /** A bold and italic span with no neighbours is wrapped in `***` on both sides. */
  lemma LoneBoldItalicSpan(s: TextSpan)
    requires s.isBold && s.isItalic
    ensures s.FormattedText(None, None) == "***" + s.text + "***"
  {
  }
}
