/** Lines of spans (`LineElement` in src/schemas.py). */
module Lines {
  import opened Wrappers
  import opened Spans
  import Markdown
  import Seqs
  import Geometry

  /** The `(x0, y0, x1, y1)` tuple of a line. Rounding to two decimals at
      construction is treated as the identity. */
  datatype LineBox = LineBox(x0: real, y0: real, x1: real, y1: real)

  datatype LineElement = LineElement(bbox: LineBox, spans: seq<TextSpan>, style: Option<string>)
  {
    /** `text`: the spans' formatted texts, concatenated, then cleaned up. */
    function Text(): string {
      if |spans| == 0 then "" else Markdown.Cleanup(Joined(spans, |spans|))
    }

    /** The spans that vote on the line's style: all but the last, unless there is only one. */
    function Voters(): (v: seq<TextSpan>)
      ensures |spans| > 1 ==> v == spans[..|spans| - 1]
      ensures |spans| <= 1 ==> v == spans
    {
      if |spans| > 1 then spans[..|spans| - 1] else spans
    }

    predicate IsBold() {
      var v := Voters(); forall i | 0 <= i < |v| :: v[i].isBold
    }

    predicate IsItalic() {
      var v := Voters(); forall i | 0 <= i < |v| :: v[i].isItalic
    }

    predicate IsHeading() {
      var v := Voters(); forall i | 0 <= i < |v| :: v[i].size >= MinHeadingSize && v[i].isBold
    }

    /** Separating-axis test with both ranges widened by `margin`. */
    predicate Overlaps(other: LineElement, margin: real) {
      var a, b := bbox, other.bbox;
      var xOverlap := !(a.x0 - margin > b.x1 + margin || b.x0 - margin > a.x1 + margin);
      var yOverlap := !(a.y0 - margin > b.y1 + margin || b.y0 - margin > a.y1 + margin);
      xOverlap && yOverlap
    }

    /** Height similarity of lines compares the bottom edges `y0`. */
    predicate IsAtSimilarHeight(other: LineElement, margin: real) {
      Abs(bbox.y0 - other.bbox.y0) <= margin
    }

    /** `combine`: the enclosing box, the spans of both lines in argument
        order, and no style. */
    function Combine(other: LineElement): (r: LineElement)
      ensures r.spans == spans + other.spans && r.style == None
      ensures Encloses(r.bbox, bbox) && Encloses(r.bbox, other.bbox)
      ensures forall b: LineBox :: Encloses(b, bbox) && Encloses(b, other.bbox) ==> Encloses(b, r.bbox)
    {
      var a, b := bbox, other.bbox;
      LineElement(LineBox(Geometry.Min(a.x0, b.x0), Geometry.Min(a.y0, b.y0),
                          Geometry.Max(a.x1, b.x1), Geometry.Max(a.y1, b.y1)),
                  spans + other.spans, None)
    }
  }

  function Abs(x: real): real { if x < 0.0 then -x else x }

  predicate Encloses(outer: LineBox, inner: LineBox) {
    outer.x0 <= inner.x0 && outer.y0 <= inner.y0 && inner.x1 <= outer.x1 && inner.y1 <= outer.y1
  }

  function PrevSpan(spans: seq<TextSpan>, i: nat): Option<TextSpan>
    requires i < |spans|
  {
    if i > 0 then Some(spans[i - 1]) else None
  }

  function NextSpan(spans: seq<TextSpan>, i: nat): Option<TextSpan>
    requires i < |spans|
  {
    if i < |spans| - 1 then Some(spans[i + 1]) else None
  }

  /** The `i`-th span formatted against its immediate neighbours. */
  function FormattedAt(spans: seq<TextSpan>, i: nat): string
    requires i < |spans|
  {
    spans[i].FormattedText(PrevSpan(spans, i), NextSpan(spans, i))
  }

  /** The concatenation of the first `n` formatted spans. */
  function Joined(spans: seq<TextSpan>, n: nat): string
    requires n <= |spans|
  {
    if n == 0 then "" else Joined(spans, n - 1) + FormattedAt(spans, n - 1)
  }

  /** The plain concatenation of the first `n` span texts. */
  function Texts(spans: seq<TextSpan>, n: nat): string
    requires n <= |spans|
  {
    if n == 0 then "" else Texts(spans, n - 1) + spans[n - 1].text
  }

  /** `LineElement.text` as the source computes it, accumulating in a loop. */
  method LineText(line: LineElement) returns (text: string)
    ensures text == line.Text()
  {
    if |line.spans| == 0 {
      return "";
    }
    var combined := "";
    for i := 0 to |line.spans|
      invariant combined == Joined(line.spans, i)
    {
      var prev := if i > 0 then Some(line.spans[i - 1]) else None;
      var next := if i < |line.spans| - 1 then Some(line.spans[i + 1]) else None;
      combined := combined + line.spans[i].FormattedText(prev, next);
    }
    text := Markdown.CleanMarkdownFormatting(combined);
  }

  /** In a run of bold, non-italic spans only the first span opens a bold
      marker and only the last closes one. */
  lemma BoldSpanFormatted(spans: seq<TextSpan>, i: nat)
    requires i < |spans|
    requires forall j | 0 <= j < |spans| :: spans[j].isBold && !spans[j].isItalic
    ensures i == 0 && i < |spans| - 1 ==> FormattedAt(spans, i) == "**" + spans[i].text
    ensures i == 0 && i == |spans| - 1 ==> FormattedAt(spans, i) == "**" + spans[i].text + "**"
    ensures 0 < i < |spans| - 1 ==> FormattedAt(spans, i) == spans[i].text
    ensures 0 < i && i == |spans| - 1 ==> FormattedAt(spans, i) == spans[i].text + "**"
  {
    var t := spans[i].text;
    if i > 0 {
      assert spans[i - 1].isBold;
      assert "" + t == t;
    }
    if i < |spans| - 1 {
      assert spans[i + 1].isBold;
    }
  }

  /** In a line whose spans are all bold and none italic, markers appear only
      around the whole line: one `**` before the first span and one after the last. */
  lemma {:induction false} BoldRunJoined(spans: seq<TextSpan>, n: nat)
    requires 0 < n <= |spans|
    requires forall i | 0 <= i < |spans| :: spans[i].isBold && !spans[i].isItalic
    ensures n < |spans| ==> Joined(spans, n) == "**" + Texts(spans, n)
    ensures n == |spans| ==> Joined(spans, n) == "**" + Texts(spans, n) + "**"
  {
    var t := spans[n - 1].text;
    BoldSpanFormatted(spans, n - 1);
    if n == 1 {
      assert Joined(spans, 0) == "" && Texts(spans, 0) == "";
      assert "" + t == t;
    } else {
      BoldRunJoined(spans, n - 1);
      var x := "**" + Texts(spans, n - 1);
      Seqs.ConcatAssoc("**", Texts(spans, n - 1), t);
      if n == |spans| {
        Seqs.ConcatAssoc(x, t, "**");
      }
    }
  }

  /** The text of a line is a fixed point of the cleanup, and it has the
      non-whitespace characters of the formatted spans. */
  lemma LineTextClean(line: LineElement)
    requires |line.spans| > 0
    ensures Markdown.Cleanup(line.Text()) == line.Text()
    ensures Markdown.RemoveSpaces(line.Text()) == Markdown.RemoveSpaces(Joined(line.spans, |line.spans|))
  {
    Markdown.CleanupIdempotent(Joined(line.spans, |line.spans|));
    Markdown.CleanupKeepsText(Joined(line.spans, |line.spans|));
  }

  /** A line with no spans has empty text. */
  lemma EmptyLineText(line: LineElement)
    requires |line.spans| == 0
    ensures line.Text() == ""
  {
  }

  /** With two or more spans the last span never affects the style votes. */
  lemma LastSpanIgnored(line: LineElement, last: TextSpan)
    requires |line.spans| >= 2
    ensures var other := line.(spans := line.spans[..|line.spans| - 1] + [last]);
            && other.IsBold() == line.IsBold()
            && other.IsItalic() == line.IsItalic()
            && other.IsHeading() == line.IsHeading()
  {
    var other := line.(spans := line.spans[..|line.spans| - 1] + [last]);
    assert other.Voters() == line.Voters();
  }

  /** The style votes are conjunctions over all spans but the last. */
  lemma StyleVotes(line: LineElement)
    ensures line.IsBold() <==>
              forall i | 0 <= i < |line.spans| && (i < |line.spans| - 1 || |line.spans| == 1) :: line.spans[i].isBold
    ensures line.IsItalic() <==>
              forall i | 0 <= i < |line.spans| && (i < |line.spans| - 1 || |line.spans| == 1) :: line.spans[i].isItalic
    ensures line.IsHeading() ==> line.IsBold()
  {
  }

  /** A line is a heading exactly when every voting span is a heading span;
      a one-span line is a heading exactly when its span is. */
  lemma HeadingVotes(line: LineElement)
    ensures line.IsHeading() <==> forall i | 0 <= i < |line.Voters()| :: line.Voters()[i].IsHeading()
    ensures |line.spans| == 1 ==> (line.IsHeading() <==> line.spans[0].IsHeading())
  {
  }

  lemma OverlapsSymmetric(a: LineElement, b: LineElement, margin: real)
    ensures a.Overlaps(b, margin) <==> b.Overlaps(a, margin)
  {
  }

  /** Widening the margin never turns an overlap into a non-overlap. */
  lemma OverlapsMonotone(a: LineElement, b: LineElement, m: real, m': real)
    requires m <= m' && a.Overlaps(b, m)
    ensures a.Overlaps(b, m')
  {
  }

  lemma SimilarHeightSymmetric(a: LineElement, b: LineElement, margin: real)
    ensures a.IsAtSimilarHeight(b, margin) <==> b.IsAtSimilarHeight(a, margin)
  {
  }
}
