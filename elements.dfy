/** Content elements (`TextElement` and `TableElement` in src/schemas.py):
    a closed sum of the two variants with their shared capabilities. */
module Elements {
  import opened Geometry
  import Lines

  /** Margin that `is_at_similar_height` uses when none is given. */
  const DefaultHeightMargin: real := 1.0

  datatype Element =
    | TextElement(text: string, lines: seq<Lines.LineElement>, bbox: Bbox)
    | TableElement(text: string, bbox: Bbox)
  {
    function Page(): int {
      bbox.page
    }

    function Area(): real {
      (bbox.x1 - bbox.x0) * (bbox.y1 - bbox.y0)
    }

    /** Token count of the element's text; `tokenizer` stands for `num_tokens`. */
    function Tokens(tokenizer: string -> nat): nat {
      tokenizer(text)
    }

    /** Height similarity of elements compares the top edges `y1`. */
    predicate IsAtSimilarHeight(other: Element, margin: real) {
      Lines.Abs(bbox.y1 - other.bbox.y1) <= margin
    }

    /** `TextElement.overlaps`: false across pages, otherwise a separating-axis
        test with separate x and y margins. Tables have no such method. */
    predicate Overlaps(other: Element, xMargin: real, yMargin: real)
      requires TextElement?
    {
      if Page() != other.Page() then false
      else BoxesOverlap(bbox, other.bbox, xMargin, yMargin)
    }
  }

  /** The separating-axis test on two boxes, shared with `Node.overlaps`. */
  predicate BoxesOverlap(a: Bbox, b: Bbox, xMargin: real, yMargin: real) {
    var xOverlap := !(a.x0 - xMargin > b.x1 + xMargin || b.x0 - xMargin > a.x1 + xMargin);
    var yOverlap := !(a.y0 - yMargin > b.y1 + yMargin || b.y0 - yMargin > a.y1 + yMargin);
    xOverlap && yOverlap
  }

  /** An element with a constructible box has a positive area. */
  lemma ElementAreaPositive(e: Element)
    requires e.bbox.Valid()
    ensures e.Area() > 0.0
  {
    ValidAreaPositive(e.bbox);
  }

  lemma BoxesOverlapSymmetric(a: Bbox, b: Bbox, xMargin: real, yMargin: real)
    ensures BoxesOverlap(a, b, xMargin, yMargin) <==> BoxesOverlap(b, a, xMargin, yMargin)
  {
  }

  lemma BoxesOverlapMonotone(a: Bbox, b: Bbox, xm: real, ym: real, xm': real, ym': real)
    requires xm <= xm' && ym <= ym'
    requires BoxesOverlap(a, b, xm, ym)
    ensures BoxesOverlap(a, b, xm', ym')
  {
  }

  /** Overlap of text elements is symmetric, false across pages, and
      monotone in both margins. */
  lemma TextOverlapsProperties(a: Element, b: Element, xm: real, ym: real, xm': real, ym': real)
    requires a.TextElement? && b.TextElement?
    ensures a.Overlaps(b, xm, ym) <==> b.Overlaps(a, xm, ym)
    ensures a.Page() != b.Page() ==> !a.Overlaps(b, xm, ym)
    ensures xm <= xm' && ym <= ym' && a.Overlaps(b, xm, ym) ==> a.Overlaps(b, xm', ym')
  {
  }

  lemma SimilarHeightSymmetric(a: Element, b: Element, margin: real)
    ensures a.IsAtSimilarHeight(b, margin) <==> b.IsAtSimilarHeight(a, margin)
  {
  }
}
