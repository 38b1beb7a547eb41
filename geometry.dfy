/** Page rectangles (`Bbox` in src/schemas.py): an axis-aligned box on one
    page, carrying the dimensions of that page. */
module Geometry {
  import opened Wrappers

  /** The two ways a rectangle operation fails (pydantic's `ValueError`). */
  datatype GeometryError =
    | DegenerateRect  // x1 <= x0 or y1 <= y0 at construction
    | PageMismatch    // combine of boxes on different pages

  datatype Bbox = Bbox(page: int, pageHeight: real, pageWidth: real,
                       x0: real, y0: real, x1: real, y1: real)
  {
    /** The construction-time validators: a box has positive width and height. */
    predicate Valid() {
      x1 > x0 && y1 > y0
    }

    function Area(): real {
      (x1 - x0) * (y1 - y0)
    }

    /** This box lies inside `outer` (same page, coordinates within). */
    predicate Within(outer: Bbox) {
      page == outer.page &&
      outer.x0 <= x0 && outer.y0 <= y0 && x1 <= outer.x1 && y1 <= outer.y1
    }

    /** `Bbox.combine`: the smallest rectangle enclosing both boxes, on this
        box's page and with this box's page dimensions; fails across pages. */
    function Combine(other: Bbox): (r: Result<Bbox, GeometryError>)
      ensures page != other.page ==> r == Failure(PageMismatch)
      ensures Valid() && other.Valid() && page == other.page ==>
                && r.Success? && r.value.Valid()
                && this.Within(r.value) && other.Within(r.value)
                && r.value.pageHeight == pageHeight && r.value.pageWidth == pageWidth
      ensures r.Success? ==> forall b: Bbox :: this.Within(b) && other.Within(b) ==> r.value.Within(b)
    {
      if page != other.page then Failure(PageMismatch)
      else MakeBbox(page, pageHeight, pageWidth,
                    Min(x0, other.x0), Min(y0, other.y0),
                    Max(x1, other.x1), Max(y1, other.y1))
    }
  }

  function Min(a: real, b: real): real { if a <= b then a else b }
  function Max(a: real, b: real): real { if a >= b then a else b }

  /** Construction of a `Bbox` through its validators. */
  function MakeBbox(page: int, pageHeight: real, pageWidth: real,
                    x0: real, y0: real, x1: real, y1: real): (r: Result<Bbox, GeometryError>)
    ensures r.Success? <==> x1 > x0 && y1 > y0
    ensures r.Success? ==> r.value == Bbox(page, pageHeight, pageWidth, x0, y0, x1, y1)
    ensures r.Failure? ==> r.error == DegenerateRect
  {
    if x1 <= x0 || y1 <= y0 then Failure(DegenerateRect)
    else Success(Bbox(page, pageHeight, pageWidth, x0, y0, x1, y1))
  }

  /** Every box that can be constructed has a strictly positive area. */
  lemma ValidAreaPositive(b: Bbox)
    requires b.Valid()
    ensures b.Area() > 0.0
  {
    assert b.x1 - b.x0 > 0.0 && b.y1 - b.y0 > 0.0;
  }

  /** `combine` is commutative on the coordinates (the page dimensions come
      from the receiver, so the boxes themselves may differ). */
  lemma CombineCommutesOnCoordinates(a: Bbox, b: Bbox)
    ensures a.Combine(b).Success? <==> b.Combine(a).Success?
    ensures a.Combine(b).Success? ==>
              var p, q := a.Combine(b).value, b.Combine(a).value;
              p.page == q.page && p.x0 == q.x0 && p.y0 == q.y0 && p.x1 == q.x1 && p.y1 == q.y1
  {
  }
}
