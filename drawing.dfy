/** The drawing helpers of src/openparse/pdf.py: flipping a box between a
    bottom-left and a top-left origin, and flattening boxes into colored,
    annotated drawing entries. */
module Drawing {
  import opened Wrappers
  import opened Geometry
  import opened Sorting

  /** The annotation of every box of a list entry after its first. */
  const ContinuedLabel: string := "continued ..."

  /** `_flip_coordinates`: mirror the box vertically within its page. */
  function FlipCoordinates(b: Bbox): Bbox {
    Bbox(b.page, b.pageHeight, b.pageWidth, b.x0, b.pageHeight - b.y1, b.x1, b.pageHeight - b.y0)
  }

  /** Flipping keeps the page, its dimensions and the horizontal extent,
      mirrors the vertical extent, and keeps the box constructible. */
  lemma FlipProperties(b: Bbox)
    ensures var r := FlipCoordinates(b);
            && r.page == b.page && r.pageHeight == b.pageHeight && r.pageWidth == b.pageWidth
            && r.x0 == b.x0 && r.x1 == b.x1
            && r.y0 + b.y1 == b.pageHeight && r.y1 + b.y0 == b.pageHeight
            && (b.Valid() <==> r.Valid())
  {
  }

  /** Flipping twice gives back the original box. */
  lemma FlipInvolution(b: Bbox)
    ensures FlipCoordinates(FlipCoordinates(b)) == b
  {
  }

  /** Flipping preserves width, height and area. */
  lemma FlipPreservesSize(b: Bbox)
    ensures var r := FlipCoordinates(b);
            r.x1 - r.x0 == b.x1 - b.x0 && r.y1 - r.y0 == b.y1 - b.y0 && r.Area() == b.Area()
  {
    var r := FlipCoordinates(b);
    assert r.y1 - r.y0 == b.y1 - b.y0;
  }

  /** A color triple; where it comes from (`_random_color`) is not modelled. */
  datatype Color = Color(r: real, g: real, b: real)

  /** `_BboxWithColor`. */
  datatype BboxWithColor = BboxWithColor(color: Color, bbox: Bbox, annotation: Option<string>)

  /** A top-level entry: a single box, or the list of boxes of one node. */
  datatype DrawEntry = Single(box: Bbox) | Many(boxes: seq<Bbox>)

  datatype DrawError = AnnotationCountMismatch

  /** The caller's list of annotations, consumed in place. */
  class AnnotationList {
    var items: seq<string>

    constructor(items: seq<string>)
      ensures this.items == items
    {
      this.items := items;
    }

    /** `pop(0)`. */
    method PopFront() returns (x: string)
      requires |items| > 0
      modifies this
      ensures x == old(items)[0] && items == old(items)[1..]
    {
      x := items[0];
      items := items[1..];
    }
  }

  /** Extending the list by one box adds one labelled entry. */
  lemma LabelledSnoc(bs: seq<Bbox>, j: nat, color: Color, note: Option<string>)
    requires j < |bs|
    ensures Labelled(bs[..j + 1], color, note) ==
            Labelled(bs[..j], color, note) + [BboxWithColor(color, bs[j], if j == 0 then note else Some(ContinuedLabel))]
  {
  }

  /** The sort key of a list entry: the page alone. */
  function PageKey(b: Bbox): SortKey {
    SortKey(b.page, 0.0, 0.0)
  }

  /** The boxes of a list entry with one color; the first carries the
      entry's annotation `note`, the rest `"continued ..."`. */
  function Labelled(bs: seq<Bbox>, color: Color, note: Option<string>): seq<BboxWithColor> {
    seq(|bs|, k requires 0 <= k < |bs| =>
      BboxWithColor(color, bs[k], if k == 0 then note else Some(ContinuedLabel)))
  }

  /** What one top-level entry contributes. */
  function EntryOutput(e: DrawEntry, color: Color, note: Option<string>): seq<BboxWithColor> {
    match e
    case Single(b) => [BboxWithColor(color, b, note)]
    case Many(bs) => Labelled(SortBy(bs, PageKey), color, note)
  }

  /** The annotation of entry `i`: the `i`-th string when there are any. */
  function LabelAt(items: seq<string>, i: nat): Option<string> {
    if i < |items| then Some(items[i]) else None
  }

  /** The output for the first `n` entries; entry `i` is drawn in `palette(i)`. */
  function Prepared(entries: seq<DrawEntry>, palette: nat -> Color, items: seq<string>, n: nat): seq<BboxWithColor>
    requires n <= |entries|
  {
    if n == 0 then []
    else Prepared(entries, palette, items, n - 1) + EntryOutput(entries[n - 1], palette(n - 1), LabelAt(items, n - 1))
  }

  /** The `assert` of `_prepare_bboxes_for_drawing`: a non-empty annotation
      list must have one annotation per entry. */
  predicate AnnotationsMatch(entries: seq<DrawEntry>, items: seq<string>) {
    |items| == 0 || |items| == |entries|
  }

  /** The body of the loop of `_prepare_bboxes_for_drawing` for one entry:
      a single box as it is, the boxes of a list sorted by page, with the
      annotation replaced by `"continued ..."` after the first. */
  method EmitEntry(e: DrawEntry, color: Color, note: Option<string>) returns (block: seq<BboxWithColor>)
    ensures block == EntryOutput(e, color, note)
  {
    match e
    case Single(b) =>
      block := [BboxWithColor(color, b, note)];
    case Many(bs) =>
      var sorted := SortBy(bs, PageKey);
      var text := note;
      block := [];
      for j := 0 to |sorted|
        invariant block == Labelled(sorted[..j], color, note)
        invariant text == if j == 0 then note else Some(ContinuedLabel)
      {
        LabelledSnoc(sorted, j, color, note);
        block := block + [BboxWithColor(color, sorted[j], text)];
        text := Some(ContinuedLabel);
      }
      assert sorted[..|sorted|] == sorted;
  }

  /** `_prepare_bboxes_for_drawing`. `annotations == null` stands for `None`;
      the colors come from `palette`. */
  method PrepareBboxesForDrawing(entries: seq<DrawEntry>, annotations: AnnotationList?, palette: nat -> Color)
    returns (res: Result<seq<BboxWithColor>, DrawError>)
    modifies annotations
    ensures annotations != null && !AnnotationsMatch(entries, old(annotations.items)) ==>
              res == Failure(AnnotationCountMismatch) && annotations.items == old(annotations.items)
    ensures annotations != null && AnnotationsMatch(entries, old(annotations.items)) ==>
              res == Success(Prepared(entries, palette, old(annotations.items), |entries|)) && annotations.items == []
    ensures annotations == null ==> res == Success(Prepared(entries, palette, [], |entries|))
  {
    ghost var items := if annotations == null then [] else annotations.items;
    if annotations != null && !AnnotationsMatch(entries, annotations.items) {
      return Failure(AnnotationCountMismatch);
    }
    var out: seq<BboxWithColor> := [];
    for i := 0 to |entries|
      invariant out == Prepared(entries, palette, items, i)
      invariant annotations != null ==> annotations.items == if |items| == 0 then [] else items[i..]
    {
      var color := palette(i);
      var text: Option<string> := None;
      if annotations != null && |annotations.items| > 0 {
        var a := annotations.PopFront();
        text := Some(a);
      }
      assert text == LabelAt(items, i);
      var block := EmitEntry(entries[i], color, text);
      out := out + block;
    }
    return Success(out);
  }

  // ---------------------------------------------------------------------
  // Properties of the flattened output
  // ---------------------------------------------------------------------

  function EntrySize(e: DrawEntry): nat {
    match e
    case Single(_) => 1
    case Many(bs) => |bs|
  }

  /** The number of single boxes plus the lengths of the lists. */
  function TotalSize(entries: seq<DrawEntry>): nat {
    if entries == [] then 0 else TotalSize(entries[..|entries| - 1]) + EntrySize(entries[|entries| - 1])
  }

  function BoxesOf(out: seq<BboxWithColor>): (r: seq<Bbox>)
    ensures |r| == |out| && forall k | 0 <= k < |out| :: r[k] == out[k].bbox
  {
    seq(|out|, k requires 0 <= k < |out| => out[k].bbox)
  }

  /** The output has one drawing entry per single box and per box of a list. */
  lemma {:induction false} PreparedLength(entries: seq<DrawEntry>, palette: nat -> Color, items: seq<string>, n: nat)
    requires n <= |entries|
    ensures |Prepared(entries, palette, items, n)| == TotalSize(entries[..n])
  {
    if n > 0 {
      PreparedLength(entries, palette, items, n - 1);
      assert entries[..n][..n - 1] == entries[..n - 1];
      assert SortBy([], PageKey) == [];
    }
  }

  /** Entries are emitted in input order: the output for the first `n`
      entries is a prefix of the output for the first `m`. */
  lemma PreparedPrefix(entries: seq<DrawEntry>, palette: nat -> Color, items: seq<string>, n: nat, m: nat)
    requires n <= m <= |entries|
    ensures |Prepared(entries, palette, items, n)| <= |Prepared(entries, palette, items, m)|
    ensures Prepared(entries, palette, items, m)[..|Prepared(entries, palette, items, n)|] == Prepared(entries, palette, items, n)
  {
    var chain := seq(m + 1, k requires 0 <= k <= m => Prepared(entries, palette, items, k));
    PreparedChain(entries, palette, items, chain);
    ChainPrefix(chain, n, m);
    assert chain[n] == Prepared(entries, palette, items, n);
    assert chain[m] == Prepared(entries, palette, items, m);
  }

  /** The outputs for `0, 1, ..., m` entries form a chain of extensions. */
  lemma PreparedChain(entries: seq<DrawEntry>, palette: nat -> Color, items: seq<string>, chain: seq<seq<BboxWithColor>>)
    requires |chain| <= |entries| + 1
    requires forall k | 0 <= k < |chain| :: chain[k] == Prepared(entries, palette, items, k)
    ensures forall k | 0 < k < |chain| :: |chain[k - 1]| <= |chain[k]| && chain[k][..|chain[k - 1]|] == chain[k - 1]
  {
    forall k | 0 < k < |chain|
      ensures |chain[k - 1]| <= |chain[k]| && chain[k][..|chain[k - 1]|] == chain[k - 1]
    {
      PreparedStep(entries, palette, items, k, chain[k - 1]);
    }
  }

  /** The output for `m` entries extends the output for `m - 1`. */
  lemma PreparedStep(entries: seq<DrawEntry>, palette: nat -> Color, items: seq<string>, m: nat, q': seq<BboxWithColor>)
    requires 0 < m <= |entries| && q' == Prepared(entries, palette, items, m - 1)
    ensures |q'| <= |Prepared(entries, palette, items, m)|
    ensures Prepared(entries, palette, items, m)[..|q'|] == q'
  {
    var e := EntryOutput(entries[m - 1], palette(m - 1), LabelAt(items, m - 1));
    assert Prepared(entries, palette, items, m) == q' + e;
    assert (q' + e)[..|q'|] == q';
  }

  /** In a chain of sequences each extending the one before, every earlier
      sequence is a prefix of every later one. */
  lemma {:induction false} ChainPrefix<T>(chain: seq<seq<T>>, n: nat, m: nat)
    requires n <= m < |chain|
    requires forall k | 0 < k < |chain| :: |chain[k - 1]| <= |chain[k]| && chain[k][..|chain[k - 1]|] == chain[k - 1]
    ensures |chain[n]| <= |chain[m]| && chain[m][..|chain[n]|] == chain[n]
    decreases m
  {
    if n < m {
      ChainPrefix(chain, n, m - 1);
      assert chain[m][..|chain[n]|] == chain[m][..|chain[m - 1]|][..|chain[n]|];
    }
  }

  /** Entry `i` contributes one contiguous block, right after the blocks of
      the entries before it. */
  lemma EntryBlock(entries: seq<DrawEntry>, palette: nat -> Color, items: seq<string>, i: nat)
    requires i < |entries|
    ensures var lo, hi := |Prepared(entries, palette, items, i)|, |Prepared(entries, palette, items, i + 1)|;
            var all := Prepared(entries, palette, items, |entries|);
            lo <= hi <= |all| &&
            all[lo..hi] == EntryOutput(entries[i], palette(i), LabelAt(items, i))
  {
    var p, q := Prepared(entries, palette, items, i), Prepared(entries, palette, items, i + 1);
    var all := Prepared(entries, palette, items, |entries|);
    PreparedPrefix(entries, palette, items, i + 1, |entries|);
    assert all[..|q|] == q;
    assert all[|p|..|q|] == q[|p|..];
  }

  /** A list entry is drawn sorted by page, as a stable permutation of its
      boxes, all in the entry's color; the first box carries the entry's
      annotation and every later box `"continued ..."`. */
  lemma ListEntryOutput(bs: seq<Bbox>, color: Color, note: Option<string>, page: int)
    ensures var out := EntryOutput(Many(bs), color, note);
            && |out| == |bs|
            && (forall i, j | 0 <= i < j < |out| :: out[i].bbox.page <= out[j].bbox.page)
            && multiset(BoxesOf(out)) == multiset(bs)
            && WithKey(BoxesOf(out), PageKey, SortKey(page, 0.0, 0.0)) == WithKey(bs, PageKey, SortKey(page, 0.0, 0.0))
            && (forall x <- out :: x.color == color)
            && (|out| > 0 ==> out[0].annotation == note)
            && (forall k | 1 <= k < |out| :: out[k].annotation == Some(ContinuedLabel))
  {
    var sorted := SortBy(bs, PageKey);
    var out := EntryOutput(Many(bs), color, note);
    assert BoxesOf(out) == sorted;
    SortBySorted(bs, PageKey);
    SortByPermutes(bs, PageKey);
    SortByStable(bs, PageKey, SortKey(page, 0.0, 0.0));
    forall i, j | 0 <= i < j < |out|
      ensures out[i].bbox.page <= out[j].bbox.page
    {
      assert KeyLe(PageKey(sorted[i]), PageKey(sorted[j]));
    }
  }
}
