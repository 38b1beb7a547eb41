/** Nodes (`Node` in src/schemas.py): an ordered group of content elements
    treated as one semantic unit, and the parsed document that holds them. */
module Nodes {
  import opened Geometry
  import opened Elements
  import opened Sorting
  import Seqs

  /** Token count below which a node is a stub. */
  const StubTokenLimit: int := 50
  /** `consts.TOKENIZATION_LOWER_LIMIT`, the default of `_tokenization_lower_limit`. */
  const TokenizationLowerLimit: int := 256
  /** `consts.TOKENIZATION_UPPER_LIMIT`, the default of `_tokenization_upper_limit`. */
  const TokenizationUpperLimit: int := 1024
  /** The separator `Node.text` writes between elements at different heights:
      the literal `"<br>"`, not `consts.ELEMENT_DELIMETER` (`"<br><br>"`). */
  const BlockSeparator: string := "<br>"

  /** The sort key `(min_page, min_y0, min_x0)` of a node. */
  datatype AggregatePosition = AggregatePosition(minPage: int, minY0: real, minX0: real)

  datatype Node = Node(elements: seq<Element>)
  {
    /** Sum of the elements' token counts. */
    function Tokens(tokenizer: string -> nat): nat {
      SumTokens(elements, tokenizer)
    }

    predicate IsStub(tokenizer: string -> nat) {
      Tokens(tokenizer) < StubTokenLimit
    }

    predicate IsSmall(tokenizer: string -> nat) {
      Tokens(tokenizer) < TokenizationLowerLimit
    }

    predicate IsLarge(tokenizer: string -> nat) {
      Tokens(tokenizer) > TokenizationUpperLimit
    }

    /** `bbox`: one box per distinct page, in the order pages are first seen. */
    function Bboxes(): (r: seq<Bbox>)
      ensures |r| == |Pages(elements)|
    {
      var ps := Pages(elements);
      seq(|ps|, i requires 0 <= i < |ps| =>
        assert ps[i] in ps;
        PageBox(ps[i], OnPage(elements, ps[i])))
    }

    function NumPages(): nat {
      |PageSet(elements)|
    }

    function StartPage(): int
      requires |elements| > 0
    {
      MinInt(PagesOf(elements))
    }

    function EndPage(): int
      requires |elements| > 0
    {
      MaxInt(PagesOf(elements))
    }

    /** `text`: the elements in reading order, joined by a space when
        consecutive elements are at a similar height and by `"<br>"` otherwise. */
    function Text(): string {
      Serialize(ReadingOrder())
    }

    /** The elements sorted by `(page, -y1, x0)`. */
    function ReadingOrder(): seq<Element> {
      SortBy(elements, ReadingKey)
    }

    /** `overlaps`: some pair of same-page boxes of the two nodes overlaps. */
    predicate Overlaps(other: Node, xMargin: real, yMargin: real) {
      BoxListsOverlap(Bboxes(), other.Bboxes(), xMargin, yMargin)
    }

    function AggregatePos(): (r: AggregatePosition)
      requires |elements| > 0
      ensures r.minPage == StartPage()
      ensures forall e <- elements :: r.minPage <= e.Page() && r.minY0 <= e.bbox.y0 && r.minX0 <= e.bbox.x0
      ensures exists e <- elements :: e.bbox.y0 == r.minY0
      ensures exists e <- elements :: e.bbox.x0 == r.minX0
    {
      AggregatePosition(MinInt(PagesOf(elements)),
                        MinReal(Y0s(elements)), MinReal(X0s(elements)))
    }

    /** `combine`: the elements of both nodes, in argument order. */
    function Combine(other: Node): (r: Node)
      ensures r.elements == elements + other.elements
    {
      Node(elements + other.elements)
    }
  }

  datatype FileMetadata = FileMetadata(filename: string, numPages: int)

  /** The root artifact: the document's nodes and its metadata. */
  datatype ParsedDoc = ParsedDoc(nodes: seq<Node>, fileMetadata: FileMetadata)

  // ---------------------------------------------------------------------
  // Folds over the elements (Python's `sum`, `min` and `max`)
  // ---------------------------------------------------------------------

  function SumTokens(es: seq<Element>, tokenizer: string -> nat): nat {
    if es == [] then 0 else SumTokens(es[..|es| - 1], tokenizer) + es[|es| - 1].Tokens(tokenizer)
  }

  function PagesOf(es: seq<Element>): (r: seq<int>)
    ensures |r| == |es| && forall i | 0 <= i < |es| :: r[i] == es[i].Page()
  {
    seq(|es|, i requires 0 <= i < |es| => es[i].Page())
  }

  function X0s(es: seq<Element>): (r: seq<real>)
    ensures |r| == |es| && forall i | 0 <= i < |es| :: r[i] == es[i].bbox.x0
  {
    seq(|es|, i requires 0 <= i < |es| => es[i].bbox.x0)
  }

  function Y0s(es: seq<Element>): (r: seq<real>)
    ensures |r| == |es| && forall i | 0 <= i < |es| :: r[i] == es[i].bbox.y0
  {
    seq(|es|, i requires 0 <= i < |es| => es[i].bbox.y0)
  }

  function X1s(es: seq<Element>): (r: seq<real>)
    ensures |r| == |es| && forall i | 0 <= i < |es| :: r[i] == es[i].bbox.x1
  {
    seq(|es|, i requires 0 <= i < |es| => es[i].bbox.x1)
  }

  function Y1s(es: seq<Element>): (r: seq<real>)
    ensures |r| == |es| && forall i | 0 <= i < |es| :: r[i] == es[i].bbox.y1
  {
    seq(|es|, i requires 0 <= i < |es| => es[i].bbox.y1)
  }

  /** `min` of a non-empty sequence: a lower bound that is attained. */
  function MinReal(xs: seq<real>): (m: real)
    requires |xs| > 0
    ensures forall i | 0 <= i < |xs| :: m <= xs[i]
    ensures exists i | 0 <= i < |xs| :: m == xs[i]
  {
    if |xs| == 1 then xs[0]
    else var m := MinReal(xs[..|xs| - 1]); if xs[|xs| - 1] < m then xs[|xs| - 1] else m
  }

  /** `max` of a non-empty sequence: an upper bound that is attained. */
  function MaxReal(xs: seq<real>): (m: real)
    requires |xs| > 0
    ensures forall i | 0 <= i < |xs| :: xs[i] <= m
    ensures exists i | 0 <= i < |xs| :: m == xs[i]
  {
    if |xs| == 1 then xs[0]
    else var m := MaxReal(xs[..|xs| - 1]); if xs[|xs| - 1] > m then xs[|xs| - 1] else m
  }

  function MinInt(xs: seq<int>): (m: int)
    requires |xs| > 0
    ensures forall i | 0 <= i < |xs| :: m <= xs[i]
    ensures exists i | 0 <= i < |xs| :: m == xs[i]
  {
    if |xs| == 1 then xs[0]
    else var m := MinInt(xs[..|xs| - 1]); if xs[|xs| - 1] < m then xs[|xs| - 1] else m
  }

  function MaxInt(xs: seq<int>): (m: int)
    requires |xs| > 0
    ensures forall i | 0 <= i < |xs| :: xs[i] <= m
    ensures exists i | 0 <= i < |xs| :: m == xs[i]
  {
    if |xs| == 1 then xs[0]
    else var m := MaxInt(xs[..|xs| - 1]); if xs[|xs| - 1] > m then xs[|xs| - 1] else m
  }

  // ---------------------------------------------------------------------
  // Pages and per-page boxes
  // ---------------------------------------------------------------------

  function PageSet(es: seq<Element>): set<int> {
    set e | e in es :: e.Page()
  }

  /** The distinct pages of `es` in the order they are first seen (the key
      order of the `defaultdict` that `bbox` fills). */
  function Pages(es: seq<Element>): (ps: seq<int>)
    ensures forall i, j | 0 <= i < j < |ps| :: ps[i] != ps[j]
    ensures forall p :: p in ps <==> exists k | 0 <= k < |es| :: es[k].Page() == p
  {
    if es == [] then []
    else
      var ps := Pages(es[..|es| - 1]);
      var p := es[|es| - 1].Page();
      if p in ps then ps else ps + [p]
  }

  /** The elements of `es` on page `p`, in their order in `es`. */
  function OnPage(es: seq<Element>, p: int): (r: seq<Element>)
    ensures forall e <- r :: e.Page() == p
    ensures forall k | 0 <= k < |es| && es[k].Page() == p :: es[k] in r
    ensures forall e <- r :: e in es
    ensures (exists k | 0 <= k < |es| :: es[k].Page() == p) ==> |r| > 0
  {
    if es == [] then []
    else OnPage(es[..|es| - 1], p) + (if es[|es| - 1].Page() == p then [es[|es| - 1]] else [])
  }

  /** The box `bbox` builds for page `p` from that page's elements. */
  function PageBox(p: int, group: seq<Element>): Bbox
    requires |group| > 0
  {
    Bbox(p, group[0].bbox.pageHeight, group[0].bbox.pageWidth,
         MinReal(X0s(group)), MinReal(Y0s(group)), MaxReal(X1s(group)), MaxReal(Y1s(group)))
  }

  /** Some box of `mine` overlaps a box of `theirs` on the same page. */
  predicate BoxListsOverlap(mine: seq<Bbox>, theirs: seq<Bbox>, xMargin: real, yMargin: real) {
    exists i, j | 0 <= i < |mine| && 0 <= j < |theirs| ::
      mine[i].page == theirs[j].page && BoxesOverlap(mine[i], theirs[j], xMargin, yMargin)
  }

  // ---------------------------------------------------------------------
  // Reading order and text
  // ---------------------------------------------------------------------

  /** The sort key `(page, -y1, x0)` of `Node.text`. */
  function ReadingKey(e: Element): SortKey {
    SortKey(e.Page(), -e.bbox.y1, e.bbox.x0)
  }

  /** What `Node.text` writes before an element that follows `prev`. */
  function Separator(prev: Element, cur: Element): string {
    if cur.IsAtSimilarHeight(prev, DefaultHeightMargin) then " " else BlockSeparator
  }

  /** The texts of `s`, each after the first preceded by its separator. */
  function Serialize(s: seq<Element>): string {
    if |s| == 0 then ""
    else if |s| == 1 then s[0].text
    else Serialize(s[..|s| - 1]) + Separator(s[|s| - 2], s[|s| - 1]) + s[|s| - 1].text
  }

  /** `"".join(pieces)`. */
  function Join(pieces: seq<string>): string {
    if pieces == [] then "" else Join(pieces[..|pieces| - 1]) + pieces[|pieces| - 1]
  }

  // ---------------------------------------------------------------------
  // Tokens and size classes
  // ---------------------------------------------------------------------

  /** The token sum distributes over concatenation of element lists. */
  lemma {:induction false} SumTokensAppend(a: seq<Element>, b: seq<Element>, tokenizer: string -> nat)
    ensures SumTokens(a + b, tokenizer) == SumTokens(a, tokenizer) + SumTokens(b, tokenizer)
    decreases |b|
  {
    if b == [] {
      assert a + b == a;
    } else {
      var init := b[..|b| - 1];
      assert (a + b)[..|a + b| - 1] == a + init;
      assert (a + b)[|a + b| - 1] == b[|b| - 1];
      SumTokensAppend(a, init, tokenizer);
    }
  }

  /** Combining nodes adds their token counts; a combination is large when
      either part is, and a stub only when both parts are. */
  lemma CombineTokens(n: Node, m: Node, tokenizer: string -> nat)
    ensures n.Combine(m).Tokens(tokenizer) == n.Tokens(tokenizer) + m.Tokens(tokenizer)
    ensures n.IsLarge(tokenizer) || m.IsLarge(tokenizer) ==> n.Combine(m).IsLarge(tokenizer)
    ensures n.Combine(m).IsStub(tokenizer) ==> n.IsStub(tokenizer) && m.IsStub(tokenizer)
    ensures n.Combine(m).IsSmall(tokenizer) ==> n.IsSmall(tokenizer) && m.IsSmall(tokenizer)
  {
    SumTokensAppend(n.elements, m.elements, tokenizer);
  }

  /** The size classes are ordered: a stub is small, a large node is not,
      and a node without elements is a stub. */
  lemma SizeClasses(n: Node, tokenizer: string -> nat)
    ensures n.IsStub(tokenizer) ==> n.IsSmall(tokenizer)
    ensures n.IsLarge(tokenizer) ==> !n.IsSmall(tokenizer)
    ensures n.elements == [] ==> n.Tokens(tokenizer) == 0 && n.IsStub(tokenizer)
  {
  }

  // ---------------------------------------------------------------------
  // Pages and per-page boxes
  // ---------------------------------------------------------------------

  /** A sequence without repetitions has as many members as elements. */
  lemma {:induction false} DistinctCard(ps: seq<int>)
    requires forall i, j | 0 <= i < j < |ps| :: ps[i] != ps[j]
    ensures |set p | p in ps| == |ps|
    decreases |ps|
  {
    if ps != [] {
      var init, last := ps[..|ps| - 1], ps[|ps| - 1];
      DistinctCard(init);
      assert (set p | p in ps) == (set p | p in init) + {last};
      assert last !in (set p | p in init);
    }
  }

  /** `Pages` lists exactly the node's pages: one box per page. */
  lemma BboxCount(n: Node)
    ensures |n.Bboxes()| == n.NumPages()
  {
    var ps := Pages(n.elements);
    DistinctCard(ps);
    forall x
      ensures x in (set p | p in ps) <==> x in PageSet(n.elements)
    {
      if x in PageSet(n.elements) {
        var e :| e in n.elements && e.Page() == x;
        var k :| 0 <= k < |n.elements| && n.elements[k] == e;
        assert n.elements[k].Page() == x;
      }
    }
    assert (set p | p in ps) == PageSet(n.elements);
  }

  /** The first element of a page's group is the first element of the node
      on that page. */
  lemma {:induction false} OnPageFirst(es: seq<Element>, p: int)
    requires |OnPage(es, p)| > 0
    ensures exists k | 0 <= k < |es| :: es[k] == OnPage(es, p)[0] && es[k].Page() == p &&
                                        forall k' | 0 <= k' < k :: es[k'].Page() != p
    decreases |es|
  {
    var init, last := es[..|es| - 1], es[|es| - 1];
    var g, tail := OnPage(init, p), if last.Page() == p then [last] else [];
    assert OnPage(es, p) == g + tail;
    if |g| > 0 {
      OnPageFirst(init, p);
      var k :| 0 <= k < |init| && init[k] == g[0] && init[k].Page() == p &&
               forall k' | 0 <= k' < k :: init[k'].Page() != p;
      assert es[k] == init[k];
      assert forall k' | 0 <= k' < k :: es[k'] == init[k'];
      assert OnPage(es, p)[0] == g[0];
    } else {
      var k := |es| - 1;
      assert OnPage(es, p) == [last];
      forall k' | 0 <= k' < k
        ensures es[k'].Page() != p
      {
        assert es[k'] == init[k'];
      }
      assert es[k] == OnPage(es, p)[0] && es[k].Page() == p;
    }
  }

  /** Pages are listed in the order they are first seen: every element on a
      later page comes after some element on each earlier page. */
  lemma {:induction false} PagesFirstSeenOrder(es: seq<Element>, i: int, j: int, k: int)
    requires 0 <= i < j < |Pages(es)|
    requires 0 <= k < |es| && es[k].Page() == Pages(es)[j]
    ensures exists k' | 0 <= k' < k :: es[k'].Page() == Pages(es)[i]
    decreases |es|
  {
    var init := es[..|es| - 1];
    var ps, p := Pages(init), es[|es| - 1].Page();
    assert Pages(es)[i] == ps[i];
    if j < |ps| {
      assert Pages(es)[j] == ps[j];
      if k < |init| {
        assert init[k] == es[k];
        PagesFirstSeenOrder(init, i, j, k);
        var k' :| 0 <= k' < k && init[k'].Page() == ps[i];
        assert es[k'] == init[k'];
      } else {
        assert ps[j] in ps;
        var k0 :| 0 <= k0 < |init| && init[k0].Page() == ps[j];
        PagesFirstSeenOrder(init, i, j, k0);
        var k' :| 0 <= k' < k0 && init[k'].Page() == ps[i];
        assert es[k'] == init[k'];
      }
    } else {
      assert p !in ps && Pages(es)[j] == p;
      assert ps[i] in ps;
      var k' :| 0 <= k' < |init| && init[k'].Page() == ps[i];
      assert es[k'] == init[k'];
    }
  }

  /** The box of page `p` is the smallest box enclosing every element on
      that page, takes the page dimensions of the first element seen on it,
      and is valid when the elements' boxes are. */
  lemma PageBoxProperties(es: seq<Element>, p: int)
    requires |OnPage(es, p)| > 0
    ensures forall e <- es :: e.Page() == p ==> e.bbox.Within(PageBox(p, OnPage(es, p)))
    ensures exists k | 0 <= k < |es| :: es[k].Page() == p &&
              (forall k' | 0 <= k' < k :: es[k'].Page() != p) &&
              PageBox(p, OnPage(es, p)).pageHeight == es[k].bbox.pageHeight &&
              PageBox(p, OnPage(es, p)).pageWidth == es[k].bbox.pageWidth
    ensures (forall e <- es :: e.bbox.Valid()) ==> PageBox(p, OnPage(es, p)).Valid()
    ensures forall outer: Bbox :: outer.page == p && (forall e <- es :: e.Page() == p ==> e.bbox.Within(outer)) ==>
              PageBox(p, OnPage(es, p)).Within(outer)
  {
    var g := OnPage(es, p);
    GroupBoxEncloses(p, g);
    GroupBoxSmallest(p, g);
    forall e <- es | e.Page() == p
      ensures e in g
    {
      var k :| 0 <= k < |es| && es[k] == e;
    }
    OnPageFirst(es, p);
    if forall e <- es :: e.bbox.Valid() {
      GroupBoxValid(p, g);
    }
  }

  /** The box of a group encloses every member of the group on its page. */
  lemma GroupBoxEncloses(p: int, g: seq<Element>)
    requires |g| > 0
    ensures forall e <- g :: e.Page() == p ==> e.bbox.Within(PageBox(p, g))
  {
    forall i | 0 <= i < |g|
      ensures PageBox(p, g).x0 <= g[i].bbox.x0 && PageBox(p, g).y0 <= g[i].bbox.y0
      ensures g[i].bbox.x1 <= PageBox(p, g).x1 && g[i].bbox.y1 <= PageBox(p, g).y1
    {
      assert X0s(g)[i] == g[i].bbox.x0 && Y0s(g)[i] == g[i].bbox.y0;
      assert X1s(g)[i] == g[i].bbox.x1 && Y1s(g)[i] == g[i].bbox.y1;
    }
  }

  /** The box of a group is the smallest box on its page enclosing every
      member: each of its four sides is attained by some member. */
  lemma GroupBoxSmallest(p: int, g: seq<Element>)
    requires |g| > 0
    ensures forall outer: Bbox :: outer.page == p && (forall e <- g :: e.bbox.Within(outer)) ==> PageBox(p, g).Within(outer)
  {
    var b := PageBox(p, g);
    var i0 :| 0 <= i0 < |g| && b.x0 == X0s(g)[i0];
    var j0 :| 0 <= j0 < |g| && b.y0 == Y0s(g)[j0];
    var i1 :| 0 <= i1 < |g| && b.x1 == X1s(g)[i1];
    var j1 :| 0 <= j1 < |g| && b.y1 == Y1s(g)[j1];
    forall outer: Bbox | outer.page == p && (forall e <- g :: e.bbox.Within(outer))
      ensures b.Within(outer)
    {
      assert g[i0].bbox.Within(outer) && g[j0].bbox.Within(outer);
      assert g[i1].bbox.Within(outer) && g[j1].bbox.Within(outer);
    }
  }

  /** The box of a group of valid boxes is valid. */
  lemma GroupBoxValid(p: int, g: seq<Element>)
    requires |g| > 0 && forall e <- g :: e.bbox.Valid()
    ensures PageBox(p, g).Valid()
  {
    assert g[0] in g;
    assert PageBox(p, g).x0 <= X0s(g)[0] && X1s(g)[0] <= PageBox(p, g).x1;
    assert PageBox(p, g).y0 <= Y0s(g)[0] && Y1s(g)[0] <= PageBox(p, g).y1;
  }

  /** The `i`-th box is the box of the `i`-th page seen: the smallest box
      enclosing the elements on that page, taking the page dimensions of the first of them,
      and is valid when the elements' boxes are. */
  lemma BboxAt(n: Node, i: int)
    requires 0 <= i < |n.Bboxes()|
    ensures n.Bboxes()[i].page == Pages(n.elements)[i] && n.Bboxes()[i].page in PageSet(n.elements)
    ensures forall e <- n.elements :: e.Page() == n.Bboxes()[i].page ==> e.bbox.Within(n.Bboxes()[i])
    ensures exists k | 0 <= k < |n.elements| :: n.elements[k].Page() == n.Bboxes()[i].page &&
              (forall k' | 0 <= k' < k :: n.elements[k'].Page() != n.Bboxes()[i].page) &&
              n.Bboxes()[i].pageHeight == n.elements[k].bbox.pageHeight &&
              n.Bboxes()[i].pageWidth == n.elements[k].bbox.pageWidth
    ensures (forall e <- n.elements :: e.bbox.Valid()) ==> n.Bboxes()[i].Valid()
    ensures forall outer: Bbox ::
              outer.page == n.Bboxes()[i].page && (forall e <- n.elements :: e.Page() == outer.page ==> e.bbox.Within(outer)) ==>
              n.Bboxes()[i].Within(outer)
  {
    var es, ps := n.elements, Pages(n.elements);
    var p := ps[i];
    assert p in PageSet(es) && |OnPage(es, p)| > 0 by {
      assert p in ps;
      var k :| 0 <= k < |es| && es[k].Page() == p;
      assert es[k] in es;
    }
    assert n.Bboxes()[i] == PageBox(p, OnPage(es, p));
    PageBoxProperties(es, p);
  }

  /** `bbox` yields one box per distinct page and every element lies in a box. */
  lemma BboxesCover(n: Node)
    ensures forall i, j | 0 <= i < j < |n.Bboxes()| :: n.Bboxes()[i].page != n.Bboxes()[j].page
    ensures forall e <- n.elements :: exists i | 0 <= i < |n.Bboxes()| :: e.bbox.Within(n.Bboxes()[i])
  {
    var es, ps, bs := n.elements, Pages(n.elements), n.Bboxes();
    forall i | 0 <= i < |bs|
      ensures bs[i].page == ps[i]
    {
      BboxAt(n, i);
    }
    forall e <- es
      ensures exists i | 0 <= i < |bs| :: e.bbox.Within(bs[i])
    {
      var k :| 0 <= k < |es| && es[k] == e;
      assert e.Page() in ps;
      var i :| 0 <= i < |ps| && ps[i] == e.Page();
      BboxAt(n, i);
    }
  }

  /** The first box is the box of the first element's page. */
  lemma FirstBboxPage(n: Node)
    requires |n.elements| > 0
    ensures |n.Bboxes()| > 0 && n.Bboxes()[0].page == n.elements[0].Page()
  {
    var es, ps := n.elements, Pages(n.elements);
    assert es[0].Page() in ps;
    var j :| 0 <= j < |ps| && ps[j] == es[0].Page();
    if j > 0 {
      PagesFirstSeenOrder(es, 0, j, 0);
    }
  }

  /** The start page is at most the end page, both are pages of the node,
      and every element lies between them. */
  lemma PageRange(n: Node)
    requires |n.elements| > 0
    ensures n.StartPage() <= n.EndPage()
    ensures n.StartPage() in PageSet(n.elements) && n.EndPage() in PageSet(n.elements)
    ensures forall e <- n.elements :: n.StartPage() <= e.Page() <= n.EndPage()
  {
    var es, pages := n.elements, PagesOf(n.elements);
    assert pages[0] == es[0].Page();
    var i :| 0 <= i < |pages| && pages[i] == n.StartPage();
    var j :| 0 <= j < |pages| && pages[j] == n.EndPage();
    assert es[i] in es && es[j] in es;
    forall e <- es
      ensures n.StartPage() <= e.Page() <= n.EndPage()
    {
      var k :| 0 <= k < |es| && es[k] == e;
      assert pages[k] == e.Page();
    }
  }

  // ---------------------------------------------------------------------
  // Text
  // ---------------------------------------------------------------------

  /** The reading order is sorted by `(page, -y1, x0)`, is a permutation of
      the elements, and keeps elements with equal keys in node order. */
  lemma ReadingOrderProperties(n: Node, k: SortKey)
    ensures SortedBy(n.ReadingOrder(), ReadingKey)
    ensures multiset(n.ReadingOrder()) == multiset(n.elements)
    ensures WithKey(n.ReadingOrder(), ReadingKey, k) == WithKey(n.elements, ReadingKey, k)
  {
    SortBySorted(n.elements, ReadingKey);
    SortByPermutes(n.elements, ReadingKey);
    SortByStable(n.elements, ReadingKey, k);
  }

  /** Appending one element adds its separator and its text. */
  lemma SerializeSnoc(s: seq<Element>, x: Element)
    requires |s| > 0
    ensures Serialize(s + [x]) == Serialize(s) + Separator(s[|s| - 1], x) + x.text
  {
    assert (s + [x])[..|s|] == s;
  }

  /** Serializing a concatenation puts one separator between the parts. */
  lemma {:induction false} SerializeAppend(s: seq<Element>, t: seq<Element>)
    requires |s| > 0 && |t| > 0
    ensures Serialize(s + t) == Serialize(s) + (Separator(s[|s| - 1], t[0]) + Serialize(t))
    decreases |t|
  {
    if |t| == 1 {
      assert t == [t[0]];
      SerializeSnoc(s, t[0]);
      Seqs.ConcatAssoc(Serialize(s), Separator(s[|s| - 1], t[0]), t[0].text);
    } else {
      var init, last := t[..|t| - 1], t[|t| - 1];
      assert s + t == (s + init) + [last] && t == init + [last];
      assert (s + init)[|s + init| - 1] == init[|init| - 1];
      SerializeAppend(s, init);
      SerializeSnoc(s + init, last);
      SerializeSnoc(init, last);
      var x, si, sep2 := Serialize(s) + Separator(s[|s| - 1], t[0]), Serialize(init), Separator(init[|init| - 1], last);
      Seqs.ConcatAssoc(Serialize(s), Separator(s[|s| - 1], t[0]), si);
      calc {
        Serialize(s + t);
        x + si + sep2 + last.text;
        { Seqs.ConcatAssoc(x, si, sep2); }
        x + (si + sep2) + last.text;
        { Seqs.ConcatAssoc(x, si + sep2, last.text); }
        x + (si + sep2 + last.text);
      }
      Seqs.ConcatAssoc(Serialize(s), Separator(s[|s| - 1], t[0]), Serialize(t));
    }
  }

  /** The serialization of a prefix ends with the text of its last element. */
  lemma SerializePrefix(s: seq<Element>, i: int)
    requires 0 <= i < |s|
    ensures i == 0 ==> Serialize(s[..i + 1]) == s[i].text
    ensures i > 0 ==> Serialize(s[..i + 1]) == Serialize(s[..i]) + Separator(s[i - 1], s[i]) + s[i].text
  {
    assert s[..i + 1][..i] == s[..i];
  }

  /** `s[i].text` occurs in `Serialize(s)`. */
  lemma {:induction false} SerializeContains(s: seq<Element>, i: int)
    requires 0 <= i < |s|
    ensures exists pre, post :: Serialize(s) == pre + s[i].text + post
    decreases |s|
  {
    var init, last := s[..|s| - 1], s[|s| - 1];
    if i == |s| - 1 {
      var pre := if i == 0 then "" else Serialize(init) + Separator(s[i - 1], s[i]);
      SerializePrefix(s, i);
      assert s[..i + 1] == s;
      assert Serialize(s) == pre + s[i].text + "";
    } else {
      assert init[i] == s[i];
      SerializeContains(init, i);
      var pre, post :| Serialize(init) == pre + s[i].text + post;
      var sep := Separator(s[|s| - 2], last);
      assert Serialize(s) == Serialize(init) + sep + last.text by {
        SerializePrefix(s, |s| - 1);
        assert s[..|s|] == s;
      }
      var x := pre + s[i].text;
      calc {
        Serialize(s);
        x + post + sep + last.text;
        { Seqs.ConcatAssoc(x, post, sep); }
        x + (post + sep) + last.text;
        { Seqs.ConcatAssoc(x, post + sep, last.text); }
        x + (post + sep + last.text);
      }
    }
  }

  /** `text` is empty for a node without elements, is the element's text for
      a single element, and contains the text of every element. */
  lemma TextProperties(n: Node)
    ensures n.elements == [] ==> n.Text() == ""
    ensures |n.elements| == 1 ==> n.Text() == n.elements[0].text
    ensures forall e <- n.elements :: exists pre, post :: n.Text() == pre + e.text + post
  {
    var r := n.ReadingOrder();
    ReadingOrderProperties(n, SortKey(0, 0.0, 0.0));
    if |n.elements| == 1 {
      assert r == [n.elements[0]];
    }
    forall e <- n.elements
      ensures exists pre, post :: n.Text() == pre + e.text + post
    {
      assert e in multiset(r);
      var i :| 0 <= i < |r| && r[i] == e;
      SerializeContains(r, i);
    }
  }

  // ---------------------------------------------------------------------
  // Overlap of nodes
  // ---------------------------------------------------------------------

  /** Overlap of box lists is symmetric. */
  lemma BoxListsOverlapSymmetric(p: seq<Bbox>, q: seq<Bbox>, xm: real, ym: real)
    ensures BoxListsOverlap(p, q, xm, ym) <==> BoxListsOverlap(q, p, xm, ym)
  {
    if BoxListsOverlap(p, q, xm, ym) {
      var i, j :| 0 <= i < |p| && 0 <= j < |q| && p[i].page == q[j].page && BoxesOverlap(p[i], q[j], xm, ym);
      BoxesOverlapSymmetric(p[i], q[j], xm, ym);
    }
    if BoxListsOverlap(q, p, xm, ym) {
      var j, i :| 0 <= j < |q| && 0 <= i < |p| && q[j].page == p[i].page && BoxesOverlap(q[j], p[i], xm, ym);
      BoxesOverlapSymmetric(p[i], q[j], xm, ym);
    }
  }

  /** Overlap of nodes is symmetric. */
  lemma NodeOverlapsSymmetric(a: Node, b: Node, xm: real, ym: real)
    ensures a.Overlaps(b, xm, ym) <==> b.Overlaps(a, xm, ym)
  {
    BoxListsOverlapSymmetric(a.Bboxes(), b.Bboxes(), xm, ym);
  }

  /** Widening either margin keeps overlapping box lists overlapping. */
  lemma BoxListsOverlapMonotone(p: seq<Bbox>, q: seq<Bbox>, xm: real, ym: real, xm': real, ym': real)
    requires xm <= xm' && ym <= ym'
    requires BoxListsOverlap(p, q, xm, ym)
    ensures BoxListsOverlap(p, q, xm', ym')
  {
    var i, j :| 0 <= i < |p| && 0 <= j < |q| && p[i].page == q[j].page && BoxesOverlap(p[i], q[j], xm, ym);
    BoxesOverlapMonotone(p[i], q[j], xm, ym, xm', ym');
  }

  /** Widening either margin keeps overlapping nodes overlapping. */
  lemma NodeOverlapsMonotone(a: Node, b: Node, xm: real, ym: real, xm': real, ym': real)
    requires xm <= xm' && ym <= ym'
    requires a.Overlaps(b, xm, ym)
    ensures a.Overlaps(b, xm', ym')
  {
    BoxListsOverlapMonotone(a.Bboxes(), b.Bboxes(), xm, ym, xm', ym');
  }

  /** Nodes that share no page never overlap. */
  lemma DisjointPagesNoOverlap(a: Node, b: Node, xm: real, ym: real)
    requires PageSet(a.elements) !! PageSet(b.elements)
    ensures !a.Overlaps(b, xm, ym)
  {
    var p, q := a.Bboxes(), b.Bboxes();
    forall i, j | 0 <= i < |p| && 0 <= j < |q|
      ensures p[i].page != q[j].page
    {
      BboxAt(a, i);
      BboxAt(b, j);
    }
  }

  // ---------------------------------------------------------------------
  // The loops of `bbox`, `text` and `overlaps`
  // ---------------------------------------------------------------------

  /** One step of `OnPage` over a growing prefix. */
  lemma OnPageSnoc(es: seq<Element>, i: int, p: int)
    requires 0 <= i < |es|
    ensures OnPage(es[..i + 1], p) == OnPage(es[..i], p) + (if es[i].Page() == p then [es[i]] else [])
  {
    assert es[..i + 1][..i] == es[..i];
  }

  /** A page with no element has an empty group. */
  lemma OnPageAbsent(es: seq<Element>, p: int)
    requires p !in Pages(es)
    ensures OnPage(es, p) == []
  {
  }

  /** The first loop of `Node.bbox`: a dictionary from page to that page's
      elements, whose key order `order` is the order pages are first seen. */
  method GroupByPage(es: seq<Element>) returns (byPage: map<int, seq<Element>>, order: seq<int>)
    ensures order == Pages(es)
    ensures forall p :: p in byPage <==> p in order
    ensures forall p | p in byPage :: byPage[p] == OnPage(es, p)
  {
    byPage, order := map[], [];
    for i := 0 to |es|
      invariant order == Pages(es[..i])
      invariant forall p :: p in byPage <==> p in order
      invariant forall p | p in byPage :: byPage[p] == OnPage(es[..i], p)
    {
      var page := es[i].Page();
      assert es[..i + 1][..i] == es[..i] && es[..i + 1][i] == es[i];
      if page !in byPage {
        OnPageAbsent(es[..i], page);
      }
      var group := if page in byPage then byPage[page] else [];
      if page !in byPage {
        order := order + [page];
      }
      byPage := byPage[page := group + [es[i]]];
      forall p | p in byPage
        ensures byPage[p] == OnPage(es[..i + 1], p)
      {
        OnPageSnoc(es, i, p);
      }
    }
    assert es[..|es|] == es;
  }

  /** `Node.bbox`: the grouping loop, then one box per page in key order. */
  method ComputeBboxes(n: Node) returns (boxes: seq<Bbox>)
    ensures boxes == n.Bboxes()
  {
    var byPage, order := GroupByPage(n.elements);
    ghost var target := n.Bboxes();
    boxes := [];
    for j := 0 to |order|
      invariant boxes == target[..j]
    {
      var page := order[j];
      assert page in order;
      var group := byPage[page];
      assert |group| > 0;
      var x0 := MinReal(X0s(group));
      var y0 := MinReal(Y0s(group));
      var x1 := MaxReal(X1s(group));
      var y1 := MaxReal(Y1s(group));
      var box := Bbox(page, group[0].bbox.pageHeight, group[0].bbox.pageWidth, x0, y0, x1, y1);
      assert box == target[j];
      assert target[..j + 1] == target[..j] + [target[j]];
      boxes := boxes + [box];
    }
    assert target[..|order|] == target;
  }

  /** `Join` of a sequence with one more piece. */
  lemma JoinSnoc(pieces: seq<string>, x: string)
    ensures Join(pieces + [x]) == Join(pieces) + x
  {
    assert (pieces + [x])[..|pieces|] == pieces;
  }

  /** `Node.text`: sort into reading order, collect the pieces in a list,
      and join them. */
  method ComputeText(n: Node) returns (text: string)
    ensures text == n.Text()
  {
    var sorted := SortBy(n.elements, ReadingKey);
    var texts: seq<string> := [];
    for i := 0 to |sorted|
      invariant Join(texts) == Serialize(sorted[..i])
    {
      SerializePrefix(sorted, i);
      if i > 0 && sorted[i].IsAtSimilarHeight(sorted[i - 1], DefaultHeightMargin) {
        JoinSnoc(texts, " " + sorted[i].text);
        Seqs.ConcatAssoc(Join(texts), " ", sorted[i].text);
        texts := texts + [" " + sorted[i].text];
      } else {
        if i > 0 {
          JoinSnoc(texts, BlockSeparator);
          texts := texts + [BlockSeparator];
        }
        JoinSnoc(texts, sorted[i].text);
        texts := texts + [sorted[i].text];
      }
    }
    assert sorted[..|sorted|] == sorted;
    text := Join(texts);
  }

  /** The boxes of `boxes` on page `page`, in order. */
  function BoxesOnPage(boxes: seq<Bbox>, page: int): (r: seq<Bbox>)
    ensures forall b :: b in r <==> b in boxes && b.page == page
  {
    if boxes == [] then []
    else (if boxes[0].page == page then [boxes[0]] else []) + BoxesOnPage(boxes[1..], page)
  }

  /** `Node.overlaps`: compute both nodes' boxes, then search them. */
  method ComputeOverlaps(n: Node, other: Node, xMargin: real, yMargin: real) returns (r: bool)
    ensures r == n.Overlaps(other, xMargin, yMargin)
  {
    var mine := ComputeBboxes(n);
    var theirs := ComputeBboxes(other);
    r := SearchOverlap(mine, theirs, xMargin, yMargin);
  }

  /** The loops of `Node.overlaps`: for each own box, test the other boxes on
      the same page, returning at the first overlap. */
  method SearchOverlap(mine: seq<Bbox>, theirs: seq<Bbox>, xMargin: real, yMargin: real) returns (r: bool)
    ensures r == BoxListsOverlap(mine, theirs, xMargin, yMargin)
  {
    for i := 0 to |mine|
      invariant forall i', j | 0 <= i' < i && 0 <= j < |theirs| && mine[i'].page == theirs[j].page ::
                  !BoxesOverlap(mine[i'], theirs[j], xMargin, yMargin)
    {
      var bbox := mine[i];
      var candidates := BoxesOnPage(theirs, bbox.page);
      for c := 0 to |candidates|
        invariant forall c' | 0 <= c' < c :: !BoxesOverlap(bbox, candidates[c'], xMargin, yMargin)
      {
        var box := candidates[c];
        var xOverlap := !(bbox.x0 - xMargin > box.x1 + xMargin || box.x0 - xMargin > bbox.x1 + xMargin);
        var yOverlap := !(bbox.y0 - yMargin > box.y1 + yMargin || box.y0 - yMargin > bbox.y1 + yMargin);
        assert xOverlap && yOverlap <==> BoxesOverlap(bbox, box, xMargin, yMargin);
        if xOverlap && yOverlap {
          assert box in theirs;
          var j :| 0 <= j < |theirs| && theirs[j] == box;
          return true;
        }
      }
      forall j | 0 <= j < |theirs| && bbox.page == theirs[j].page
        ensures !BoxesOverlap(bbox, theirs[j], xMargin, yMargin)
      {
        assert theirs[j] in candidates;
      }
    }
    return false;
  }
}
