# open-parse geometric node model in Dafny

This project models the core of open-parse. That core turns page-layout
fragments into "nodes", the reading units that a document is chunked into.
It covers these parts:

- **`Bbox`** (`Geometry`): a rectangle on one page that carries that page's dimensions.
  - Construction goes through the two validators.
  - `combine` merges two boxes on the same page and fails across pages.
- **`TextSpan`** (`Spans`): styled text.
  - `formatted_text` adds `*`/`**` markers only where the bold or italic style starts or ends.
- **Markdown cleanup** (`Markdown`): the five `re.sub` passes of `LineElement._clean_markdown_formatting`.
  - Each pass is a left-to-right scanner that does what the regular expression's non-overlapping, greedy matching does.
  - `CleanMarkdownFormatting` is the loop over the pattern list.
- **`LineElement`** (`Lines`): a line of spans.
  - Its text, built by a loop over the spans.
  - Style votes that ignore a trailing span.
  - Overlap, height similarity on `y0`, and `combine`.
- **`TextElement` / `TableElement`** (`Elements`): a closed sum of the two element kinds.
  - Both have page, area, tokens, and height similarity on `y1`.
  - Only text elements have `overlaps`.
- **`Node`, `FileMetadata` and `ParsedDoc`** (`Nodes`):
  - token sums and size classes;
  - one box per page in the order pages are first seen;
  - page range;
  - reading-order text;
  - overlap between nodes;
  - `aggregate_position` and `combine`.
  - The loops of `bbox`, `text` and `overlaps` are methods, each proved equal to the function that specifies it.
- **Drawing helpers** (`Drawing`), from `src/openparse/pdf.py`:
  - `_flip_coordinates`;
  - `_prepare_bboxes_for_drawing`, which consumes the caller's annotation list in place (the class `AnnotationList`).
- **Python's `sorted`** (`Sorting`): a stable insertion sort on a lexicographic `(int, real, real)` key.
  - It is proved sorted, a permutation, and stable.

`consts.ELEMENT_DELIMETER` is `"<br><br>"`, but `Node.text` writes the literal
`"<br>"` (src/schemas.py:407); the model follows the code (`BlockSeparator`).

## Model

| member | source | states |
|---|---|---|
| Geometry.MakeBbox | src/schemas.py:50-62 | a box can be built exactly when x1 > x0 and y1 > y0; otherwise the error is `DegenerateRect` |
| Geometry.Bbox.Combine | src/schemas.py:64-75 | fails with `PageMismatch` across pages; for valid boxes on one page the result is valid, contains both boxes, keeps the receiver's page size, and lies inside every box that contains both |
| Geometry.ValidAreaPositive | src/schemas.py:46-62 | every box that passes the validators has a positive area |
| Geometry.CombineCommutesOnCoordinates | src/schemas.py:64-75 | `a.combine(b)` and `b.combine(a)` succeed together and agree on page and coordinates |
| Spans.TextSpan.IsHeading | src/schemas.py:91-95 | size at least 16 and bold; how the line-level vote uses it is stated by `Lines.HeadingVotes` |
| Spans.TextSpan.FormattedText | src/schemas.py:97-117 | the text is wrapped with the italic marker outermost: `*` then `**` where a style starts, `**` then `*` where it ends |
| Spans.PlainSpanUnformatted | src/schemas.py:97-117 | a span that is neither bold nor italic is formatted as its bare text, whatever its neighbours |
| Spans.LoneBoldItalicSpan | src/schemas.py:97-117 | a lone bold italic span becomes `***text***` |
| Markdown.StripAfterDouble | src/schemas.py:181-184 | pass 1 never lengthens the text and keeps its first character |
| Markdown.StripBeforeDouble | src/schemas.py:185-188 | pass 2 never lengthens the text |
| Markdown.StripAfterMark | src/schemas.py:189 | pass 3 never lengthens the text and keeps its first character |
| Markdown.StripBeforeMark | src/schemas.py:190 | pass 4 never lengthens the text |
| Markdown.SeparateDoubles | src/schemas.py:191-194 | pass 5 never shortens the text and keeps its first two characters |
| Markdown.Cleanup | src/schemas.py:174-201 | the five passes composed in list order; it keeps all non-whitespace (`CleanupKeepsText`), leaves no whitespace next to a marker (`StripMarkerSpacesUnpads`) and is idempotent (`CleanupIdempotent`) |
| Markdown.CleanMarkdownFormatting | src/schemas.py:174-201 | the loop over the pattern list gives `Cleanup`, the five passes composed in list order |
| Markdown.AllPasses | src/schemas.py:197-199 | applying the patterns one by one in list order is `Cleanup` |
| Markdown.StripAfterDoubleDeletesSpaces | src/schemas.py:181-184 | pass 1 only deletes whitespace |
| Markdown.StripBeforeDoubleDeletesSpaces | src/schemas.py:185-188 | pass 2 only deletes whitespace |
| Markdown.StripAfterMarkDeletesSpaces | src/schemas.py:189 | pass 3 only deletes whitespace |
| Markdown.StripBeforeMarkDeletesSpaces | src/schemas.py:190 | pass 4 only deletes whitespace |
| Markdown.SeparateDoublesInsertsSpaces | src/schemas.py:191-194 | deleting the spaces that pass 5 inserts gives back its input |
| Markdown.StripMarkerSpacesDeletesSpaces | src/schemas.py:181-190 | passes 1 to 4 together only delete whitespace |
| Markdown.CleanupKeepsText | src/schemas.py:174-201 | the cleanup changes no character other than whitespace |
| Markdown.NoMarksUnchangedByPasses | src/schemas.py:180-195 | no pattern matches a text without `*` and `_` |
| Markdown.CleanupWithoutMarks | src/schemas.py:174-201 | a text without `*` and `_` comes out of the cleanup unchanged |
| Markdown.StripAfterMarkUnpadsAfter | src/schemas.py:189 | after pass 3 no whitespace follows a marker |
| Markdown.StripBeforeMarkKeepsUnpaddedAfter | src/schemas.py:190 | pass 4 adds no whitespace after a marker |
| Markdown.StripBeforeMarkUnpadsBefore | src/schemas.py:190 | after pass 4 no whitespace precedes a marker |
| Markdown.StripMarkerSpacesUnpads | src/schemas.py:176-190 | after passes 1 to 4 no whitespace is next to a `*` or `_`, which is the docstring's promise |
| Markdown.UnpaddedUnchanged | src/schemas.py:185-190 | passes 2 to 4 leave a text with no whitespace next to a marker unchanged |
| Markdown.StripBeforeDoubleUnpadded | src/schemas.py:185-188 | pass 2 leaves such a text unchanged |
| Markdown.StripAfterMarkUnpadded | src/schemas.py:189 | pass 3 leaves such a text unchanged |
| Markdown.StripBeforeMarkUnpadded | src/schemas.py:190 | pass 4 leaves such a text unchanged |
| Markdown.StripAfterDoubleUndoesSeparate | src/schemas.py:181-194 | on a text with no whitespace after a marker, pass 1 removes exactly the spaces that pass 5 inserted |
| Markdown.CleanupIdempotent | src/schemas.py:174-201 | cleaning an already cleaned text changes nothing |
| Lines.LineElement.Text | src/schemas.py:133-149 | the cleaned concatenation of the formatted spans, or `""` without spans; computed by `LineText`, with properties in `LineTextClean`, `EmptyLineText` and `BoldRunJoined` |
| Lines.LineElement.IsBold | src/schemas.py:151-157 | all voting spans are bold (`StyleVotes`, `LastSpanIgnored`) |
| Lines.LineElement.IsItalic | src/schemas.py:159-164 | all voting spans are italic (`StyleVotes`, `LastSpanIgnored`) |
| Lines.LineElement.IsHeading | src/schemas.py:166-172 | all voting spans are at least size 16 and bold (`HeadingVotes`, `LastSpanIgnored`) |
| Lines.LineElement.Overlaps | src/schemas.py:203-214 | separating-axis test on both axes widened by the margin (`OverlapsSymmetric`, `OverlapsMonotone`) |
| Lines.LineElement.IsAtSimilarHeight | src/schemas.py:216-221 | the `y0` values differ by at most the margin (`SimilarHeightSymmetric`) |
| Lines.LineText | src/schemas.py:133-149 | the loop over the spans, each formatted against its neighbours, then cleaned, gives `LineElement.Text` |
| Lines.LineElement.Combine | src/schemas.py:223-235 | the spans of both lines in argument order, no style, and the smallest box enclosing both boxes |
| Lines.BoldSpanFormatted | src/schemas.py:97-117 | in an all-bold, non-italic run only the first span opens `**` and only the last closes it |
| Lines.BoldRunJoined | src/schemas.py:142-146 | such a run joins to `**` + the bare texts + `**` |
| Lines.LineTextClean | src/schemas.py:139-149 | a line's text is a fixed point of the cleanup and has the non-whitespace characters of its formatted spans |
| Lines.EmptyLineText | src/schemas.py:139-140 | a line without spans has empty text |
| Lines.LastSpanIgnored | src/schemas.py:151-172 | with two or more spans, replacing the last span changes none of the style votes |
| Lines.StyleVotes | src/schemas.py:151-172 | bold and italic are conjunctions over the voting spans, which are all spans but the last, or the only one; a heading line is bold |
| Lines.HeadingVotes | src/schemas.py:166-172 | a line is a heading exactly when every voting span is a heading span (`TextSpan.is_heading`); a one-span line is a heading exactly when its span is |
| Lines.OverlapsSymmetric | src/schemas.py:203-214 | line overlap is symmetric |
| Lines.OverlapsMonotone | src/schemas.py:203-214 | widening the margin keeps an overlap |
| Lines.SimilarHeightSymmetric | src/schemas.py:216-221 | height similarity of lines (on `y0`) is symmetric |
| Elements.Element.Tokens | src/schemas.py:253-255 | the tokenizer applied to the element's text; summed by `Nodes.SumTokensAppend` and `Nodes.CombineTokens` |
| Elements.Element.IsAtSimilarHeight | src/schemas.py:246-251 | the `y1` values differ by at most the margin, for both element kinds (`SimilarHeightSymmetric`) |
| Elements.Element.Overlaps | src/schemas.py:265-282 | false across pages, else the separating-axis test with x and y margins (`TextOverlapsProperties`) |
| Elements.ElementAreaPositive | src/schemas.py:261-263 | an element whose box is valid has a positive area |
| Elements.BoxesOverlapSymmetric | src/schemas.py:273-282 | the separating-axis test is symmetric |
| Elements.BoxesOverlapMonotone | src/schemas.py:273-282 | larger margins keep an overlap |
| Elements.TextOverlapsProperties | src/schemas.py:265-282 | text-element overlap is symmetric, false across pages, and monotone in both margins |
| Elements.SimilarHeightSymmetric | src/schemas.py:246-251 | height similarity of elements (on `y1`) is symmetric |
| Sorting.SortBySorted | src/schemas.py:395-397 | the sorted sequence is ordered by the key tuple |
| Sorting.SortByPermutes | src/schemas.py:395-397 | sorting is a permutation |
| Sorting.SortByStable | src/openparse/pdf.py:49 | sorting is stable: elements with equal keys keep their order |
| Nodes.Node.Tokens | src/schemas.py:336-338 | the sum of the elements' tokens (`SumTokensAppend`, `CombineTokens`) |
| Nodes.Node.IsStub | src/schemas.py:340-342 | fewer than 50 tokens (`SizeClasses`, `CombineTokens`) |
| Nodes.Node.IsSmall | src/schemas.py:344-346 | fewer than 256 tokens (`SizeClasses`, `CombineTokens`) |
| Nodes.Node.IsLarge | src/schemas.py:348-350 | more than 1024 tokens (`SizeClasses`, `CombineTokens`) |
| Nodes.Node.NumPages | src/schemas.py:381-383 | the number of distinct pages, equal to the number of boxes (`BboxCount`) |
| Nodes.Node.StartPage | src/schemas.py:385-387 | the smallest page of an element (`PageRange`) |
| Nodes.Node.EndPage | src/schemas.py:389-391 | the largest page of an element (`PageRange`) |
| Nodes.Node.Text | src/schemas.py:393-409 | the serialization of the reading order; computed by `ComputeText`, with properties in `TextProperties` and `ReadingOrderProperties` |
| Nodes.Node.Overlaps | src/schemas.py:411-434 | some pair of same-page boxes of the two nodes overlaps; computed by `ComputeOverlaps`, with properties in `NodeOverlapsSymmetric`, `NodeOverlapsMonotone` and `DisjointPagesNoOverlap` |
| Nodes.SumTokensAppend | src/schemas.py:336-338 | the token sum distributes over concatenation |
| Nodes.CombineTokens | src/schemas.py:336-350 | a combined node, whose elements are those of both nodes in argument order (`Node.Combine`), has the sum of the tokens; it is large if either part is, and stub or small only if both parts are |
| Nodes.SizeClasses | src/schemas.py:340-350 | a stub is small, a large node is not small, and an empty node is a stub with zero tokens |
| Nodes.Pages | src/schemas.py:354-360 | the pages of the elements, each once |
| Nodes.OnPage | src/schemas.py:354-356 | the elements on one page: exactly those of the node on that page, non-empty when the page occurs |
| Nodes.MinReal | src/schemas.py:361-362 | Python's `min`: a lower bound that some element attains |
| Nodes.MaxReal | src/schemas.py:363-364 | Python's `max`: an upper bound that some element attains |
| Nodes.MinInt | src/schemas.py:386-387 | `min` over pages: a lower bound that is attained |
| Nodes.MaxInt | src/schemas.py:390-391 | `max` over pages: an upper bound that is attained |
| Nodes.Node.Bboxes | src/schemas.py:352-379 | one box per distinct page |
| Nodes.BboxCount | src/schemas.py:381-383 | the number of boxes is `num_pages` |
| Nodes.OnPageFirst | src/schemas.py:365-366 | the first element of a page group is the first element of the node on that page |
| Nodes.PagesFirstSeenOrder | src/schemas.py:354-360 | pages come in the order in which they first appear among the elements |
| Nodes.PageBoxProperties | src/schemas.py:360-377 | a page's box is the smallest box on that page containing every element on it, has the page size of the first element on it, and is valid when the elements are |
| Nodes.GroupBoxEncloses | src/schemas.py:361-364 | the min/max box of a group contains each element of the group |
| Nodes.GroupBoxSmallest | src/schemas.py:361-364 | the min/max box of a group lies inside every box on its page that contains all members |
| Nodes.GroupBoxValid | src/schemas.py:361-377 | the min/max box of valid boxes is valid |
| Nodes.BboxAt | src/schemas.py:352-379 | box `i` is on the `i`-th page first seen and is the smallest box on that page containing every element on it; it has that page's size from its first element, and is valid when the elements are |
| Nodes.BboxesCover | src/schemas.py:352-379 | no two boxes share a page, and every element lies inside one of the boxes |
| Nodes.FirstBboxPage | src/schemas.py:354-360 | the first box is on the first element's page |
| Nodes.PageRange | src/schemas.py:385-391 | start page <= end page; both are pages of the node, and every element's page lies between them |
| Nodes.Node.AggregatePos | src/schemas.py:436-445 | `(min_page, min_y0, min_x0)`: the minimum page is `start_page`, and each component is a lower bound that some element attains |
| Nodes.ReadingOrderProperties | src/schemas.py:395-397 | the reading order is sorted by `(page, -y1, x0)`, is a permutation of the elements, and keeps tied elements in order |
| Nodes.SerializeSnoc | src/schemas.py:399-409 | appending an element appends its separator and its text |
| Nodes.SerializeAppend | src/schemas.py:399-409 | joining two runs puts one separator, chosen by the elements at the seam, between their texts |
| Nodes.SerializePrefix | src/schemas.py:399-409 | the text of a prefix extends by one separator and one text per element |
| Nodes.SerializeContains | src/schemas.py:399-409 | every element's text occurs in the joined text |
| Nodes.TextProperties | src/schemas.py:393-409 | an empty node has empty text, one element gives its own text, and every element's text occurs in the node's text |
| Nodes.JoinSnoc | src/schemas.py:409 | `"".join` of a list extended by one piece is the old join followed by the piece |
| Nodes.ComputeText | src/schemas.py:393-409 | the loop over the sorted elements gives `Node.Text` |
| Nodes.OnPageSnoc | src/schemas.py:355-356 | appending an element extends only its page's group |
| Nodes.OnPageAbsent | src/schemas.py:354-356 | a page that does not occur has no group |
| Nodes.GroupByPage | src/schemas.py:354-356 | the `defaultdict` holds a key exactly for each page, in first-seen order, with that page's elements in node order |
| Nodes.ComputeBboxes | src/schemas.py:352-379 | the loops build `Node.Bboxes` |
| Nodes.BoxesOnPage | src/schemas.py:416-418 | the comprehension keeps exactly the other node's boxes on the current page |
| Nodes.SearchOverlap | src/schemas.py:414-434 | the nested loop with early return is true exactly when some same-page pair of boxes overlaps |
| Nodes.ComputeOverlaps | src/schemas.py:411-434 | the method gives `Node.Overlaps` |
| Nodes.BoxListsOverlapSymmetric | src/schemas.py:411-434 | overlap of box lists is symmetric |
| Nodes.NodeOverlapsSymmetric | src/schemas.py:411-434 | node overlap is symmetric |
| Nodes.BoxListsOverlapMonotone | src/schemas.py:411-434 | larger margins keep an overlap of box lists |
| Nodes.NodeOverlapsMonotone | src/schemas.py:411-434 | larger margins keep a node overlap |
| Nodes.DisjointPagesNoOverlap | src/schemas.py:411-434 | nodes on disjoint pages never overlap |
| Drawing.FlipCoordinates | src/openparse/pdf.py:199-210 | the box mirrored vertically within its page (`FlipProperties`, `FlipInvolution`, `FlipPreservesSize`) |
| Drawing.FlipProperties | src/openparse/pdf.py:199-210 | page, page size and x-range are kept; the y-range is mirrored in the page height; the result is valid exactly when the input is |
| Drawing.FlipInvolution | src/openparse/pdf.py:199-210 | flipping twice gives the original box |
| Drawing.FlipPreservesSize | src/openparse/pdf.py:199-210 | flipping keeps width, height and area |
| Drawing.AnnotationList.PopFront | src/openparse/pdf.py:39 | `pop(0)` returns the first annotation and removes it from the list |
| Drawing.LabelledSnoc | src/openparse/pdf.py:50-59 | each box of a list adds one entry, annotated with the entry's text for the first box and `"continued ..."` afterwards |
| Drawing.EmitEntry | src/openparse/pdf.py:40-59 | the loop body gives `EntryOutput`: a single box as it is, or a list's boxes sorted by page with the annotations relabelled |
| Drawing.PrepareBboxesForDrawing | src/openparse/pdf.py:29-60 | on a count mismatch the call fails and leaves the list untouched; otherwise it returns `Prepared` for all entries and empties a non-empty list; without annotations it returns `Prepared` with no annotations |
| Drawing.PreparedLength | src/openparse/pdf.py:37-60 | there is one output per single box and per box of a list |
| Drawing.PreparedPrefix | src/openparse/pdf.py:37-60 | entries are emitted in input order: the output for a prefix of the entries is a prefix of the output |
| Drawing.PreparedStep | src/openparse/pdf.py:37-60 | processing one more entry only appends |
| Drawing.EntryBlock | src/openparse/pdf.py:37-60 | entry `i` contributes one contiguous block, right after the blocks of the entries before it |
| Drawing.ListEntryOutput | src/openparse/pdf.py:48-59 | a list entry's block is sorted by page, is a stable permutation of its boxes, and is all in one colour; the first box carries the annotation and the rest `"continued ..."` |

## Left out

- The `Pdf` class (src/openparse/pdf.py:63-197) is not part of this model. It reads and writes PDF files, converts pages to images, and draws with pypdf and pdfminer, which is I/O.
- `_random_color` becomes the parameter `palette: nat -> Color`. Randomness is not modelled. Entry `i` is drawn in `palette(i)`.
- `num_tokens` (src/utils) is not part of this model. It is the parameter `tokenizer: string -> nat`.
- `Node.display` is left out. It is output to IPython or stdout.
- The pydantic machinery is not modelled: `BaseModel`, `frozen`, `computed_field` and `@cache`. The model's values are immutable datatypes, and caching is not observable.
- `LineElement.round_bbox_vals` is treated as the identity: coordinates are exact reals. Floating-point rounding, overflow and NaN are not modelled.
- `PrevNodeSimilarity`, `NodeVariant.IMAGE` and the `variant` fields are left out. They carry no behaviour in the core; the element kind is the datatype constructor.
- The private attributes `_tokenization_lower_limit` and `_tokenization_upper_limit` are the constants 256 and 1024. These are their defaults from `consts`, and nothing in the core changes them.
- `consts.ELEMENT_DELIMETER` is not used by the code modelled.
- `_prepare_bboxes_for_drawing` skips an element that is neither a `Bbox` nor a `list`. The model's `DrawEntry` type has only those two cases, so it has no such element.
- The annotation `assert` is modelled as the error result `AnnotationCountMismatch`. The model follows the source with assertions enabled. Under `python -O` a mismatch does not fail: annotations are popped until the list is empty, later entries get `None`, and extra annotations stay in the caller's list. That behaviour is not modelled.
- `Bbox.combine` reports a degenerate result through `MakeBbox`. For valid inputs that case cannot arise, and the `ValueError` messages are not modelled.
- Nodes.Node.StartPage, Nodes.Node.EndPage, Nodes.Node.AggregatePos and Nodes.PageRange require a node with at least one element. On an empty node the source's `min`/`max` raise `ValueError` (src/schemas.py:387, 391, 442-444); the model does not describe that case.
- The default margins are not modelled: 0.0 for `LineElement.overlaps` and `is_at_similar_height`, `TextElement.overlaps` and `Node.overlaps`. Every margin is an explicit argument. The default of 1 in the elements' `is_at_similar_height` is the constant `DefaultHeightMargin`, which `Node.text` uses.
