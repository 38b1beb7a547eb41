/** The markdown cleanup of `LineElement._clean_markdown_formatting`
    (src/schemas.py:174-201): five `re.sub` passes applied in order. Each pass
    is written as a left-to-right scanner that, like `re.sub`, replaces the
    leftmost match, resumes after it, and lets `\s+` take the whole run of
    whitespace. */
module Markdown {

  /** Python's `\s` on `str` patterns: the characters for which
      `str.isspace()` holds. */
  predicate IsSpace(c: char) {
    || ('\t' <= c <= '\r')
    || ('\U{1c}' <= c <= '\U{1f}')
    || c == ' ' || c == '\U{85}' || c == '\U{a0}' || c == '\U{1680}'
    || ('\U{2000}' <= c <= '\U{200a}')
    || c == '\U{2028}' || c == '\U{2029}' || c == '\U{202f}' || c == '\U{205f}'
    || c == '\U{3000}'
  }

  /** A single emphasis marker character, `*` or `_`. */
  predicate IsMark(c: char) {
    c == '*' || c == '_'
  }

  /** `s` starts with `**` or `__`. */
  predicate StartsDouble(s: string) {
    |s| >= 2 && ((s[0] == '*' && s[1] == '*') || (s[0] == '_' && s[1] == '_'))
  }

  predicate StartsMark(s: string) {
    |s| >= 1 && IsMark(s[0])
  }

  /** Length of the whitespace run that `s` starts with. */
  function SpaceRun(s: string): (n: nat)
    ensures n <= |s|
    ensures forall i | 0 <= i < n :: IsSpace(s[i])
    ensures n < |s| ==> !IsSpace(s[n])
  {
    if |s| == 0 || !IsSpace(s[0]) then 0 else 1 + SpaceRun(s[1..])
  }

  /** What is left of `s` once a greedy `\s+` (or `\s*`) has consumed its prefix. */
  function SkipSpaces(s: string): string {
    s[SpaceRun(s)..]
  }

  // ---------------------------------------------------------------------
  // The five passes
  // ---------------------------------------------------------------------

  /** Pass 1: `(\*\*|__)\s+` -> `\1`. */
  function StripAfterDouble(s: string): (r: string)
    ensures |r| <= |s|
    ensures |s| > 0 ==> |r| > 0 && r[0] == s[0]
    decreases |s|
  {
    if |s| == 0 then ""
    else if |s| >= 3 && StartsDouble(s) && IsSpace(s[2]) then
      s[..2] + StripAfterDouble(SkipSpaces(s[2..]))
    else [s[0]] + StripAfterDouble(s[1..])
  }

  /** Pass 2: `\s+(\*\*|__)` -> `\1`. */
  function StripBeforeDouble(s: string): (r: string)
    ensures |r| <= |s|
    decreases |s|
  {
    if |s| == 0 then ""
    else if IsSpace(s[0]) && StartsDouble(SkipSpaces(s)) then
      var t := SkipSpaces(s);
      t[..2] + StripBeforeDouble(t[2..])
    else [s[0]] + StripBeforeDouble(s[1..])
  }

  /** Pass 3: `(\*|_)\s+` -> `\1`. */
  function StripAfterMark(s: string): (r: string)
    ensures |r| <= |s|
    ensures |s| > 0 ==> |r| > 0 && r[0] == s[0]
    decreases |s|
  {
    if |s| == 0 then ""
    else if |s| >= 2 && IsMark(s[0]) && IsSpace(s[1]) then
      [s[0]] + StripAfterMark(SkipSpaces(s[1..]))
    else [s[0]] + StripAfterMark(s[1..])
  }

  /** Pass 4: `\s+(\*|_)` -> `\1`. The first character of the result is the
      marker that ends a leading whitespace run, or else the first character. */
  function StripBeforeMark(s: string): (r: string)
    ensures |r| <= |s|
    ensures |s| > 0 ==>
              && |r| > 0
              && r[0] == (if IsSpace(s[0]) && StartsMark(SkipSpaces(s)) then SkipSpaces(s)[0] else s[0])
    decreases |s|
  {
    if |s| == 0 then ""
    else if IsSpace(s[0]) && StartsMark(SkipSpaces(s)) then
      var t := SkipSpaces(s);
      [t[0]] + StripBeforeMark(t[1..])
    else [s[0]] + StripBeforeMark(s[1..])
  }

  /** Pass 5: `(\*\*|__)(\*\*|__)` -> `\1 \2`. */
  function SeparateDoubles(s: string): (r: string)
    ensures |r| >= |s|
    ensures |s| >= 1 ==> r[0] == s[0]
    ensures |s| >= 2 ==> r[1] == s[1]
    decreases |s|
  {
    if |s| == 0 then ""
    else if |s| >= 4 && StartsDouble(s) && StartsDouble(s[2..]) then
      s[..2] + " " + s[2..4] + SeparateDoubles(s[4..])
    else [s[0]] + SeparateDoubles(s[1..])
  }

  /** Passes 1 to 4: the whitespace-stripping part of the cleanup. */
  function StripMarkerSpaces(s: string): string {
    StripBeforeMark(StripAfterMark(StripBeforeDouble(StripAfterDouble(s))))
  }

  /** `_clean_markdown_formatting`: the five passes in their order. */
  function Cleanup(s: string): string {
    SeparateDoubles(StripMarkerSpaces(s))
  }

  /** The `k`-th entry of the pattern list, applied with `re.sub`. */
  function Pass(k: nat, s: string): string
    requires k < PassCount
  {
    match k
    case 0 => StripAfterDouble(s)
    case 1 => StripBeforeDouble(s)
    case 2 => StripAfterMark(s)
    case 3 => StripBeforeMark(s)
    case 4 => SeparateDoubles(s)
  }

  const PassCount: nat := 5

  /** The result of the first `k` passes. */
  function PassesUpTo(k: nat, s: string): string
    requires k <= PassCount
  {
    if k == 0 then s else Pass(k - 1, PassesUpTo(k - 1, s))
  }

  /** `_clean_markdown_formatting`: reassign the text once per pattern. */
  method CleanMarkdownFormatting(text: string) returns (cleaned: string)
    ensures cleaned == Cleanup(text)
  {
    cleaned := text;
    for k := 0 to PassCount
      invariant cleaned == PassesUpTo(k, text)
    {
      cleaned := Pass(k, cleaned);
    }
    AllPasses(text);
  }

  /** Running every pass in list order is `Cleanup`. */
  lemma AllPasses(s: string)
    ensures PassesUpTo(PassCount, s) == Cleanup(s)
  {
    var p1 := StripAfterDouble(s);
    var p2 := StripBeforeDouble(p1);
    var p3 := StripAfterMark(p2);
    assert PassesUpTo(1, s) == p1;
    assert PassesUpTo(2, s) == p2;
    assert PassesUpTo(3, s) == p3;
    assert PassesUpTo(4, s) == StripMarkerSpaces(s);
  }

  // ---------------------------------------------------------------------
  // Whitespace deletion
  // ---------------------------------------------------------------------

  /** `t` is `s` with some whitespace characters deleted and nothing else changed. */
  predicate SpacesDeleted(s: string, t: string)
    decreases |s|
  {
    if |s| == 0 then |t| == 0
    else if |t| > 0 && t[0] == s[0] && SpacesDeleted(s[1..], t[1..]) then true
    else IsSpace(s[0]) && SpacesDeleted(s[1..], t)
  }

  /** `s` with all whitespace removed. */
  function RemoveSpaces(s: string): (r: string)
    ensures forall i | 0 <= i < |r| :: !IsSpace(r[i])
  {
    if |s| == 0 then ""
    else (if IsSpace(s[0]) then "" else [s[0]]) + RemoveSpaces(s[1..])
  }

  lemma {:induction false} SpacesDeletedRefl(s: string)
    ensures SpacesDeleted(s, s)
    decreases |s|
  {
    if |s| > 0 {
      SpacesDeletedRefl(s[1..]);
    }
  }

  lemma {:induction false} SpacesDeletedPrefix(p: string, s: string, t: string)
    requires SpacesDeleted(s, t)
    ensures SpacesDeleted(p + s, p + t)
    decreases |p|
  {
    if |p| > 0 {
      SpacesDeletedPrefix(p[1..], s, t);
      assert (p + s)[1..] == p[1..] + s;
      assert (p + t)[1..] == p[1..] + t;
      assert (p + t)[0] == (p + s)[0] && SpacesDeleted((p + s)[1..], (p + t)[1..]);
    } else {
      assert p + s == s && p + t == t;
    }
  }

  lemma {:induction false} SpacesDeletedSkip(s: string, t: string)
    requires SpacesDeleted(SkipSpaces(s), t)
    ensures SpacesDeleted(s, t)
    decreases |s|
  {
    if SpaceRun(s) > 0 {
      assert SkipSpaces(s) == SkipSpaces(s[1..]);
      SpacesDeletedSkip(s[1..], t);
    }
  }

  /** Deleting whitespace twice is deleting whitespace. */
  lemma {:induction false} SpacesDeletedTrans(a: string, b: string, c: string)
    requires SpacesDeleted(a, b) && SpacesDeleted(b, c)
    ensures SpacesDeleted(a, c)
    decreases |a|
  {
    if |a| == 0 {
    } else if |b| > 0 && b[0] == a[0] && SpacesDeleted(a[1..], b[1..]) {
      if |c| > 0 && c[0] == b[0] && SpacesDeleted(b[1..], c[1..]) {
        SpacesDeletedTrans(a[1..], b[1..], c[1..]);
      } else {
        SpacesDeletedTrans(a[1..], b[1..], c);
      }
    } else {
      SpacesDeletedTrans(a[1..], b, c);
    }
  }

  /** Deleting whitespace leaves the non-whitespace characters as they were. */
  lemma {:induction false} SpacesDeletedKeepsText(s: string, t: string)
    requires SpacesDeleted(s, t)
    ensures RemoveSpaces(s) == RemoveSpaces(t)
    decreases |s|
  {
    if |s| == 0 {
    } else if |t| > 0 && t[0] == s[0] && SpacesDeleted(s[1..], t[1..]) {
      SpacesDeletedKeepsText(s[1..], t[1..]);
    } else {
      SpacesDeletedKeepsText(s[1..], t);
    }
  }

  lemma {:induction false} StripAfterDoubleDeletesSpaces(s: string)
    ensures SpacesDeleted(s, StripAfterDouble(s))
    decreases |s|
  {
    if |s| == 0 {
    } else if |s| >= 3 && StartsDouble(s) && IsSpace(s[2]) {
      var t := SkipSpaces(s[2..]);
      StripAfterDoubleDeletesSpaces(t);
      SpacesDeletedSkip(s[2..], StripAfterDouble(t));
      SpacesDeletedPrefix(s[..2], s[2..], StripAfterDouble(t));
      assert s[..2] + s[2..] == s;
    } else {
      StripAfterDoubleDeletesSpaces(s[1..]);
      SpacesDeletedPrefix([s[0]], s[1..], StripAfterDouble(s[1..]));
      assert [s[0]] + s[1..] == s;
    }
  }

  lemma {:induction false} StripBeforeDoubleDeletesSpaces(s: string)
    ensures SpacesDeleted(s, StripBeforeDouble(s))
    decreases |s|
  {
    if |s| == 0 {
    } else if IsSpace(s[0]) && StartsDouble(SkipSpaces(s)) {
      var t := SkipSpaces(s);
      StripBeforeDoubleDeletesSpaces(t[2..]);
      SpacesDeletedPrefix(t[..2], t[2..], StripBeforeDouble(t[2..]));
      assert t[..2] + t[2..] == t;
      SpacesDeletedSkip(s, t[..2] + StripBeforeDouble(t[2..]));
    } else {
      StripBeforeDoubleDeletesSpaces(s[1..]);
      SpacesDeletedPrefix([s[0]], s[1..], StripBeforeDouble(s[1..]));
      assert [s[0]] + s[1..] == s;
    }
  }

  lemma {:induction false} StripAfterMarkDeletesSpaces(s: string)
    ensures SpacesDeleted(s, StripAfterMark(s))
    decreases |s|
  {
    if |s| == 0 {
    } else if |s| >= 2 && IsMark(s[0]) && IsSpace(s[1]) {
      var t := SkipSpaces(s[1..]);
      StripAfterMarkDeletesSpaces(t);
      SpacesDeletedSkip(s[1..], StripAfterMark(t));
      SpacesDeletedPrefix([s[0]], s[1..], StripAfterMark(t));
      assert [s[0]] + s[1..] == s;
    } else {
      StripAfterMarkDeletesSpaces(s[1..]);
      SpacesDeletedPrefix([s[0]], s[1..], StripAfterMark(s[1..]));
      assert [s[0]] + s[1..] == s;
    }
  }

  lemma {:induction false} StripBeforeMarkDeletesSpaces(s: string)
    ensures SpacesDeleted(s, StripBeforeMark(s))
    decreases |s|
  {
    if |s| == 0 {
    } else if IsSpace(s[0]) && StartsMark(SkipSpaces(s)) {
      var t := SkipSpaces(s);
      StripBeforeMarkDeletesSpaces(t[1..]);
      SpacesDeletedPrefix([t[0]], t[1..], StripBeforeMark(t[1..]));
      assert [t[0]] + t[1..] == t;
      SpacesDeletedSkip(s, [t[0]] + StripBeforeMark(t[1..]));
    } else {
      StripBeforeMarkDeletesSpaces(s[1..]);
      SpacesDeletedPrefix([s[0]], s[1..], StripBeforeMark(s[1..]));
      assert [s[0]] + s[1..] == s;
    }
  }

  /** Pass 5 only inserts single spaces: deleting them gives back its input. */
  lemma {:induction false} SeparateDoublesInsertsSpaces(s: string)
    ensures SpacesDeleted(SeparateDoubles(s), s)
    decreases |s|
  {
    if |s| == 0 {
    } else if |s| >= 4 && StartsDouble(s) && StartsDouble(s[2..]) {
      var rest := SeparateDoubles(s[4..]);
      SeparateDoublesInsertsSpaces(s[4..]);
      SpacesDeletedPrefix(s[2..4], rest, s[4..]);
      var u, v := s[2..4] + rest, s[2..4] + s[4..];
      assert ([' '] + u)[1..] == u;
      assert SpacesDeleted([' '] + u, v);
      SpacesDeletedPrefix(s[..2], [' '] + u, v);
      assert s[..2] + " " + s[2..4] + rest == s[..2] + ([' '] + u);
      assert s[..2] + v == s;
    } else {
      SeparateDoublesInsertsSpaces(s[1..]);
      SpacesDeletedPrefix([s[0]], SeparateDoubles(s[1..]), s[1..]);
      assert [s[0]] + s[1..] == s;
    }
  }

  /** Passes 1 to 4 together only delete whitespace. */
  lemma StripMarkerSpacesDeletesSpaces(s: string)
    ensures SpacesDeleted(s, StripMarkerSpaces(s))
  {
    var s1 := StripAfterDouble(s);
    var s2 := StripBeforeDouble(s1);
    var s3 := StripAfterMark(s2);
    StripAfterDoubleDeletesSpaces(s);
    StripBeforeDoubleDeletesSpaces(s1);
    StripAfterMarkDeletesSpaces(s2);
    StripBeforeMarkDeletesSpaces(s3);
    SpacesDeletedTrans(s, s1, s2);
    SpacesDeletedTrans(s, s2, s3);
    SpacesDeletedTrans(s, s3, StripBeforeMark(s3));
  }

  /** The cleanup never changes a non-whitespace character. */
  lemma CleanupKeepsText(s: string)
    ensures RemoveSpaces(Cleanup(s)) == RemoveSpaces(s)
  {
    var m := StripMarkerSpaces(s);
    StripMarkerSpacesDeletesSpaces(s);
    SpacesDeletedKeepsText(s, m);
    SeparateDoublesInsertsSpaces(m);
    SpacesDeletedKeepsText(Cleanup(s), m);
  }

  // ---------------------------------------------------------------------
  // Text without markers is left alone
  // ---------------------------------------------------------------------

  predicate NoMarks(s: string) {
    forall i | 0 <= i < |s| :: !IsMark(s[i])
  }

  /** None of the five patterns can match a string without `*` or `_`. */
  lemma {:induction false} NoMarksUnchangedByPasses(s: string)
    requires NoMarks(s)
    ensures StripAfterDouble(s) == s && StripBeforeDouble(s) == s
    ensures StripAfterMark(s) == s && StripBeforeMark(s) == s
    ensures SeparateDoubles(s) == s
    decreases |s|
  {
    if |s| > 0 {
      var k := SpaceRun(s);
      if k < |s| {
        assert SkipSpaces(s)[0] == s[k];
      }
      assert !StartsDouble(SkipSpaces(s)) && !StartsMark(SkipSpaces(s));
      NoMarksUnchangedByPasses(s[1..]);
      assert [s[0]] + s[1..] == s;
    }
  }

  /** A string with no `*` and no `_` comes out of the cleanup unchanged. */
  lemma CleanupWithoutMarks(s: string)
    requires NoMarks(s)
    ensures Cleanup(s) == s
  {
    NoMarksUnchangedByPasses(s);
  }

  // ---------------------------------------------------------------------
  // After passes 3 and 4 no whitespace touches a marker
  // ---------------------------------------------------------------------

  predicate SpaceAfterMarkAt(s: string, i: int)
    requires 0 < i < |s|
  {
    IsMark(s[i - 1]) && IsSpace(s[i])
  }

  predicate SpaceBeforeMarkAt(s: string, i: int)
    requires 0 < i < |s|
  {
    IsSpace(s[i - 1]) && IsMark(s[i])
  }

  predicate NoSpaceAfterMark(s: string) {
    forall i | 0 < i < |s| :: !SpaceAfterMarkAt(s, i)
  }

  predicate NoSpaceBeforeMark(s: string) {
    forall i | 0 < i < |s| :: !SpaceBeforeMarkAt(s, i)
  }

  /** No whitespace character is immediately next to a `*` or `_`. */
  predicate MarksUnpadded(s: string) {
    NoSpaceAfterMark(s) && NoSpaceBeforeMark(s)
  }

  lemma ConsNoSpaceAfterMark(c: char, u: string)
    requires NoSpaceAfterMark(u)
    requires |u| > 0 ==> !(IsMark(c) && IsSpace(u[0]))
    ensures NoSpaceAfterMark([c] + u)
  {
    var s := [c] + u;
    forall i | 0 < i < |s| ensures !SpaceAfterMarkAt(s, i) {
      if i > 1 {
        assert !SpaceAfterMarkAt(u, i - 1);
      }
    }
  }

  lemma ConsNoSpaceBeforeMark(c: char, u: string)
    requires NoSpaceBeforeMark(u)
    requires |u| > 0 ==> !(IsSpace(c) && IsMark(u[0]))
    ensures NoSpaceBeforeMark([c] + u)
  {
    var s := [c] + u;
    forall i | 0 < i < |s| ensures !SpaceBeforeMarkAt(s, i) {
      if i > 1 {
        assert !SpaceBeforeMarkAt(u, i - 1);
      }
    }
  }

  lemma SuffixUnpadded(s: string, k: nat)
    requires k <= |s|
    ensures NoSpaceAfterMark(s) ==> NoSpaceAfterMark(s[k..])
    ensures NoSpaceBeforeMark(s) ==> NoSpaceBeforeMark(s[k..])
  {
    var t := s[k..];
    if NoSpaceAfterMark(s) {
      forall i | 0 < i < |t| ensures !SpaceAfterMarkAt(t, i) {
        assert !SpaceAfterMarkAt(s, k + i);
      }
    }
    if NoSpaceBeforeMark(s) {
      forall i | 0 < i < |t| ensures !SpaceBeforeMarkAt(t, i) {
        assert !SpaceBeforeMarkAt(s, k + i);
      }
    }
  }

  /** A leading whitespace character belongs to the run that is skipped. */
  lemma SkipSpacesCons(s: string)
    requires |s| > 0 && IsSpace(s[0])
    ensures SkipSpaces(s) == SkipSpaces(s[1..])
  {
    assert s[1..][SpaceRun(s[1..])..] == s[1 + SpaceRun(s[1..])..];
  }

  /** Pass 3 leaves no whitespace right after a marker. */
  lemma {:induction false} StripAfterMarkUnpadsAfter(s: string)
    ensures NoSpaceAfterMark(StripAfterMark(s))
    decreases |s|
  {
    if |s| == 0 {
    } else if |s| >= 2 && IsMark(s[0]) && IsSpace(s[1]) {
      var t := SkipSpaces(s[1..]);
      StripAfterMarkUnpadsAfter(t);
      ConsNoSpaceAfterMark(s[0], StripAfterMark(t));
    } else {
      StripAfterMarkUnpadsAfter(s[1..]);
      ConsNoSpaceAfterMark(s[0], StripAfterMark(s[1..]));
    }
  }

  /** Pass 4 keeps what pass 3 achieved. */
  lemma {:induction false} StripBeforeMarkKeepsUnpaddedAfter(s: string)
    requires NoSpaceAfterMark(s)
    ensures NoSpaceAfterMark(StripBeforeMark(s))
    decreases |s|
  {
    if |s| == 0 {
    } else if IsSpace(s[0]) && StartsMark(SkipSpaces(s)) {
      var k := SpaceRun(s);
      var t := SkipSpaces(s);
      SuffixUnpadded(s, k + 1);
      assert t[1..] == s[k + 1..];
      if |t| >= 2 {
        assert !SpaceAfterMarkAt(s, k + 1);
      }
      StripBeforeMarkKeepsUnpaddedAfter(t[1..]);
      ConsNoSpaceAfterMark(t[0], StripBeforeMark(t[1..]));
    } else {
      SuffixUnpadded(s, 1);
      if |s| >= 2 {
        assert !SpaceAfterMarkAt(s, 1);
      }
      StripBeforeMarkKeepsUnpaddedAfter(s[1..]);
      ConsNoSpaceAfterMark(s[0], StripBeforeMark(s[1..]));
    }
  }

  /** Pass 4 leaves no whitespace right before a marker. */
  lemma {:induction false} StripBeforeMarkUnpadsBefore(s: string)
    ensures NoSpaceBeforeMark(StripBeforeMark(s))
    decreases |s|
  {
    if |s| == 0 {
    } else if IsSpace(s[0]) && StartsMark(SkipSpaces(s)) {
      var t := SkipSpaces(s);
      StripBeforeMarkUnpadsBefore(t[1..]);
      ConsNoSpaceBeforeMark(t[0], StripBeforeMark(t[1..]));
    } else {
      if |s| >= 2 && IsSpace(s[0]) {
        SkipSpacesCons(s);
        if !IsSpace(s[1]) {
          assert SpaceRun(s[1..]) == 0;
        }
      }
      StripBeforeMarkUnpadsBefore(s[1..]);
      ConsNoSpaceBeforeMark(s[0], StripBeforeMark(s[1..]));
    }
  }

  /** After passes 1 to 4 no whitespace is immediately adjacent to a `*` or `_`. */
  lemma StripMarkerSpacesUnpads(s: string)
    ensures MarksUnpadded(StripMarkerSpaces(s))
  {
    var s3 := StripAfterMark(StripBeforeDouble(StripAfterDouble(s)));
    StripAfterMarkUnpadsAfter(StripBeforeDouble(StripAfterDouble(s)));
    StripBeforeMarkKeepsUnpaddedAfter(s3);
    StripBeforeMarkUnpadsBefore(s3);
  }

  // ---------------------------------------------------------------------
  // Idempotence
  // ---------------------------------------------------------------------

  /** Passes 2 to 4 find nothing to strip in an unpadded string. */
  lemma {:induction false} UnpaddedUnchanged(y: string)
    requires MarksUnpadded(y)
    ensures StripBeforeDouble(y) == y && StripAfterMark(y) == y && StripBeforeMark(y) == y
  {
    StripBeforeDoubleUnpadded(y);
    StripAfterMarkUnpadded(y);
    StripBeforeMarkUnpadded(y);
  }

  /** Pass 2 finds nothing to strip when no whitespace precedes a marker. */
  lemma {:induction false} StripBeforeDoubleUnpadded(y: string)
    requires MarksUnpadded(y)
    ensures StripBeforeDouble(y) == y
    decreases |y|
  {
    if |y| > 0 {
      var k := SpaceRun(y);
      if IsSpace(y[0]) && k < |y| {
        assert !SpaceBeforeMarkAt(y, k);
        assert SkipSpaces(y)[0] == y[k];
      }
      SuffixUnpadded(y, 1);
      StripBeforeDoubleUnpadded(y[1..]);
      assert [y[0]] + y[1..] == y;
    }
  }

  /** Pass 3 finds nothing to strip when no whitespace follows a marker. */
  lemma {:induction false} StripAfterMarkUnpadded(y: string)
    requires MarksUnpadded(y)
    ensures StripAfterMark(y) == y
    decreases |y|
  {
    if |y| > 0 {
      if |y| >= 2 {
        assert !SpaceAfterMarkAt(y, 1);
      }
      SuffixUnpadded(y, 1);
      StripAfterMarkUnpadded(y[1..]);
      assert [y[0]] + y[1..] == y;
    }
  }

  /** Pass 4 finds nothing to strip when no whitespace precedes a marker. */
  lemma {:induction false} StripBeforeMarkUnpadded(y: string)
    requires MarksUnpadded(y)
    ensures StripBeforeMark(y) == y
    decreases |y|
  {
    if |y| > 0 {
      var k := SpaceRun(y);
      if IsSpace(y[0]) && k < |y| {
        assert !SpaceBeforeMarkAt(y, k);
        assert SkipSpaces(y)[0] == y[k];
      }
      SuffixUnpadded(y, 1);
      StripBeforeMarkUnpadded(y[1..]);
      assert [y[0]] + y[1..] == y;
    }
  }

  /** One step of pass 1 where no match starts at the first character. */
  lemma StripAfterDoubleNoMatch(x: string)
    requires |x| > 0 && !(|x| >= 3 && StartsDouble(x) && IsSpace(x[2]))
    ensures StripAfterDouble(x) == [x[0]] + StripAfterDouble(x[1..])
  {
  }

  /** One step of pass 1 where a match starts at the first character. */
  lemma StripAfterDoubleMatch(x: string)
    requires |x| >= 3 && StartsDouble(x) && IsSpace(x[2])
    ensures StripAfterDouble(x) == x[..2] + StripAfterDouble(SkipSpaces(x[2..]))
  {
  }

  /** Pass 1 strips a single space after a double marker. */
  lemma StripAfterDoubleSpace(d: string, e: string, rest: string)
    requires StartsDouble(d) && |d| == 2 && |e| > 0 && !IsSpace(e[0])
    ensures StripAfterDouble(d + " " + e + rest) == d + StripAfterDouble(e + rest)
  {
    var v := e + rest;
    var u := d + " " + e + rest;
    assert u[..2] == d;
    assert u[2..] == [' '] + v;
    assert SpaceRun(v) == 0;
    assert SkipSpaces(u[2..]) == v;
    StripAfterDoubleMatch(u);
  }

  /** Pass 1 passes over two characters not followed by whitespace. */
  lemma StripAfterDoubleKeepsPair(e: string, rest: string)
    requires |e| == 2
    requires |rest| > 0 ==> !IsSpace(rest[0])
    requires |rest| > 1 && IsMark(rest[0]) ==> !IsSpace(rest[1])
    ensures StripAfterDouble(e + rest) == e + StripAfterDouble(rest)
  {
    var x := StripAfterDouble(rest);
    StripAfterDoubleKeepsChar(e[1], rest);
    StripAfterDoubleKeepsChar(e[0], [e[1]] + rest);
    assert e + rest == [e[0]] + ([e[1]] + rest);
    assert [e[0]] + ([e[1]] + x) == e + x;
  }

  /** Pass 1 passes over one character when the next is not whitespace. */
  lemma StripAfterDoubleKeepsChar(c: char, rest: string)
    requires |rest| > 1 && IsMark(c) && rest[0] == c ==> !IsSpace(rest[1])
    ensures StripAfterDouble([c] + rest) == [c] + StripAfterDouble(rest)
  {
    var w := [c] + rest;
    assert |w| >= 3 ==> w[1] == rest[0] && w[2] == rest[1];
    StripAfterDoubleNoMatch(w);
    assert w[1..] == rest;
  }

  lemma UndoSeparateAtDoubles(y: string)
    requires NoSpaceAfterMark(y)
    requires |y| >= 4 && StartsDouble(y) && StartsDouble(y[2..])
    requires StripAfterDouble(SeparateDoubles(y[4..])) == y[4..]
    ensures StripAfterDouble(SeparateDoubles(y)) == y
  {
    var rest := SeparateDoubles(y[4..]);
    assert StripAfterDouble(y[2..4] + rest) == y[2..4] + y[4..] by {
      if |y| > 4 {
        assert !SpaceAfterMarkAt(y, 4);
      }
      if |y| > 5 {
        assert !SpaceAfterMarkAt(y, 5);
        assert rest[1] == y[4..][1];
      }
      StripAfterDoubleKeepsPair(y[2..4], rest);
    }
    StripAfterDoubleSpace(y[..2], y[2..4], rest);
    calc {
      StripAfterDouble(SeparateDoubles(y));
      StripAfterDouble(y[..2] + " " + y[2..4] + rest);
      y[..2] + StripAfterDouble(y[2..4] + rest);
      y[..2] + (y[2..4] + y[4..]);
      { SplitFour(y); }
      y;
    }
  }

  lemma SplitFour(y: string)
    requires |y| >= 4
    ensures y[..2] + (y[2..4] + y[4..]) == y
  {
  }

  lemma UndoSeparateElsewhere(y: string)
    requires NoSpaceAfterMark(y)
    requires |y| > 0 && !(|y| >= 4 && StartsDouble(y) && StartsDouble(y[2..]))
    requires StripAfterDouble(SeparateDoubles(y[1..])) == y[1..]
    ensures StripAfterDouble(SeparateDoubles(y)) == y
  {
    var rest := SeparateDoubles(y[1..]);
    assert SeparateDoubles(y) == [y[0]] + rest;
    if |y| >= 3 {
      assert !SpaceAfterMarkAt(y, 2);
      assert rest[0] == y[1] && rest[1] == y[2];
    }
    StripAfterDoubleNoMatch([y[0]] + rest);
    assert ([y[0]] + rest)[1..] == rest;
    assert [y[0]] + y[1..] == y;
  }

  /** Pass 1 removes exactly the spaces that pass 5 inserted. */
  lemma {:induction false} StripAfterDoubleUndoesSeparate(y: string)
    requires NoSpaceAfterMark(y)
    ensures StripAfterDouble(SeparateDoubles(y)) == y
    decreases |y|
  {
    if |y| == 0 {
    } else if |y| >= 4 && StartsDouble(y) && StartsDouble(y[2..]) {
      SuffixUnpadded(y, 4);
      StripAfterDoubleUndoesSeparate(y[4..]);
      UndoSeparateAtDoubles(y);
    } else {
      SuffixUnpadded(y, 1);
      StripAfterDoubleUndoesSeparate(y[1..]);
      UndoSeparateElsewhere(y);
    }
  }

  /** Running the cleanup on its own output changes nothing. */
  lemma CleanupIdempotent(s: string)
    ensures Cleanup(Cleanup(s)) == Cleanup(s)
  {
    var y := StripMarkerSpaces(s);
    StripMarkerSpacesUnpads(s);
    StripAfterDoubleUndoesSeparate(y);
    UnpaddedUnchanged(y);
  }
}
