/**
 * `splitAtDelimiters` of the auto-render extension: cutting text into an
 * ordered list of plain-text and math segments.
 *
 * The JavaScript builds one regular expression that alternates every left
 * delimiter, and calls `text.search` with it. This model states that search
 * directly: it finds the least index at which some left delimiter occurs.
 */
module Segmentation {
  import opened Results
  import opened MathScanner

  /** A delimiter pair; `display` selects display mode for the math between them. */
  datatype Delimiter = Delimiter(left: string, right: string, display: bool)

  /** One piece of the split text. `rawData` keeps both delimiters. */
  datatype Segment =
    | TextSeg(data: string)
    | MathSeg(data: string, rawData: string, display: bool)

  /**
   * What the splitter needs of its delimiter list. An empty list makes the
   * alternation match the empty string, so `findIndex` yields -1 and the
   * lookup of `delimiters[-1]` throws. An empty left delimiter matches
   * everywhere and can keep the loop from advancing.
   */
  predicate WellFormed(delims: seq<Delimiter>) {
    |delims| > 0 && forall i :: 0 <= i < |delims| ==> delims[i].left != ""
  }

  /** Some left delimiter of the list occurs in `text` at `p`. */
  predicate LeftAt(text: string, delims: seq<Delimiter>, p: nat) {
    exists i :: 0 <= i < |delims| && OccursAt(text, delims[i].left, p)
  }

  /** `text.search(regexLeft)` from position `from`: the least index where a left delimiter occurs. */
  function SearchLeft(text: string, delims: seq<Delimiter>, from: nat): (r: Option<nat>)
    decreases |text| + 1 - from
    ensures r.Some? ==> from <= r.value <= |text| && LeftAt(text, delims, r.value)
    ensures r.Some? ==> forall q :: from <= q < r.value ==> !LeftAt(text, delims, q)
    ensures r.None? ==> forall q :: from <= q ==> !LeftAt(text, delims, q)
  {
    if from > |text| then None
    else if LeftAt(text, delims, from) then Some(from)
    else SearchLeft(text, delims, from + 1)
  }

  /**
   * `delimiters.findIndex(delim => text.startsWith(delim.left))`, searching
   * from list position `i`: the first delimiter whose left is a prefix.
   */
  function ChosenFrom(text: string, delims: seq<Delimiter>, i: nat): (k: nat)
    requires exists j :: i <= j < |delims| && OccursAt(text, delims[j].left, 0)
    decreases |delims| - i
    ensures i <= k < |delims| && OccursAt(text, delims[k].left, 0)
    ensures forall j :: i <= j < k ==> !OccursAt(text, delims[j].left, 0)
  {
    if OccursAt(text, delims[i].left, 0) then i else ChosenFrom(text, delims, i + 1)
  }

  /** The delimiter chosen when `text` starts with some left delimiter. */
  function Chosen(text: string, delims: seq<Delimiter>): (k: nat)
    requires LeftAt(text, delims, 0)
    ensures k < |delims| && OccursAt(text, delims[k].left, 0)
    ensures forall j :: 0 <= j < k ==> !OccursAt(text, delims[j].left, 0)
  {
    ChosenFrom(text, delims, 0)
  }

  /** The names `amsRegex` accepts between the backslash and the brace. */
  const AmsNames: set<string> := {"begin", "ref", "eqref"}

  /** `amsRegex`: the raw slice starts with `\begin{`, `\ref{` or `\eqref{`. */
  predicate AmsPrefixed(raw: string)
    ensures AmsPrefixed(raw) <==> exists name :: name in AmsNames && OccursAt(raw, "\\" + name + "{", 0)
  {
    || (|raw| >= 7 && raw[..7] == "\\begin{")
    || (|raw| >= 5 && raw[..5] == "\\ref{")
    || (|raw| >= 7 && raw[..7] == "\\eqref{")
  }

  /** An occurrence at `p` is an occurrence at the start of the suffix from `p`. */
  lemma OccursInSuffix(text: string, delim: string, p: nat)
    requires p <= |text|
    ensures OccursAt(text, delim, p) <==> OccursAt(text[p..], delim, 0)
  {
    if p + |delim| <= |text| {
      assert text[p..][0..|delim|] == text[p..p + |delim|];
    }
  }

  /** The text before the first left delimiter, as a segment when non-empty. */
  function Before(text: string, index: nat): seq<Segment>
    requires index <= |text|
  {
    if index > 0 then [TextSeg(text[..index])] else []
  }

  /** The math segment opened by `d` at the start of `rest` and closed at `end`. */
  function MathAt(rest: string, d: Delimiter, end: nat): Segment
    requires |d.left| <= end && end + |d.right| <= |rest|
  {
    var rawData := rest[..end + |d.right|];
    var math := if AmsPrefixed(rawData) then rawData else rest[|d.left|..end];
    MathSeg(math, rawData, d.display)
  }

  /** `splitAtDelimiters(text, delimiters)`. */
  function Split(text: string, delims: seq<Delimiter>): (r: seq<Segment>)
    requires WellFormed(delims)
    decreases |text|, 1
    ensures r == [] <==> text == ""
    ensures |r| <= |text|
  {
    match SearchLeft(text, delims, 0)
    case None =>
      if text == "" then [] else [TextSeg(text)]
    case Some(index) =>
      LeftAtSuffix(text, delims, index);
      Before(text, index) + SplitFromLeft(text[index..], delims)
  }

  /**
   * One turn of the loop once `text` starts with a left delimiter: the
   * first matching delimiter in list order is chosen and its right is
   * searched for. When the right is missing, the rest is plain text.
   */
  function SplitFromLeft(rest: string, delims: seq<Delimiter>): (r: seq<Segment>)
    requires WellFormed(delims) && LeftAt(rest, delims, 0)
    decreases |rest|, 0
    ensures 1 <= |r| <= |rest|
  {
    var d := delims[Chosen(rest, delims)];
    match EndOfMath(d.right, rest, |d.left|)
    case None =>
      [TextSeg(rest)]
    case Some(end) =>
      [MathAt(rest, d, end)] + Split(rest[end + |d.right|..], delims)
  }

  /** Once the first left delimiter is found at `index`, the text before it comes first and the split goes on from there. */
  lemma SplitAtLeft(text: string, delims: seq<Delimiter>, index: nat)
    requires WellFormed(delims) && SearchLeft(text, delims, 0) == Some(index)
    ensures index <= |text| && LeftAt(text[index..], delims, 0)
    ensures Split(text, delims) == Before(text, index) + SplitFromLeft(text[index..], delims)
  {
    LeftAtSuffix(text, delims, index);
  }

  /** When the chosen delimiter is closed at `end`, one math segment comes first and the split goes on after it. */
  lemma SplitFromLeftClosed(rest: string, delims: seq<Delimiter>, end: nat)
    requires WellFormed(delims) && LeftAt(rest, delims, 0)
    requires EndOfMath(delims[Chosen(rest, delims)].right, rest, |delims[Chosen(rest, delims)].left|) == Some(end)
    ensures end + |delims[Chosen(rest, delims)].right| <= |rest|
    ensures SplitFromLeft(rest, delims)
              == [MathAt(rest, delims[Chosen(rest, delims)], end)] + Split(rest[end + |delims[Chosen(rest, delims)].right|..], delims)
  {
  }

  /** A left delimiter found at `p` is a left delimiter at the start of the suffix. */
  lemma LeftAtSuffix(text: string, delims: seq<Delimiter>, p: nat)
    requires p <= |text| && LeftAt(text, delims, p)
    ensures LeftAt(text[p..], delims, 0)
  {
    var i :| 0 <= i < |delims| && OccursAt(text, delims[i].left, p);
    OccursInSuffix(text, delims[i].left, p);
  }

  /** What a segment contributes to the original text. */
  function Raw(s: Segment): string {
    match s
    case TextSeg(data) => data
    case MathSeg(_, rawData, _) => rawData
  }

  /** The segments' original text, concatenated in order. */
  function Flatten(segs: seq<Segment>): string {
    if segs == [] then "" else Raw(segs[0]) + Flatten(segs[1..])
  }

  lemma {:induction false} FlattenAppend(a: seq<Segment>, b: seq<Segment>)
    ensures Flatten(a + b) == Flatten(a) + Flatten(b)
  {
    if a == [] {
      assert a + b == b;
    } else {
      assert (a + b)[0] == a[0];
      assert (a + b)[1..] == a[1..] + b;
      FlattenAppend(a[1..], b);
    }
  }

  /** Round trip: text segments verbatim and math segments' `rawData` rebuild the input. */
  lemma {:induction false} SplitRoundTrip(text: string, delims: seq<Delimiter>)
    requires WellFormed(delims)
    ensures Flatten(Split(text, delims)) == text
    decreases |text|, 1
  {
    match SearchLeft(text, delims, 0)
    case None =>
      if text != "" {
        assert Flatten([TextSeg(text)]) == text + Flatten([]);
      }
    case Some(index) =>
      var rest := text[index..];
      SplitAtLeft(text, delims, index);
      SplitFromLeftRoundTrip(rest, delims);
      FlattenAppend(Before(text, index), SplitFromLeft(rest, delims));
      BeforeRoundTrip(text, index);
      assert text[..index] + rest == text;
  }

  /** The text before the first left delimiter contributes exactly that text. */
  lemma BeforeRoundTrip(text: string, index: nat)
    requires index <= |text|
    ensures Flatten(Before(text, index)) == text[..index]
  {
    if index > 0 {
      assert Flatten(Before(text, index)) == text[..index] + Flatten([]);
    }
  }

  lemma {:induction false} SplitFromLeftRoundTrip(rest: string, delims: seq<Delimiter>)
    requires WellFormed(delims) && LeftAt(rest, delims, 0)
    ensures Flatten(SplitFromLeft(rest, delims)) == rest
    decreases |rest|, 0
  {
    var d := delims[Chosen(rest, delims)];
    match EndOfMath(d.right, rest, |d.left|)
    case None =>
      assert Flatten([TextSeg(rest)]) == rest + Flatten([]);
    case Some(end) =>
      var tail := rest[end + |d.right|..];
      SplitFromLeftClosed(rest, delims, end);
      SplitRoundTrip(tail, delims);
      FlattenAppend([MathAt(rest, d, end)], Split(tail, delims));
      assert Flatten([MathAt(rest, d, end)]) == rest[..end + |d.right|] + Flatten([]);
      assert rest[..end + |d.right|] + tail == rest;
  }

  /** Text containing no left delimiter is one text segment, or nothing when empty. */
  lemma NoDelimiterNoMath(text: string, delims: seq<Delimiter>)
    requires WellFormed(delims)
    requires forall p :: 0 <= p <= |text| ==> !LeftAt(text, delims, p)
    ensures text == "" ==> Split(text, delims) == []
    ensures text != "" ==> Split(text, delims) == [TextSeg(text)]
  {
    assert SearchLeft(text, delims, 0).None?;
  }

  /**
   * The math slice `raw` starts with `d`'s left and ends with its right; the
   * content between them is the segment's data, except that AMS environments
   * and references keep their delimiters.
   */
  predicate FramedBy(m: Segment, d: Delimiter)
    requires m.MathSeg?
  {
    var raw := m.rawData;
    && |d.left| + |d.right| <= |raw|
    && raw[..|d.left|] == d.left
    && raw[|raw| - |d.right|..] == d.right
    && m.display == d.display
    && (m.data == raw <==> AmsPrefixed(raw))
    && (!AmsPrefixed(raw) ==> m.data == raw[|d.left|..|raw| - |d.right|])
  }

  /** The delimiter `d` opens and closes the math slice as the splitter found it: the closing right is the first one the scan finds. */
  predicate DelimitedBy(m: Segment, d: Delimiter)
    requires m.MathSeg?
  {
    FramedBy(m, d) && ClosedAtEnd(m.rawData, d)
  }

  /** Scanning `raw` after `d`'s left finds the closing right at its very end (an empty right is never searched for). */
  predicate ClosedAtEnd(raw: string, d: Delimiter) {
    |d.right| > 0 ==> |d.right| <= |raw| && EndOfMath(d.right, raw, |d.left|) == Some(|raw| - |d.right|)
  }

  /**
   * Each math segment was opened by the first delimiter in list order whose
   * left is a prefix of its raw slice, and closed by that delimiter's right.
   */
  predicate MathSegmentOk(m: Segment, delims: seq<Delimiter>)
    requires m.MathSeg?
  {
    exists i :: 0 <= i < |delims| && DelimitedBy(m, delims[i])
      && forall j :: 0 <= j < i ==> !OccursAt(m.rawData, delims[j].left, 0)
  }

  /**
   * A text segment is never empty, and contains a left delimiter only when
   * it is the last segment and starts with one: the unterminated tail.
   */
  predicate TextSegmentOk(s: Segment, delims: seq<Delimiter>, last: bool)
    requires s.TextSeg?
  {
    && s.data != ""
    && ((forall p :: 0 <= p <= |s.data| ==> !LeftAt(s.data, delims, p))
        || (last && LeftAt(s.data, delims, 0)))
  }

  predicate SegmentOk(segs: seq<Segment>, delims: seq<Delimiter>, k: nat)
    requires k < |segs|
  {
    && (segs[k].MathSeg? ==> MathSegmentOk(segs[k], delims))
    && (segs[k].TextSeg? ==> TextSegmentOk(segs[k], delims, k == |segs| - 1))
  }

  predicate SegmentsOk(segs: seq<Segment>, delims: seq<Delimiter>) {
    forall k :: 0 <= k < |segs| ==> SegmentOk(segs, delims, k)
  }

  /** An occurrence inside a prefix is an occurrence in the whole text, ending within the prefix. */
  lemma PrefixOccurrence(text: string, n: nat, delim: string, p: nat)
    requires n <= |text|
    ensures OccursAt(text[..n], delim, p) ==> OccursAt(text, delim, p) && p + |delim| <= n
  {
    if p + |delim| <= n {
      assert text[..n][p..p + |delim|] == text[p..p + |delim|];
    }
  }

  /** No left delimiter occurs in a prefix that ends before the first one. */
  lemma PrefixHasNoLeft(text: string, delims: seq<Delimiter>, index: nat)
    requires WellFormed(delims)
    requires index <= |text|
    requires forall q :: 0 <= q < index ==> !LeftAt(text, delims, q)
    ensures forall p :: 0 <= p <= index ==> !LeftAt(text[..index], delims, p)
  {
    forall p, i | 0 <= p <= index && 0 <= i < |delims|
      ensures !OccursAt(text[..index], delims[i].left, p)
    {
      PrefixOccurrence(text, index, delims[i].left, p);
      assert p < index ==> !LeftAt(text, delims, p);
    }
  }

  /** A math segment cut by `d` from the start of `rest` is delimited by `d`. */
  lemma MathAtDelimited(rest: string, d: Delimiter, end: nat)
    requires d.left != "" && OccursAt(rest, d.left, 0)
    requires EndOfMath(d.right, rest, |d.left|) == Some(end)
    ensures DelimitedBy(MathAt(rest, d, end), d)
  {
    MathAtShape(rest, d, end);
    ClosingFound(rest, d, end);
  }

  /** Scanning the math slice alone finds the same closing delimiter as scanning the whole rest. */
  lemma ClosingFound(rest: string, d: Delimiter, end: nat)
    requires EndOfMath(d.right, rest, |d.left|) == Some(end)
    ensures |d.left| <= end && OccursAt(rest, d.right, end)
    ensures ClosedAtEnd(rest[..end + |d.right|], d)
  {
    if |d.right| > 0 {
      EndFromPrefix(d.right, rest, rest[..end + |d.right|], |d.left|, 0, end);
    }
  }

  /** The slices of a math segment: delimiters at both ends, content in between. */
  lemma MathAtShape(rest: string, d: Delimiter, end: nat)
    requires d.left != "" && OccursAt(rest, d.left, 0)
    requires |d.left| <= end && OccursAt(rest, d.right, end)
    ensures MathAt(rest, d, end).rawData == rest[..end + |d.right|]
    ensures FramedBy(MathAt(rest, d, end), d)
  {
    var rawData := rest[..end + |d.right|];
    assert rawData[..|d.left|] == rest[..|d.left|];
    assert rawData[|rawData| - |d.right|..] == rest[end..end + |d.right|];
    assert rawData[|d.left|..|rawData| - |d.right|] == rest[|d.left|..end];
  }

  /** The math segment built from the chosen delimiter and its closing position. */
  lemma MathSegmentBuilt(rest: string, delims: seq<Delimiter>, end: nat)
    requires WellFormed(delims) && LeftAt(rest, delims, 0)
    requires EndOfMath(delims[Chosen(rest, delims)].right, rest, |delims[Chosen(rest, delims)].left|) == Some(end)
    ensures MathSegmentOk(MathAt(rest, delims[Chosen(rest, delims)], end), delims)
  {
    var i := Chosen(rest, delims);
    var d := delims[i];
    var m := MathAt(rest, d, end);
    MathAtDelimited(rest, d, end);
    forall j | 0 <= j < i
      ensures !OccursAt(m.rawData, delims[j].left, 0)
    {
      PrefixOccurrence(rest, |m.rawData|, delims[j].left, 0);
      assert rest[..|m.rawData|] == m.rawData;
    }
  }

  /** Every segment of a split satisfies the text and math segment properties. */
  lemma {:induction false} SplitSegments(text: string, delims: seq<Delimiter>)
    requires WellFormed(delims)
    ensures SegmentsOk(Split(text, delims), delims)
    decreases |text|, 1
  {
    var segs := Split(text, delims);
    match SearchLeft(text, delims, 0)
    case None =>
      if text != "" {
        assert SegmentOk(segs, delims, 0);
      }
    case Some(index) =>
      var before := Before(text, index);
      if index > 0 {
        PrefixHasNoLeft(text, delims, index);
        assert TextSegmentOk(before[0], delims, false);
      }
      LeftAtSuffix(text, delims, index);
      var tail := SplitFromLeft(text[index..], delims);
      SplitFromLeftSegments(text[index..], delims);
      SplitAtLeft(text, delims, index);
      SegmentsOkPrepend(before, tail, delims);
  }

  lemma {:induction false} SplitFromLeftSegments(rest: string, delims: seq<Delimiter>)
    requires WellFormed(delims) && LeftAt(rest, delims, 0)
    ensures SegmentsOk(SplitFromLeft(rest, delims), delims)
    decreases |rest|, 0
  {
    var segs := SplitFromLeft(rest, delims);
    var d := delims[Chosen(rest, delims)];
    match EndOfMath(d.right, rest, |d.left|)
    case None =>
      assert SegmentOk(segs, delims, 0);
    case Some(end) =>
      var tail := Split(rest[end + |d.right|..], delims);
      SplitSegments(rest[end + |d.right|..], delims);
      MathSegmentBuilt(rest, delims, end);
      SplitFromLeftClosed(rest, delims, end);
      SegmentsOkPrepend([MathAt(rest, d, end)], tail, delims);
  }

  /** Putting one good segment in front of good segments keeps them good (a text segment that is no tail). */
  lemma SegmentsOkPrepend(head: seq<Segment>, tail: seq<Segment>, delims: seq<Delimiter>)
    requires |head| <= 1 && SegmentsOk(tail, delims)
    requires head != [] && head[0].MathSeg? ==> MathSegmentOk(head[0], delims)
    requires head != [] && head[0].TextSeg? ==> TextSegmentOk(head[0], delims, false)
    ensures SegmentsOk(head + tail, delims)
  {
    var segs := head + tail;
    forall k | 0 <= k < |segs|
      ensures SegmentOk(segs, delims, k)
    {
      if k >= |head| {
        assert SegmentOk(tail, delims, k - |head|);
        assert segs[k] == tail[k - |head|];
      } else {
        assert segs[k] == head[0];
      }
    }
  }

  /** The list order `$$` before `$`: a left that is a proper prefix of another comes after it. */
  predicate PrefixOrdered(delims: seq<Delimiter>) {
    forall i, j ::
      (0 <= i < |delims| && 0 <= j < |delims| && ProperPrefix(delims[i].left, delims[j].left)) ==> j < i
  }

  /** `a` is a strict prefix of `b`. */
  predicate ProperPrefix(a: string, b: string) {
    |a| < |b| && b[..|a|] == a
  }

  /**
   * In a prefix-ordered list, the chosen delimiter is the longest left that
   * matches: no other matching left strictly extends it.
   */
  lemma ChosenIsLongest(text: string, delims: seq<Delimiter>, j: nat)
    requires LeftAt(text, delims, 0) && PrefixOrdered(delims)
    requires j < |delims| && OccursAt(text, delims[j].left, 0)
    ensures |delims[j].left| <= |delims[Chosen(text, delims)].left|
  {
    var i := Chosen(text, delims);
    CommonPrefix(text, delims[i].left, delims[j].left);
  }

  /** Two left delimiters that both start `text`: the shorter is a prefix of the longer. */
  lemma CommonPrefix(text: string, a: string, b: string)
    requires OccursAt(text, a, 0) && OccursAt(text, b, 0)
    ensures |a| <= |b| ==> b[..|a|] == a
  {
    if |a| <= |b| {
      assert b[..|a|] == text[..|a|];
    }
  }
}
