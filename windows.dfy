/**
 The density scan that bounds a page's main content. The stripped page is
 cut into lines; the lines are read in non-overlapping windows of five. A
 line weighs the characters of its trimmed text other than ' ' (a tab
 inside a line still counts); a window is content when its lines weigh
 more than 2% of the page's length. The first content window fixes the start
 line (found by scanning that window backwards); every change from a
 content window to a non-content window fixes the end line again (found by
 scanning the non-content window forwards).

 The functions below follow the scan step by step; the lemmas say what the
 resulting start and end lines are.
 */
module Windows {
  import opened Text

  /** Weight of a line: the characters of its trimmed text other than spaces. */
  function LineWeight(line: string): nat {
    if Trim(line) != "" then |RemoveSpaces(Trim(line))| else 0
  }

  /** A line weighs nothing exactly when it is blank. */
  lemma BlankIsWeightless(line: string)
    ensures Blank(line) <==> LineWeight(line) == 0
  {
    if !Blank(line) {
      NonBlankHasWeight(line);
    }
  }

  /** The weight of every line; the scan depends on the lines only through these. */
  function Weights(lines: seq<string>): (w: seq<nat>)
    ensures |w| == |lines|
  {
    if lines == [] then [] else [LineWeight(lines[0])] + Weights(lines[1..])
  }

  /** Line `k` weighs what its text weighs. */
  lemma {:induction false} WeightAt(lines: seq<string>, k: nat)
    requires k < |lines|
    ensures Weights(lines)[k] == LineWeight(lines[k])
  {
    if k > 0 {
      WeightAt(lines[1..], k - 1);
    }
  }

  /** Summed weight of the first `j` existing lines of the window starting at line `i`. */
  function WindowWeight(lines: seq<nat>, i: nat, j: nat): nat {
    if j == 0 then 0
    else WindowWeight(lines, i, j - 1) + (if i + j - 1 < |lines| then lines[i + j - 1] else 0)
  }

  /** Lines past the last one add nothing to a window's weight. */
  lemma {:induction false} WeightPastEnd(lines: seq<nat>, i: nat, j: nat)
    requires i + j >= |lines| && j <= 5
    ensures WindowWeight(lines, i, 5) == WindowWeight(lines, i, j)
    decreases 5 - j
  {
    if j < 5 {
      WeightPastEnd(lines, i, j + 1);
    }
  }

  /**
   The window at `i` is content: its weight divided by the page length
   exceeds 0.02, stated on integers (false for an empty page, as the
   floating-point comparison with NaN is).
   */
  predicate Dense(lines: seq<nat>, charCount: nat, i: nat) {
    50 * WindowWeight(lines, i, 5) > charCount
  }

  /** In the scan, a line of weight 0 is a blank line. */
  predicate Empty(weight: nat) {
    weight == 0
  }

  /** The window numbered `v` (lines 5v to 5v+4) is content. */
  predicate DenseWindow(lines: seq<nat>, charCount: nat, v: nat) {
    Dense(lines, charCount, 5 * v)
  }

  /** One past the last line of the window at `i`. */
  function WindowLimit(lines: seq<nat>, i: nat): nat {
    if i + 5 <= |lines| then i + 5 else |lines|
  }

  /** Window `v` exists and is not content, but window `v - 1` was. */
  predicate Transition(lines: seq<nat>, charCount: nat, v: nat) {
    v >= 1 && 5 * v < |lines| && DenseWindow(lines, charCount, v - 1) && !DenseWindow(lines, charCount, v)
  }

  /** No two consecutive blank lines among lines `a` to `b`. */
  ghost predicate NoDoubleBlank(lines: seq<nat>, a: int, b: int)
    requires 0 <= a && b < |lines|
  {
    forall k, k' :: a <= k && k' == k + 1 && k' <= b ==> !(Empty(lines[k]) && Empty(lines[k']))
  }

  // ---------------------------------------------------------------------
  // Backward scan of the first content window

  datatype BackState = BackState(startPos: int, found: bool, emptyLine: nat)

  /** One offset of the backward scan, read on an existing line. */
  function BackNext(lines: seq<nat>, i: nat, j: int, st: BackState): BackState
    requires 0 <= i + j < |lines|
  {
    var blank := Empty(lines[i + j]);
    var found := st.found || !blank;
    BackState(if !blank then i + j else st.startPos,
              found,
              if found then (if blank then st.emptyLine + 1 else 0) else st.emptyLine)
  }

  /**
   The backward scan from offset `j` down to offset 0 of the window at `i`:
   the last non-blank line met becomes the start; once a non-blank line has
   been met, two blank lines in a row stop the scan. Offsets past the last
   line are skipped.
   */
  function BackScan(lines: seq<nat>, i: nat, j: int, st: BackState): BackState
    decreases j + 1
  {
    if j < 0 || st.emptyLine >= 2 then st
    else if i + j >= |lines| then BackScan(lines, i, j - 1, st)
    else BackScan(lines, i, j - 1, BackNext(lines, i, j, st))
  }

  /** One offset of the backward scan, read or skipped. */
  lemma BackUnfold(lines: seq<nat>, i: nat, j: int, st: BackState)
    requires 0 <= j && st.emptyLine < 2
    ensures BackScan(lines, i, j, st)
            == if i + j >= |lines| then BackScan(lines, i, j - 1, st)
               else BackScan(lines, i, j - 1, BackNext(lines, i, j, st))
  {
  }

  /** The start line the backward scan picks in the window at `i`. */
  function BlockStart(lines: seq<nat>, i: nat): int {
    BackScan(lines, i, 4, BackState(-1, false, 0)).startPos
  }

  /** `t` is the last non-blank line of the window at `i`. */
  ghost predicate IsTop(lines: seq<nat>, i: nat, t: int) {
    i <= t < WindowLimit(lines, i) && !Empty(lines[t])
    && forall m :: t < m < WindowLimit(lines, i) ==> Empty(lines[m])
  }

  /** Largest non-blank line among the first `j` lines of the window at `i`, or -1. */
  function TopLine(lines: seq<nat>, i: nat, j: nat): (t: int)
    requires j <= 5
    ensures t == -1 || (i <= t < i + j && t < |lines| && !Empty(lines[t]))
    ensures forall m :: t < m < i + j && i <= m < |lines| ==> Empty(lines[m])
  {
    if j == 0 then -1
    else if i + j - 1 < |lines| && !Empty(lines[i + j - 1]) then i + j - 1
    else TopLine(lines, i, j - 1)
  }

  /** The scan state before offset `j`: offsets above `j` have been read. */
  ghost predicate BackInv(lines: seq<nat>, i: nat, j: int, t: int, st: BackState)
    requires i < |lines| && IsTop(lines, i, t)
  {
    var lo := i + j + 1;
    var hi := WindowLimit(lines, i);
    && -1 <= j <= 4
    && st.emptyLine <= 2
    && (!st.found ==> st.emptyLine == 0 && st.startPos == -1 && t < lo)
    && (st.found ==>
          && lo <= st.startPos <= t
          && !Empty(lines[st.startPos])
          && (forall m :: lo <= m < st.startPos ==> Empty(lines[m]))
          && st.emptyLine == st.startPos - lo
          && NoDoubleBlank(lines, st.startPos, t))
    && (st.emptyLine < 2 || j < 4)
  }

  /** What the backward scan has established when it stops. */
  ghost predicate BackResult(lines: seq<nat>, i: nat, t: int, s: int)
    requires i < |lines| && IsTop(lines, i, t)
  {
    && i <= s <= t && !Empty(lines[s])
    && NoDoubleBlank(lines, s, t)
    && (s == i || (Empty(lines[s - 1]) && (s - 1 == i || Empty(lines[s - 2]))))
  }

  lemma BackStop(lines: seq<nat>, i: nat, j: int, t: int, st: BackState)
    requires i < |lines| && IsTop(lines, i, t) && BackInv(lines, i, j, t, st)
    requires j < 0 || st.emptyLine >= 2
    ensures BackResult(lines, i, t, st.startPos)
  {
    if !st.found {
      assert false;
    }
  }

  lemma BackStep(lines: seq<nat>, i: nat, j: int, t: int, st: BackState)
    requires i < |lines| && IsTop(lines, i, t) && BackInv(lines, i, j, t, st)
    requires 0 <= j && st.emptyLine < 2 && i + j < |lines|
    ensures BackInv(lines, i, j - 1, t, BackNext(lines, i, j, st))
  {
    var x := i + j;
    if !Empty(lines[x]) && !st.found {
      assert x == t;
    }
    if !Empty(lines[x]) && st.found {
      assert NoDoubleBlank(lines, x, t) by {
        forall k, k' | x <= k && k' == k + 1 && k' <= t ensures !(Empty(lines[k]) && Empty(lines[k'])) {
          if k >= st.startPos {
          } else if k == x {
          } else {
            assert k == x + 1 && k + 1 == st.startPos;
          }
        }
      }
    }
  }

  lemma BackSkip(lines: seq<nat>, i: nat, j: int, t: int, st: BackState)
    requires i < |lines| && IsTop(lines, i, t) && BackInv(lines, i, j, t, st)
    requires 0 <= j && st.emptyLine < 2 && i + j >= |lines|
    ensures BackInv(lines, i, j - 1, t, st)
  {
  }

  lemma {:induction false} BackScanInv(lines: seq<nat>, i: nat, j: int, t: int, st: BackState)
    requires i < |lines| && IsTop(lines, i, t)
    requires BackInv(lines, i, j, t, st)
    ensures BackResult(lines, i, t, BackScan(lines, i, j, st).startPos)
    decreases j + 1
  {
    if j < 0 || st.emptyLine >= 2 {
      BackStop(lines, i, j, t, st);
    } else if i + j >= |lines| {
      BackSkip(lines, i, j, t, st);
      BackScanInv(lines, i, j - 1, t, st);
    } else {
      BackStep(lines, i, j, t, st);
      BackScanInv(lines, i, j - 1, t, BackNext(lines, i, j, st));
    }
  }

  /**
   The start line of a window holding a non-blank line: the first
   non-blank line reached going up from the window's last non-blank line
   `t` before two consecutive blank lines, with no two consecutive blank
   lines between it and `t`.
   */
  lemma BlockStartSpec(lines: seq<nat>, i: nat, t: int)
    requires i < |lines| && IsTop(lines, i, t)
    ensures var s := BlockStart(lines, i);
            && i <= s <= t && !Empty(lines[s])
            && NoDoubleBlank(lines, s, t)
            && (s == i || (Empty(lines[s - 1]) && (s - 1 == i || Empty(lines[s - 2]))))
  {
    BackScanInv(lines, i, 4, t, BackState(-1, false, 0));
  }

  // ---------------------------------------------------------------------
  // Forward scan of the window after the content

  datatype ForwardState = ForwardState(endPos: int, emptyLine: nat)

  /**
   The forward scan from offset `j` of the window at `i`: each non-blank
   line becomes the end; two blank lines in a row stop the scan.
   */
  function ForwardScan(lines: seq<nat>, i: nat, j: nat, st: ForwardState): ForwardState
    decreases 5 - j
  {
    if j >= 5 || i + j >= |lines| || st.emptyLine >= 2 then st
    else
      ForwardScan(lines, i, j + 1,
        if Empty(lines[i + j]) then ForwardState(st.endPos, st.emptyLine + 1) else ForwardState(i + j, 0))
  }

  /** One line of the forward scan. */
  lemma ForwardUnfold(lines: seq<nat>, i: nat, j: nat, st: ForwardState)
    requires j < 5 && i + j < |lines| && st.emptyLine < 2
    ensures ForwardScan(lines, i, j, st)
            == ForwardScan(lines, i, j + 1,
                 if Empty(lines[i + j]) then ForwardState(st.endPos, st.emptyLine + 1) else ForwardState(i + j, 0))
  {
  }

  /** The end line the forward scan picks in the window at `i`. */
  function BlockEnd(lines: seq<nat>, i: nat): int {
    ForwardScan(lines, i, 0, ForwardState(i, 0)).endPos
  }

  ghost predicate ForwardInv(lines: seq<nat>, i: nat, j: nat, st: ForwardState)
    requires i < |lines|
  {
    var e := st.endPos;
    && j <= 5 && i + j <= WindowLimit(lines, i)
    && st.emptyLine <= 2
    && (j == 0 ==> st == ForwardState(i, 0))
    && (j > 0 ==>
          && i <= e < i + j
          && NoDoubleBlank(lines, i, e)
          && (!Empty(lines[e]) ==>
                st.emptyLine == i + j - 1 - e && forall m :: e < m < i + j ==> Empty(lines[m]))
          && (Empty(lines[e]) ==>
                e == i && st.emptyLine == j && forall m :: i <= m < i + j ==> Empty(lines[m])))
  }

  /** What the forward scan has established when it stops. */
  ghost predicate ForwardResult(lines: seq<nat>, i: nat, e: int)
    requires i < |lines|
  {
    var hi := WindowLimit(lines, i);
    && i <= e < hi
    && NoDoubleBlank(lines, i, e)
    && (Empty(lines[e]) ==> e == i && (e + 1 == hi || Empty(lines[e + 1])))
    && (!Empty(lines[e]) ==>
          e + 1 == hi || (Empty(lines[e + 1]) && (e + 2 == hi || Empty(lines[e + 2]))))
  }

  lemma ForwardStop(lines: seq<nat>, i: nat, j: nat, st: ForwardState)
    requires i < |lines| && ForwardInv(lines, i, j, st)
    requires j >= 5 || i + j >= |lines| || st.emptyLine >= 2
    ensures ForwardResult(lines, i, st.endPos)
  {
    assert j > 0;
  }

  lemma ForwardStep(lines: seq<nat>, i: nat, j: nat, st: ForwardState)
    requires i < |lines| && ForwardInv(lines, i, j, st)
    requires !(j >= 5 || i + j >= |lines| || st.emptyLine >= 2)
    ensures ForwardInv(lines, i, j + 1,
              if Empty(lines[i + j]) then ForwardState(st.endPos, st.emptyLine + 1) else ForwardState(i + j, 0))
  {
    var x := i + j;
    var e := st.endPos;
    if !Empty(lines[x]) && j > 0 {
      assert x - e <= 2;
      assert NoDoubleBlank(lines, i, x) by {
        forall k, k' | i <= k && k' == k + 1 && k' <= x ensures !(Empty(lines[k]) && Empty(lines[k'])) {
          if k' <= e {
            assert NoDoubleBlank(lines, i, e);
          } else if k == e {
          } else {
            assert k' == x;
          }
        }
      }
    }
  }

  lemma {:induction false} ForwardScanInv(lines: seq<nat>, i: nat, j: nat, st: ForwardState)
    requires i < |lines| && ForwardInv(lines, i, j, st)
    ensures ForwardResult(lines, i, ForwardScan(lines, i, j, st).endPos)
    decreases 5 - j
  {
    if j >= 5 || i + j >= |lines| || st.emptyLine >= 2 {
      ForwardStop(lines, i, j, st);
    } else {
      ForwardStep(lines, i, j, st);
      ForwardScanInv(lines, i, j + 1,
        if Empty(lines[i + j]) then ForwardState(st.endPos, st.emptyLine + 1) else ForwardState(i + j, 0));
    }
  }

  /**
   The end line picked in the window at `i`: the last non-blank line before
   the first two consecutive blank lines, or `i` itself when the window
   opens with blank lines.
   */
  lemma BlockEndSpec(lines: seq<nat>, i: nat)
    requires i < |lines|
    ensures var e := BlockEnd(lines, i);
            var hi := WindowLimit(lines, i);
            && i <= e < hi
            && NoDoubleBlank(lines, i, e)
            && (Empty(lines[e]) ==> e == i && (e + 1 == hi || Empty(lines[e + 1])))
            && (!Empty(lines[e]) ==>
                  e + 1 == hi || (Empty(lines[e + 1]) && (e + 2 == hi || Empty(lines[e + 2]))))
  {
    ForwardScanInv(lines, i, 0, ForwardState(i, 0));
  }

  // ---------------------------------------------------------------------
  // The whole scan

  /** startPos, endPos and whether the previous window was content (flag2). */
  datatype ScanState = ScanState(startPos: int, endPos: int, inContent: bool)

  /** One window of the scan, the window starting at line `i`. */
  function WindowStep(lines: seq<nat>, charCount: nat, i: nat, st: ScanState): ScanState {
    if Dense(lines, charCount, i) then
      ScanState(if st.startPos < 0 then BlockStart(lines, i) else st.startPos, st.endPos, true)
    else if st.inContent then
      ScanState(st.startPos, BlockEnd(lines, i), false)
    else
      st
  }

  /** The scan from the window starting at line `i` to the last window. */
  function ScanFrom(lines: seq<nat>, charCount: nat, i: nat, st: ScanState): ScanState
    decreases |lines| - i
  {
    if i >= |lines| then st else ScanFrom(lines, charCount, i + 5, WindowStep(lines, charCount, i, st))
  }

  /** The start and end lines for a page of `charCount` characters whose lines weigh `lines`. */
  function Scan(lines: seq<nat>, charCount: nat): ScanState {
    ScanFrom(lines, charCount, 0, ScanState(-1, -1, false))
  }

  /** `s` is the start line picked in window `v`, the first content window. */
  ghost predicate IsStartIn(lines: seq<nat>, charCount: nat, v: nat, s: int) {
    && 5 * v <= s < 5 * v + 5 && s < |lines|
    && !Empty(lines[s])
    && DenseWindow(lines, charCount, v)
    && (forall u :: 0 <= u < v ==> !DenseWindow(lines, charCount, u))
    && s == BlockStart(lines, 5 * v)
  }

  /** `e` is the end line picked in window `v`, which follows a content window. */
  ghost predicate IsEndIn(lines: seq<nat>, charCount: nat, v: nat, e: int) {
    && 5 * v <= e < 5 * v + 5 && e < |lines|
    && Transition(lines, charCount, v)
    && e == BlockEnd(lines, 5 * v)
  }

  /** What the start line is once windows 0 to `w - 1` have been read. */
  ghost predicate StartSoFar(lines: seq<nat>, charCount: nat, w: nat, s: int) {
    && (s == -1 <==> forall u :: 0 <= u < w ==> !DenseWindow(lines, charCount, u))
    && (s != -1 ==> 0 <= s < 5 * w && IsStartIn(lines, charCount, s / 5, s))
  }

  /** What the end line is once windows 0 to `w - 1` have been read. */
  ghost predicate EndSoFar(lines: seq<nat>, charCount: nat, w: nat, s: int, e: int) {
    && (e == -1 <==> forall u :: 0 <= u < w ==> !Transition(lines, charCount, u))
    && (e != -1 ==>
          && 0 <= s < e
          && e / 5 < w && IsEndIn(lines, charCount, e / 5, e)
          && forall u :: e / 5 < u < w ==> !Transition(lines, charCount, u))
  }

  ghost predicate ScanInv(lines: seq<nat>, charCount: nat, w: nat, st: ScanState) {
    && StartSoFar(lines, charCount, w, st.startPos)
    && (st.inContent <==> w >= 1 && DenseWindow(lines, charCount, w - 1))
    && EndSoFar(lines, charCount, w, st.startPos, st.endPos)
  }

  lemma WindowOfLine(v: nat, x: int)
    requires 5 * v <= x < 5 * v + 5
    ensures x / 5 == v
  {
  }

  lemma {:induction false} WeightHasText(lines: seq<nat>, i: nat, j: nat)
    requires WindowWeight(lines, i, j) > 0
    ensures exists m :: i <= m < i + j && m < |lines| && !Empty(lines[m])
  {
    if WindowWeight(lines, i, j - 1) > 0 {
      WeightHasText(lines, i, j - 1);
    } else {
      assert i + j - 1 < |lines| && lines[i + j - 1] > 0;
    }
  }

  lemma DenseHasTop(lines: seq<nat>, charCount: nat, i: nat)
    requires i < |lines| && Dense(lines, charCount, i)
    ensures IsTop(lines, i, TopLine(lines, i, 5))
  {
    WeightHasText(lines, i, 5);
  }

  /** A window past the last line weighs nothing, so it is never content. */
  lemma {:induction false} PastEndWeightless(lines: seq<nat>, i: nat, j: nat)
    requires i >= |lines|
    ensures WindowWeight(lines, i, j) == 0
  {
    if j > 0 {
      PastEndWeightless(lines, i, j - 1);
    }
  }

  lemma StartStep(lines: seq<nat>, charCount: nat, w: nat, st: ScanState)
    requires 5 * w < |lines| && StartSoFar(lines, charCount, w, st.startPos)
    ensures StartSoFar(lines, charCount, w + 1, WindowStep(lines, charCount, 5 * w, st).startPos)
  {
    var i := 5 * w;
    if Dense(lines, charCount, i) && st.startPos < 0 {
      var t := TopLine(lines, i, 5);
      DenseHasTop(lines, charCount, i);
      BlockStartSpec(lines, i, t);
      WindowOfLine(w, BlockStart(lines, i));
      assert DenseWindow(lines, charCount, w);
    }
  }

  lemma EndStep(lines: seq<nat>, charCount: nat, w: nat, st: ScanState)
    requires 5 * w < |lines| && ScanInv(lines, charCount, w, st)
    ensures var next := WindowStep(lines, charCount, 5 * w, st);
            EndSoFar(lines, charCount, w + 1, next.startPos, next.endPos)
  {
    var i := 5 * w;
    if !Dense(lines, charCount, i) && st.inContent {
      BlockEndSpec(lines, i);
      WindowOfLine(w, BlockEnd(lines, i));
      assert Transition(lines, charCount, w);
      assert DenseWindow(lines, charCount, w - 1);
      assert 0 <= st.startPos < 5 * w;
    } else {
      assert !Transition(lines, charCount, w);
    }
  }

  lemma ScanStep(lines: seq<nat>, charCount: nat, w: nat, st: ScanState)
    requires 5 * w < |lines| && ScanInv(lines, charCount, w, st)
    ensures ScanInv(lines, charCount, w + 1, WindowStep(lines, charCount, 5 * w, st))
  {
    StartStep(lines, charCount, w, st);
    EndStep(lines, charCount, w, st);
  }

  /** What the scan records, stated over all windows. */
  ghost predicate ScanResult(lines: seq<nat>, charCount: nat, sc: ScanState) {
    && (sc.startPos == -1 <==> forall u: nat :: !DenseWindow(lines, charCount, u))
    && (sc.startPos != -1 ==> sc.startPos >= 0 && IsStartIn(lines, charCount, sc.startPos / 5, sc.startPos))
    && (sc.endPos == -1 <==> forall u: nat :: !Transition(lines, charCount, u))
    && (sc.endPos != -1 ==>
          && 0 <= sc.startPos < sc.endPos
          && IsEndIn(lines, charCount, sc.endPos / 5, sc.endPos)
          && forall u: nat :: u > sc.endPos / 5 ==> !Transition(lines, charCount, u))
  }

  lemma ScanDone(lines: seq<nat>, charCount: nat, w: nat, st: ScanState)
    requires 5 * w >= |lines| && ScanInv(lines, charCount, w, st)
    ensures ScanResult(lines, charCount, st)
  {
    forall u: nat | u >= w
      ensures !DenseWindow(lines, charCount, u) && !Transition(lines, charCount, u)
    {
      PastEndWeightless(lines, 5 * u, 5);
    }
  }

  lemma {:induction false} ScanFromInv(lines: seq<nat>, charCount: nat, w: nat, i: nat, st: ScanState)
    requires i == 5 * w && ScanInv(lines, charCount, w, st)
    ensures ScanResult(lines, charCount, ScanFrom(lines, charCount, i, st))
    decreases |lines| - i
  {
    if i < |lines| {
      ScanStep(lines, charCount, w, st);
      ScanFromInv(lines, charCount, w + 1, i + 5, WindowStep(lines, charCount, i, st));
    } else {
      ScanDone(lines, charCount, w, st);
    }
  }

  /**
   What the scan records. The start is -1 exactly when no window is
   content; otherwise it is the line the backward scan picks in the first
   content window (a non-blank line). The end is -1 exactly when no window
   follows a content window without being content itself; otherwise it is
   the line the forward scan picks in the last such window, and it lies
   after the start.
   */
  lemma ScanSpec(lines: seq<nat>, charCount: nat)
    ensures ScanResult(lines, charCount, Scan(lines, charCount))
  {
    ScanFromInv(lines, charCount, 0, 0, ScanState(-1, -1, false));
  }
}
