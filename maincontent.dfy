/**
 getMainContent: the title line, then every non-blank line of the stripped
 page that lies between the start and end lines found by the density scan,
 trimmed and followed by a line break, in page order. When no window is
 content both bounds stay -1 and every non-blank line is kept.

 The two regular expressions (title captures, removal of tags, head,
 script, style and noscript blocks and "&nbsp") are not modelled: their
 results are the inputs `titleMatches` and `stripped`.
 */
module MainContent {
  import opened Text
  import opened Title
  import opened Windows

  /** Line `k` lies in the kept range; an end of -1 leaves the range open. */
  predicate InRange(k: int, startPos: int, endPos: int) {
    k >= startPos && (k <= endPos || endPos == -1)
  }

  /** Line `k` goes to the output: it is in range and not blank. */
  predicate Kept(lines: seq<string>, startPos: int, endPos: int, k: nat)
    requires k < |lines|
  {
    InRange(k, startPos, endPos) && Trim(lines[k]) != ""
  }

  /** The trimmed kept lines among the first `n`, in order. */
  function Emitted(lines: seq<string>, startPos: int, endPos: int, n: nat): seq<string>
    requires n <= |lines|
  {
    if n == 0 then []
    else Emitted(lines, startPos, endPos, n - 1)
         + (if Kept(lines, startPos, endPos, n - 1) then [Trim(lines[n - 1])] else [])
  }

  /** The numbers of the kept lines among the first `n`, in order. */
  function KeptLines(lines: seq<string>, startPos: int, endPos: int, n: nat): seq<nat>
    requires n <= |lines|
  {
    if n == 0 then []
    else KeptLines(lines, startPos, endPos, n - 1)
         + (if Kept(lines, startPos, endPos, n - 1) then [n - 1] else [])
  }

  /**
   The output lines are exactly the kept lines, trimmed, each once and in
   the order of the page.
   */
  lemma {:induction false} EmittedSpec(lines: seq<string>, startPos: int, endPos: int, n: nat)
    requires n <= |lines|
    ensures var ks := KeptLines(lines, startPos, endPos, n);
            var out := Emitted(lines, startPos, endPos, n);
            && |out| == |ks|
            && (forall m :: 0 <= m < |ks| ==>
                  ks[m] < n && Kept(lines, startPos, endPos, ks[m]) && out[m] == Trim(lines[ks[m]]))
            && (forall m, m' :: 0 <= m < m' < |ks| ==> ks[m] < ks[m'])
            && (forall k :: 0 <= k < n && Kept(lines, startPos, endPos, k) ==> k in ks)
  {
    if n > 0 {
      EmittedSpec(lines, startPos, endPos, n - 1);
    }
  }

  /** The body after the title: each output line followed by a line break. */
  function Body(lines: seq<string>, sc: ScanState): string {
    JoinWith(Emitted(lines, sc.startPos, sc.endPos, |lines|), "\n")
  }

  /** The scan bounds for the stripped page. */
  function Bounds(stripped: string): ScanState {
    Scan(Weights(SplitLines(stripped)), |stripped|)
  }

  /** The main content of a page, given its title captures and its stripped text. */
  function MainContentOf(titleMatches: seq<string>, stripped: string): string {
    TitleLine(titleMatches) + Body(SplitLines(stripped), Bounds(stripped))
  }

  /** No output line is empty, holds a line break or starts or ends with white space. */
  lemma {:induction false} EmittedShape(lines: seq<string>, startPos: int, endPos: int, n: nat)
    requires n <= |lines|
    requires forall k :: 0 <= k < |lines| ==> '\n' !in lines[k]
    ensures forall m :: 0 <= m < |Emitted(lines, startPos, endPos, n)| ==>
              var l := Emitted(lines, startPos, endPos, n)[m];
              && l != "" && '\n' !in l && !IsSpace(l[0]) && !IsSpace(l[|l| - 1])
  {
    if n > 0 {
      EmittedShape(lines, startPos, endPos, n - 1);
      TrimSpec(lines[n - 1]);
    }
  }

  /**
   Splitting a body at its line breaks gives back the output lines and a
   final empty part; a non-empty body ends with a line break.
   */
  lemma BodyLayout(lines: seq<string>, sc: ScanState)
    requires forall k :: 0 <= k < |lines| ==> '\n' !in lines[k]
    ensures var out := Emitted(lines, sc.startPos, sc.endPos, |lines|);
            var body := Body(lines, sc);
            && SplitLines(body) == out + [""]
            && (forall m :: 0 <= m < |out| ==> out[m] != "" && '\n' !in out[m])
            && (body != "" ==> body[|body| - 1] == '\n')
  {
    var out := Emitted(lines, sc.startPos, sc.endPos, |lines|);
    EmittedShape(lines, sc.startPos, sc.endPos, |lines|);
    JoinWithNewlines(out);
    var body := Body(lines, sc);
    if out != [] {
      var last := out[|out| - 1];
      assert out == out[..|out| - 1] + [last];
      JoinWithAppend(out[..|out| - 1], [last], "\n");
      assert JoinWith([last], "\n") == last + "\n";
    }
  }

  /**
   The layout of the main content: the title line, then the output lines,
   each followed by a line break, so that splitting the body at line breaks
   gives back the output lines and a final empty part. The content always
   ends with a line break.
   */
  lemma MainContentLayout(titleMatches: seq<string>, stripped: string)
    ensures var content := MainContentOf(titleMatches, stripped);
            var lines := SplitLines(stripped);
            var sc := Bounds(stripped);
            var out := Emitted(lines, sc.startPos, sc.endPos, |lines|);
            && content == TitleLine(titleMatches) + Body(lines, sc)
            && SplitLines(Body(lines, sc)) == out + [""]
            && (forall m :: 0 <= m < |out| ==> out[m] != "" && '\n' !in out[m])
            && content[|content| - 1] == '\n'
  {
    var lines := SplitLines(stripped);
    var sc := Bounds(stripped);
    SplitLinesNoBreak(stripped);
    BodyLayout(lines, sc);
    TitleLineLayout(titleMatches);
  }

  /**
   Without any content window both bounds stay -1 and the output holds
   every non-blank line of the page.
   */
  lemma FallbackKeepsAll(titleMatches: seq<string>, stripped: string)
    requires forall u: nat :: !DenseWindow(Weights(SplitLines(stripped)), |stripped|, u)
    ensures Bounds(stripped) == ScanState(-1, -1, Bounds(stripped).inContent)
    ensures var lines := SplitLines(stripped);
            forall k :: 0 <= k < |lines| ==> (Kept(lines, -1, -1, k) <==> !Blank(lines[k]))
  {
    var lines := SplitLines(stripped);
    ScanSpec(Weights(lines), |stripped|);
  }

  /** The two bounds: an end line is only ever set after a start line. */
  lemma BoundsOrder(stripped: string)
    ensures var sc := Bounds(stripped);
            && (sc.startPos == -1 ==> sc.endPos == -1)
            && (sc.endPos != -1 ==> 0 <= sc.startPos < sc.endPos < |SplitLines(stripped)|)
            && (sc.startPos != -1 ==> 0 <= sc.startPos < |SplitLines(stripped)| && !Blank(SplitLines(stripped)[sc.startPos]))
  {
    var lines := SplitLines(stripped);
    var w := Weights(lines);
    var sc := Bounds(stripped);
    ScanSpec(w, |stripped|);
    if sc.startPos != -1 {
      WeightAt(lines, sc.startPos);
      BlankIsWeightless(lines[sc.startPos]);
    }
  }

  /** The weight of the window at line `i` (the first inner loop of the scan). */
  method WindowCharCount(lines: seq<string>, i: nat) returns (tmpCharCount: nat)
    ensures tmpCharCount == WindowWeight(Weights(lines), i, 5)
  {
    ghost var w := Weights(lines);
    tmpCharCount := 0;
    var j := 0;
    while j < 5 && i + j < |lines|
      invariant 0 <= j <= 5
      invariant tmpCharCount == WindowWeight(w, i, j)
    {
      var line := Trim(lines[i + j]);
      TrimIdempotent(lines[i + j]);
      WeightAt(lines, i + j);
      if Trim(line) != "" {
        tmpCharCount := tmpCharCount + |RemoveSpaces(line)|;
      }
      j := j + 1;
    }
    if j < 5 {
      WeightPastEnd(w, i, j);
    }
  }

  /** A line of the page is blank exactly when its weight is zero. */
  lemma LineBlank(lines: seq<string>, k: nat)
    requires k < |lines|
    ensures Empty(Weights(lines)[k]) <==> Trim(lines[k]) == ""
    ensures Trim(Trim(lines[k])) == Trim(lines[k])
  {
    WeightAt(lines, k);
    BlankIsWeightless(lines[k]);
    TrimIdempotent(lines[k]);
  }

  /** The start line searched backwards in the first content window at line `i`. */
  method SearchStart(lines: seq<string>, i: nat) returns (startPos: int)
    ensures startPos == BlockStart(Weights(lines), i)
  {
    ghost var w := Weights(lines);
    startPos := -1;
    var found := false;
    var emptyLine := 0;
    var j := 4;
    while j >= 0
      invariant -1 <= j <= 4 && emptyLine < 2
      invariant BackScan(w, i, j, BackState(startPos, found, emptyLine)) == BackScan(w, i, 4, BackState(-1, false, 0))
      decreases j + 1
    {
      BackUnfold(w, i, j, BackState(startPos, found, emptyLine));
      if i + j >= |lines| {
        j := j - 1;
        continue;
      }
      ghost var next := BackNext(w, i, j, BackState(startPos, found, emptyLine));
      var line := Trim(lines[i + j]);
      assert Empty(w[i + j]) <==> line == "" by {
        LineBlank(lines, i + j);
      }
      if line != "" {
        startPos := i + j;
        found := true;
      }
      if found {
        if line == "" {
          emptyLine := emptyLine + 1;
        } else {
          emptyLine := 0;
        }
      }
      assert BackState(startPos, found, emptyLine) == next;
      if emptyLine >= 2 {
        break;
      }
      j := j - 1;
    }
  }

  /** The end line searched forwards in the window at line `i` after the content. */
  method SearchEnd(lines: seq<string>, i: nat) returns (endPos: int)
    ensures endPos == BlockEnd(Weights(lines), i)
  {
    ghost var w := Weights(lines);
    endPos := i;
    var emptyLine := 0;
    var j := 0;
    while j < 5 && i + j < |lines|
      invariant 0 <= j <= 5 && emptyLine < 2
      invariant ForwardScan(w, i, j, ForwardState(endPos, emptyLine)) == ForwardScan(w, i, 0, ForwardState(i, 0))
    {
      ForwardUnfold(w, i, j, ForwardState(endPos, emptyLine));
      var line := Trim(lines[i + j]);
      assert Empty(w[i + j]) <==> Trim(line) == "" by {
        LineBlank(lines, i + j);
      }
      if Trim(line) == "" {
        emptyLine := emptyLine + 1;
      } else {
        endPos := i + j;
        emptyLine := 0;
      }
      if emptyLine >= 2 {
        break;
      }
      j := j + 1;
    }
  }

  /** The density scan of getMainContent over the stripped page's lines. */
  method ScanWindows(lines: seq<string>, charCount: nat) returns (startPos: int, endPos: int)
    ensures var sc := Scan(Weights(lines), charCount);
            startPos == sc.startPos && endPos == sc.endPos
  {
    ghost var w := Weights(lines);
    startPos := -1;
    endPos := -1;
    var flag2 := false;
    var i := 0;
    while i < |lines|
      invariant ScanFrom(w, charCount, i, ScanState(startPos, endPos, flag2)) == Scan(w, charCount)
      decreases |lines| - i
    {
      ghost var before := ScanState(startPos, endPos, flag2);
      var tmpCharCount := WindowCharCount(lines, i);
      if 50 * tmpCharCount > charCount {
        flag2 := true;
        if startPos < 0 {
          startPos := SearchStart(lines, i);
        }
      } else if flag2 {
        flag2 := false;
        endPos := SearchEnd(lines, i);
      }
      assert ScanState(startPos, endPos, flag2) == WindowStep(w, charCount, i, before);
      i := i + 5;
    }
  }

  /** One more line read by the output loop. */
  lemma EmittedStep(lines: seq<string>, startPos: int, endPos: int, k: nat)
    requires k < |lines|
    ensures var done := JoinWith(Emitted(lines, startPos, endPos, k), "\n");
            JoinWith(Emitted(lines, startPos, endPos, k + 1), "\n")
            == if Kept(lines, startPos, endPos, k) then done + Trim(lines[k]) + "\n" else done
  {
    var done := Emitted(lines, startPos, endPos, k);
    if Kept(lines, startPos, endPos, k) {
      JoinWithAppend(done, [Trim(lines[k])], "\n");
      assert JoinWith([Trim(lines[k])], "\n") == Trim(lines[k]) + "\n";
    } else {
      assert done + [] == done;
    }
  }

  /** The output loop: every kept line, trimmed, followed by a line break. */
  method CollectLines(lines: seq<string>, startPos: int, endPos: int) returns (mainCount: string)
    ensures mainCount == JoinWith(Emitted(lines, startPos, endPos, |lines|), "\n")
  {
    mainCount := "";
    for k := 0 to |lines|
      invariant mainCount == JoinWith(Emitted(lines, startPos, endPos, k), "\n")
    {
      EmittedStep(lines, startPos, endPos, k);
      if k >= startPos && (k <= endPos || endPos == -1) {
        var line := Trim(lines[k]);
        if line != "" {
          mainCount := mainCount + line + "\n";
        }
      }
    }
  }

  /** getMainContent once the title captures and the stripped page are known. */
  method GetMainContent(titleMatches: seq<string>, stripped: string) returns (content: string)
    ensures content == MainContentOf(titleMatches, stripped)
  {
    var title := GetHTMLTitle(titleMatches);
    var lines := SplitLines(stripped);
    var charCount := |stripped|;
    var startPos, endPos := ScanWindows(lines, charCount);
    var mainCount := CollectLines(lines, startPos, endPos);
    content := title + mainCount;
  }
}
