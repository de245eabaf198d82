/**
 The title line of a page: every captured `<title>` text followed by one
 space, in the order the pattern matched them, then a line break. The
 pattern itself is not modelled; its captures are the input.
 */
module Title {
  import opened Text

  function TitleLine(matches: seq<string>): string {
    JoinWith(matches, " ") + "\n"
  }

  /**
   What a title line holds: it ends in a line break, it is exactly "\n" when
   nothing matched, and capture `k` sits right after the captures before it
   (each with its space), followed by one space.
   */
  lemma {:induction false} TitleLineLayout(matches: seq<string>)
    ensures var t := TitleLine(matches);
            && |t| >= 1 && t[|t| - 1] == '\n'
            && (matches == [] <==> t == "\n")
            && forall k :: 0 <= k < |matches| ==>
                 var o := |JoinWith(matches[..k], " ")|;
                 && o + |matches[k]| + 1 < |t|
                 && t[o..o + |matches[k]|] == matches[k]
                 && t[o + |matches[k]|] == ' '
  {
    var t := TitleLine(matches);
    var j := JoinWith(matches, " ");
    if matches != [] {
      assert |j| >= 1;
    }
    forall k | 0 <= k < |matches|
      ensures var o := |JoinWith(matches[..k], " ")|;
              && o + |matches[k]| + 1 < |t|
              && t[o..o + |matches[k]|] == matches[k]
              && t[o + |matches[k]|] == ' '
    {
      JoinWithAt(matches, " ", k);
      var o := |JoinWith(matches[..k], " ")|;
      assert t[o..o + |matches[k]|] == j[o..o + |matches[k]|];
      assert t[o + |matches[k]|] == j[o + |matches[k]|..o + |matches[k]| + 1][0];
    }
  }

  /** getHTMLTitle once the title pattern has produced its captures. */
  method GetHTMLTitle(matches: seq<string>) returns (title: string)
    ensures title == TitleLine(matches)
    ensures |title| >= 1 && title[|title| - 1] == '\n'
    ensures matches == [] ==> title == "\n"
  {
    title := "";
    for i := 0 to |matches|
      invariant title == JoinWith(matches[..i], " ")
    {
      JoinWithAppend(matches[..i], [matches[i]], " ");
      assert matches[..i + 1] == matches[..i] + [matches[i]];
      title := title + matches[i] + " ";
    }
    assert matches[..|matches|] == matches;
    title := title + "\n";
    TitleLineLayout(matches);
  }
}
