/**
 Byte-string helpers the analyzer relies on: trimming white space, removing
 blanks, splitting text at line breaks and joining parts with a separator.
 A `string` stands for a Go byte string; white space is the ASCII set that
 Go's TrimSpace recognises (space, \t, \n, \v, \f, \r).
 */
module Text {

  predicate IsSpace(c: char) {
    c == ' ' || '\t' <= c <= '\r'
  }

  /** Every character is white space (the empty string included). */
  predicate IsBlank(s: string) {
    forall i :: 0 <= i < |s| ==> IsSpace(s[i])
  }

  function TrimLeft(s: string): string {
    if |s| > 0 && IsSpace(s[0]) then TrimLeft(s[1..]) else s
  }

  function TrimRight(s: string): string {
    if |s| > 0 && IsSpace(s[|s| - 1]) then TrimRight(s[..|s| - 1]) else s
  }

  /** Go's strings.TrimSpace: drop leading, then trailing white space. */
  function Trim(s: string): string {
    TrimRight(TrimLeft(s))
  }

  lemma {:induction false} TrimLeftSpec(s: string)
    ensures var r := TrimLeft(s);
            && |r| <= |s| && r == s[|s| - |r|..]
            && IsBlank(s[..|s| - |r|])
            && (r != [] ==> !IsSpace(r[0]))
  {
    if |s| > 0 && IsSpace(s[0]) {
      TrimLeftSpec(s[1..]);
      var r := TrimLeft(s);
      forall i | 0 <= i < |s| - |r| ensures IsSpace(s[i]) {
        if i > 0 {
          assert s[i] == s[1..][..|s| - 1 - |r|][i - 1];
        }
      }
    } else {
      assert s[..0] == [];
    }
  }

  lemma {:induction false} TrimRightSpec(s: string)
    ensures var r := TrimRight(s);
            && |r| <= |s| && r == s[..|r|]
            && IsBlank(s[|r|..])
            && (r != [] ==> !IsSpace(r[|r| - 1]))
  {
    if |s| > 0 && IsSpace(s[|s| - 1]) {
      TrimRightSpec(s[..|s| - 1]);
      var r := TrimRight(s);
      forall i | 0 <= i < |s| - |r| ensures IsSpace(s[|r|..][i]) {
        if i < |s| - 1 - |r| {
          assert s[|r|..][i] == s[..|s| - 1][|r|..][i];
        }
      }
    } else {
      assert s[|s|..] == [];
    }
  }

  /**
   Trimming yields the piece of the text left once the white space at
   either end is cut off; the piece has no white space at either end, and
   it is empty exactly when the text is all white space.
   */
  lemma TrimSpec(s: string)
    ensures var r := Trim(s);
            && |r| <= |s|
            && (exists a :: 0 <= a && a + |r| <= |s| && s[a..a + |r|] == r
                            && IsBlank(s[..a]) && IsBlank(s[a + |r|..]))
            && (r == [] <==> IsBlank(s))
            && (r != [] ==> !IsSpace(r[0]) && !IsSpace(r[|r| - 1]))
            && (forall c :: c in r ==> c in s)
  {
    var l := TrimLeft(s);
    var r := TrimRight(l);
    TrimLeftSpec(s);
    TrimRightSpec(l);
    TrimInside(s, l, r);
    var a := |s| - |l|;
    assert s[a..a + |r|] == l[..|r|];
    assert s[a + |r|..] == l[|r|..];
    if r == [] {
      assert l[|r|..] == l;
      assert |l| == 0;
      forall i | 0 <= i < |s| ensures IsSpace(s[i]) {
        assert s[i] == s[..|s| - |l|][i];
      }
    }
  }

  /** A suffix of a prefix holds only characters of the whole. */
  lemma TrimInside(s: string, l: string, r: string)
    requires |l| <= |s| && l == s[|s| - |l|..]
    requires |r| <= |l| && r == l[..|r|]
    ensures forall c :: c in r ==> c in s
  {
    forall c | c in r ensures c in s {
      var i :| 0 <= i < |r| && r[i] == c;
      assert s[|s| - |l| + i] == c;
    }
  }

  /** A line is blank when trimming leaves nothing. */
  predicate Blank(s: string) {
    Trim(s) == ""
  }

  lemma TrimIdempotent(s: string)
    ensures Trim(Trim(s)) == Trim(s)
  {
    TrimSpec(s);
  }

  lemma {:induction false} TrimLeftBlankPrefix(s: string, t: string)
    requires IsBlank(s)
    ensures TrimLeft(s + t) == TrimLeft(t)
    decreases |s|
  {
    if |s| > 0 {
      assert (s + t)[1..] == s[1..] + t;
      TrimLeftBlankPrefix(s[1..], t);
    } else {
      assert s + t == t;
    }
  }

  lemma {:induction false} TrimLeftAppend(s: string, t: string)
    requires !IsBlank(s)
    ensures TrimLeft(s + t) == TrimLeft(s) + t
    decreases |s|
  {
    assert |s| > 0;
    if IsSpace(s[0]) {
      assert (s + t)[1..] == s[1..] + t;
      assert !IsBlank(s[1..]) by {
        var i :| 0 <= i < |s| && !IsSpace(s[i]);
        assert s[1..][i - 1] == s[i];
      }
      TrimLeftAppend(s[1..], t);
    }
  }

  lemma TrimRightDropsSpace(l: string, c: char)
    requires IsSpace(c)
    ensures TrimRight(l + [c]) == TrimRight(l)
  {
    assert (l + [c])[..|l|] == l;
  }

  /** Trimming ignores a line's terminating line break. */
  lemma {:induction false} TrimDropsNewline(s: string)
    ensures Trim(s + "\n") == Trim(s)
  {
    if IsBlank(s) {
      TrimLeftBlankPrefix(s, "\n");
      assert TrimLeft("\n"[1..]) == "";
      assert TrimLeft(s + "\n") == "";
      TrimSpec(s);
    } else {
      TrimLeftAppend(s, "\n");
      TrimRightDropsSpace(TrimLeft(s), '\n');
      assert TrimLeft(s + "\n") == TrimLeft(s) + ['\n'];
    }
  }

  /** Go's strings.Replace(s, " ", "", -1): every space character removed. */
  function RemoveSpaces(s: string): string {
    if |s| == 0 then "" else (if s[0] == ' ' then "" else [s[0]]) + RemoveSpaces(s[1..])
  }

  /** Removing spaces keeps every other character, as often as it occurs. */
  lemma {:induction false} RemoveSpacesSpec(s: string)
    ensures multiset(RemoveSpaces(s)) == multiset(s)[' ' := 0]
  {
    if |s| > 0 {
      assert s == [s[0]] + s[1..];
      RemoveSpacesSpec(s[1..]);
    }
  }

  /** A non-blank line keeps at least one character once trimmed and stripped of spaces. */
  lemma NonBlankHasWeight(s: string)
    requires !Blank(s)
    ensures |RemoveSpaces(Trim(s))| > 0
  {
    var r := Trim(s);
    TrimSpec(s);
    RemoveSpacesSpec(r);
    assert r[0] in multiset(r);
    assert r[0] in multiset(RemoveSpaces(r));
  }

  /** Index of the first line break at or after `i`, or the length when there is none. */
  function NewlineFrom(s: string, i: nat): (k: nat)
    requires i <= |s|
    ensures i <= k <= |s|
    decreases |s| - i
  {
    if i == |s| || s[i] == '\n' then i else NewlineFrom(s, i + 1)
  }

  /** Index of the first line break, or the length when there is none. */
  function NewlineIndex(s: string): (k: nat)
    ensures k <= |s|
  {
    NewlineFrom(s, 0)
  }

  /** The search stops at a line break or at the end, and passes no line break. */
  lemma {:induction false} NewlineFromSpec(s: string, i: nat)
    requires i <= |s|
    ensures var k := NewlineFrom(s, i);
            && (k < |s| ==> s[k] == '\n')
            && forall j :: i <= j < k ==> s[j] != '\n'
    decreases |s| - i
  {
    if i < |s| && s[i] != '\n' {
      NewlineFromSpec(s, i + 1);
    }
  }

  /** The index found holds a line break, unless it is the length. */
  lemma NewlineAt(s: string)
    ensures NewlineIndex(s) < |s| ==> s[NewlineIndex(s)] == '\n'
  {
    NewlineFromSpec(s, 0);
  }

  /** The first line break comes no later than any line break. */
  lemma NewlineIndexBefore(s: string, j: nat)
    requires j < |s| && s[j] == '\n'
    ensures NewlineIndex(s) <= j
  {
    NewlineFromSpec(s, 0);
  }

  lemma NewlineIndexFirst(s: string)
    ensures '\n' !in s[..NewlineIndex(s)]
  {
    NewlineFromSpec(s, 0);
    var k := NewlineIndex(s);
    forall j | 0 <= j < k ensures s[..k][j] != '\n' {
      assert s[..k][j] == s[j];
    }
  }

  /**
   An index that holds a line break (or is the length) with no line break
   before it is the index of the first line break.
   */
  lemma NewlineIndexUnique(s: string, k: nat)
    requires k <= |s| && (k < |s| ==> s[k] == '\n')
    requires forall j :: 0 <= j < k ==> s[j] != '\n'
    ensures NewlineIndex(s) == k
  {
    NewlineFromSpec(s, 0);
  }

  lemma NewlineIndexAppend(a: string, b: string)
    requires NewlineIndex(a) < |a|
    ensures NewlineIndex(a + b) == NewlineIndex(a)
  {
    var k := NewlineIndex(a);
    NewlineFromSpec(a, 0);
    forall j | 0 <= j < k ensures (a + b)[j] != '\n' {
      assert (a + b)[j] == a[j];
    }
    NewlineIndexUnique(a + b, k);
  }

  lemma NewlineIndexOfLine(line: string, rest: string)
    requires '\n' !in line
    ensures NewlineIndex(line + "\n" + rest) == |line|
  {
    var s := line + "\n" + rest;
    forall j | 0 <= j < |line| ensures s[j] != '\n' {
      assert s[j] == line[j];
    }
    NewlineIndexUnique(s, |line|);
  }

  /** Go's strings.Split(s, "\n"): the text between line breaks; always at least one part. */
  function SplitLines(s: string): (lines: seq<string>)
    ensures |lines| >= 1
    decreases |s|
  {
    if NewlineIndex(s) == |s| then [s]
    else [s[..NewlineIndex(s)]] + SplitLines(s[NewlineIndex(s) + 1..])
  }

  /** No part of a split text holds a line break. */
  lemma {:induction false} SplitLinesNoBreak(s: string)
    ensures forall k :: 0 <= k < |SplitLines(s)| ==> '\n' !in SplitLines(s)[k]
    decreases |s|
  {
    var k := NewlineIndex(s);
    NewlineIndexFirst(s);
    if k < |s| {
      SplitLinesNoBreak(s[k + 1..]);
    } else {
      assert s[..k] == s;
    }
  }

  /** The inverse of SplitLines: the parts with a line break between neighbours. */
  function JoinLines(lines: seq<string>): string
    requires |lines| >= 1
  {
    if |lines| == 1 then lines[0] else lines[0] + "\n" + JoinLines(lines[1..])
  }

  lemma {:induction false} JoinSplit(s: string)
    ensures JoinLines(SplitLines(s)) == s
    decreases |s|
  {
    var k := NewlineIndex(s);
    if k < |s| {
      var head, tail := s[..k], s[k + 1..];
      calc {
        JoinLines(SplitLines(s));
        { SplitLinesCons(s, k); }
        JoinLines([head] + SplitLines(tail));
        { JoinLinesCons(head, SplitLines(tail)); }
        head + "\n" + JoinLines(SplitLines(tail));
        { JoinSplit(tail); }
        head + "\n" + tail;
        { NewlineAt(s); CutAt(s, k); }
        s;
      }
    }
  }

  /** A text is the part before position `k`, the character there, and the rest. */
  lemma CutAt(s: string, k: nat)
    requires k < |s|
    ensures s == s[..k] + [s[k]] + s[k + 1..]
  {
  }

  /** Splitting at the first line break. */
  lemma SplitLinesCons(s: string, k: nat)
    requires k == NewlineIndex(s) && k < |s|
    ensures SplitLines(s) == [s[..k]] + SplitLines(s[k + 1..])
  {
  }

  lemma JoinLinesCons(line: string, rest: seq<string>)
    requires |rest| >= 1
    ensures JoinLines([line] + rest) == line + "\n" + JoinLines(rest)
  {
    assert ([line] + rest)[1..] == rest;
  }

  lemma {:induction false} SplitJoin(lines: seq<string>)
    requires |lines| >= 1
    requires forall k :: 0 <= k < |lines| ==> '\n' !in lines[k]
    ensures SplitLines(JoinLines(lines)) == lines
  {
    if |lines| > 1 {
      var head, rest := lines[0], JoinLines(lines[1..]);
      var s := head + "\n" + rest;
      assert JoinLines(lines) == s;
      NewlineIndexOfLine(head, rest);
      SplitLinesCons(s, |head|);
      assert s[..|head|] == head;
      assert s[|head| + 1..] == rest;
      SplitJoin(lines[1..]);
      assert lines == [head] + lines[1..];
    } else {
      NewlineAt(lines[0]);
    }
  }

  /** Every part followed by the separator, in order. */
  function JoinWith(parts: seq<string>, sep: string): string
  {
    if parts == [] then "" else parts[0] + sep + JoinWith(parts[1..], sep)
  }

  lemma {:induction false} JoinWithAppend(a: seq<string>, b: seq<string>, sep: string)
    ensures JoinWith(a + b, sep) == JoinWith(a, sep) + JoinWith(b, sep)
  {
    if a == [] {
      assert a + b == b;
    } else {
      assert (a + b)[1..] == a[1..] + b;
      JoinWithAppend(a[1..], b, sep);
    }
  }

  /**
   Decoding a joined text: part `k` starts right after the parts before it
   and is followed by the separator.
   */
  lemma JoinWithAt(parts: seq<string>, sep: string, k: nat)
    requires k < |parts|
    ensures var joined := JoinWith(parts, sep);
            var o := |JoinWith(parts[..k], sep)|;
            && o + |parts[k]| + |sep| <= |joined|
            && joined[o..o + |parts[k]|] == parts[k]
            && joined[o + |parts[k]|..o + |parts[k]| + |sep|] == sep
  {
    assert parts == parts[..k] + ([parts[k]] + parts[k + 1..]);
    JoinWithAppend(parts[..k], [parts[k]] + parts[k + 1..], sep);
    assert JoinWith([parts[k]] + parts[k + 1..], sep) == parts[k] + sep + JoinWith(parts[k + 1..], sep);
  }

  /** Lines each followed by a line break split back into those lines and a final empty one. */
  lemma {:induction false} JoinWithNewlines(parts: seq<string>)
    requires forall k :: 0 <= k < |parts| ==> '\n' !in parts[k]
    ensures JoinWith(parts, "\n") == JoinLines(parts + [""])
    ensures SplitLines(JoinWith(parts, "\n")) == parts + [""]
  {
    if parts != [] {
      JoinWithNewlines(parts[1..]);
      assert (parts + [""])[1..] == parts[1..] + [""];
    }
    SplitJoin(parts + [""]);
  }
}
