/**
 getStopwrods: the stopword file is read line by line up to each line
 break; every line read is trimmed and added to the set. Reading the final
 piece that has no line break reports end of file, and the loop stops
 before that piece is added. Opening the file can fail; the file system is
 modelled as a map from path to contents.
 */
module Stopwords {
  import opened Text
  import opened Wrappers

  datatype Error = CannotOpen(path: string)

  /**
   The trimmed text of every line of `contents` that ends with a line break:
   every part of the split text but the last (a blank line gives "").
   */
  function StopwordSet(contents: string): set<string> {
    var lines := SplitLines(contents);
    set m | 0 <= m < |lines| - 1 :: Trim(lines[m])
  }

  /** Text without a line break holds no stopword. */
  lemma NoLineNoStopword(contents: string)
    requires NewlineIndex(contents) == |contents|
    ensures StopwordSet(contents) == {}
  {
    assert SplitLines(contents) == [contents];
  }

  /**
   Reading one line up to its line break: its trimmed text, then the
   stopwords of the rest of the file.
   */
  lemma StopwordSetCons(contents: string, k: nat)
    requires k == NewlineIndex(contents) && k < |contents|
    ensures StopwordSet(contents) == {Trim(contents[..k])} + StopwordSet(contents[k + 1..])
  {
    var lines, tail := SplitLines(contents), SplitLines(contents[k + 1..]);
    SplitLinesCons(contents, k);
    assert lines[0] == contents[..k];
    forall w | w in StopwordSet(contents)
      ensures w in {Trim(contents[..k])} + StopwordSet(contents[k + 1..])
    {
      var m :| 0 <= m < |lines| - 1 && Trim(lines[m]) == w;
      if m > 0 {
        assert lines[m] == tail[m - 1];
      }
    }
    forall w | w in StopwordSet(contents[k + 1..])
      ensures w in StopwordSet(contents)
    {
      var m :| 0 <= m < |tail| - 1 && Trim(tail[m]) == w;
      assert lines[m + 1] == tail[m];
    }
  }

  /** A last line without a line break adds nothing to the stopwords. */
  lemma {:induction false} UnterminatedLineIgnored(contents: string, last: string)
    requires contents == "" || contents[|contents| - 1] == '\n'
    requires '\n' !in last
    ensures StopwordSet(contents + last) == StopwordSet(contents)
    decreases |contents|
  {
    if contents == "" {
      assert contents + last == last;
      NewlineAt(last);
      NoLineNoStopword(last);
      NoLineNoStopword(contents);
    } else {
      var k := NewlineIndex(contents);
      NewlineIndexBefore(contents, |contents| - 1);
      NewlineIndexAppend(contents, last);
      var s := contents + last;
      calc {
        StopwordSet(s);
        { StopwordSetCons(s, k); }
        ({Trim(s[..k])} + StopwordSet(s[k + 1..]));
        { assert s[..k] == contents[..k];
          assert s[k + 1..] == contents[k + 1..] + last;
          UnterminatedLineIgnored(contents[k + 1..], last); }
        ({Trim(contents[..k])} + StopwordSet(contents[k + 1..]));
        { StopwordSetCons(contents, k); }
        StopwordSet(contents);
      }
    }
  }

  /** A line and its line break put the line's trimmed text in front of the rest's stopwords. */
  lemma StopwordsOfLine(line: string, rest: string)
    requires '\n' !in line
    ensures StopwordSet(line + "\n" + rest) == {Trim(line)} + StopwordSet(rest)
  {
    var c := line + "\n" + rest;
    NewlineIndexOfLine(line, rest);
    StopwordSetCons(c, |line|);
    assert c[..|line|] == line && c[|line| + 1..] == rest;
  }

  /** "the", a blank line and an unterminated "of": the stopwords are "the" and "". */
  lemma StopwordExample()
    ensures StopwordSet("the\n \nof") == {"the", ""}
  {
    var the, blank, of := "the", " ", "of";
    assert Trim(the) == "the";
    assert TrimLeft(blank) == TrimLeft(blank[1..]);
    StopwordsOfLine(blank, of);
    StopwordsOfLine(the, blank + "\n" + of);
    NoLineNoStopword(of);
    assert the + "\n" + (blank + "\n" + of) == "the\n \nof";
  }

  /** A line break ends the word read before it; the break itself is trimmed away. */
  lemma ReadLine(rest: string, k: nat)
    requires k == NewlineIndex(rest) && k < |rest|
    ensures Trim(rest[..k + 1]) == Trim(rest[..k])
  {
    NewlineAt(rest);
    assert rest[..k + 1] == rest[..k] + "\n";
    TrimDropsNewline(rest[..k]);
  }

  /** getStopwrods over a file system given as a map from path to contents. */
  method GetStopwords(path: string, files: map<string, string>) returns (r: Result<set<string>, Error>)
    ensures path !in files ==> r == Failure(CannotOpen(path))
    ensures path in files ==> r == Success(StopwordSet(files[path]))
  {
    if path !in files {
      return Failure(CannotOpen(path));
    }
    var rest := files[path];
    var stopwords: set<string> := {};
    while true
      invariant stopwords + StopwordSet(rest) == StopwordSet(files[path])
      decreases |rest|
    {
      var k := NewlineIndex(rest);
      var word: string;
      var eof: bool;
      if k < |rest| {
        ReadLine(rest, k);
        StopwordSetCons(rest, k);
        word, rest, eof := rest[..k + 1], rest[k + 1..], false;
      } else {
        NoLineNoStopword(rest);
        word, rest, eof := rest, "", true;
      }
      word := Trim(word);
      if eof {
        break;
      }
      stopwords := stopwords + {word};
    }
    return Success(stopwords);
  }

  /** The stopwords getKeywords uses: those read from the file, or none when it cannot be opened. */
  function EffectiveStopwords(path: string, files: map<string, string>): (sw: set<string>)
    ensures path !in files ==> sw == {}
  {
    if path in files then StopwordSet(files[path]) else {}
  }
}
