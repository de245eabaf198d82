/**
 getKeywords: read the stopwords (none when the file cannot be opened),
 walk the tokens with the row/index cursor while filling wordMap, collect
 the map's keywords in whatever order the map yields them, and sort them.
 */
module Ranker {
  import opened Wrappers
  import opened Text
  import opened Stopwords
  import opened Keywords
  import opened Ranking

  /** `ks` holds every keyword of `m`, each exactly once, and nothing else. */
  ghost predicate Lists(ks: seq<Keyword>, m: map<string, Keyword>) {
    && (forall x :: x in ks ==> x.text in m && m[x.text] == x)
    && (forall w :: w in m ==> m[w] in ks)
    && (forall x :: multiset(ks)[x] <= 1)
  }

  /** A keyword found at two places of a list occurs in it at least twice. */
  lemma TwiceListed(ks: seq<Keyword>, i: nat, j: nat)
    requires i < j < |ks|
    ensures ks[i] == ks[j] ==> multiset(ks)[ks[i]] >= 2
  {
    assert ks == ks[..j] + ks[j..];
    assert ks[i] in ks[..j];
    assert ks[j] == ks[j..][0];
    assert multiset(ks) == multiset(ks[..j]) + multiset(ks[j..]);
  }

  /** A list of a map's keywords has no text twice. */
  lemma ListsUnique(ks: seq<Keyword>, m: map<string, Keyword>)
    requires Lists(ks, m)
    ensures UniqueTexts(ks)
  {
    forall i, j | 0 <= i < j < |ks| ensures ks[i].text != ks[j].text {
      TwiceListed(ks, i, j);
      assert ks[i] in ks && ks[j] in ks;
    }
  }

  /** Listing a map is a matter of which keywords, not of their order. */
  lemma ListsPermutation(a: seq<Keyword>, b: seq<Keyword>, m: map<string, Keyword>)
    requires Lists(a, m) && multiset(a) == multiset(b)
    ensures Lists(b, m)
  {
    forall x | x in b ensures x in a {
      assert x in multiset(b);
    }
    forall w | w in m ensures m[w] in b {
      assert m[w] in multiset(a);
    }
  }

  /** Two lists of the same map hold the same keywords. */
  lemma ListsSameMultiset(a: seq<Keyword>, b: seq<Keyword>, m: map<string, Keyword>)
    requires Lists(a, m) && Lists(b, m)
    ensures multiset(a) == multiset(b)
  {
    forall x ensures multiset(a)[x] == multiset(b)[x] {
      if x in a || x in b {
        assert x == m[x.text];
        assert x in a && x in b;
      }
    }
  }

  /**
   The ranked list is determined by the word map: any two sorted lists of
   it are equal, so the arbitrary order in which the map is read does not
   show in the result.
   */
  lemma RankingDetermined(a: seq<Keyword>, b: seq<Keyword>, m: map<string, Keyword>)
    requires Lists(a, m) && Lists(b, m) && Sorted(a) && Sorted(b)
    ensures a == b
  {
    ListsUnique(a, m);
    ListsSameMultiset(a, b, m);
    SortedUnique(a, b);
  }

  function SumCounts(ks: seq<Keyword>): int {
    if ks == [] then 0 else ks[0].count + SumCounts(ks[1..])
  }

  lemma {:induction false} SumCountsOccurrences(ks: seq<Keyword>, tokens: seq<string>, n: nat)
    requires n <= |tokens|
    requires forall i :: 0 <= i < |ks| ==> ks[i].count == Occurrences(tokens, ks[i].text, n)
    ensures SumCounts(ks) == OccurrenceSum(TextsOf(ks), tokens, n)
  {
    if ks != [] {
      SumCountsOccurrences(ks[1..], tokens, n);
      assert TextsOf(ks)[1..] == TextsOf(ks[1..]);
    }
  }

  /**
   The counts of the listed keywords add up to the number of counted
   tokens: every non-blank token that is not a stopword is counted once.
   */
  lemma CountsAddUp(ks: seq<Keyword>, tokens: seq<string>, stopwords: set<string>)
    requires Lists(ks, WordMap(tokens, stopwords, |tokens|))
    ensures SumCounts(ks) == CountedTokens(tokens, stopwords, |tokens|)
  {
    var n := |tokens|;
    var m := WordMap(tokens, stopwords, n);
    KeywordShape(tokens, stopwords, n);
    ListsUnique(ks, m);
    var texts := TextsOf(ks);
    forall k | 0 <= k < n && Counted(tokens[k], stopwords) ensures tokens[k] in texts {
      SeenOccurs(tokens, tokens[k], n, k);
      var i :| 0 <= i < |ks| && ks[i] == m[tokens[k]];
      assert texts[i] == tokens[k];
    }
    forall i | 0 <= i < |texts| ensures Counted(texts[i], stopwords) {
      assert ks[i] in ks;
    }
    forall i | 0 <= i < |ks| ensures ks[i].count == Occurrences(tokens, ks[i].text, n) {
      assert ks[i] in ks;
    }
    SumCountsOccurrences(ks, tokens, n);
    OccurrenceSumCounted(texts, tokens, stopwords, n);
  }

  /** The tokens of the line "AAAA BBBB AAAA CCCC", spaces included. */
  function ExampleTokens(): seq<string> {
    ["AAAA", " ", "BBBB", " ", "AAAA", " ", "CCCC"]
  }

  lemma ExampleCounted()
    ensures !Counted(" ", {"BBBB"}) && !Counted("BBBB", {"BBBB"})
    ensures Counted("AAAA", {"BBBB"}) && Counted("CCCC", {"BBBB"})
  {
    assert TrimLeft(" ") == TrimLeft(" "[1..]);
    assert Trim("AAAA") == "AAAA" && Trim("CCCC") == "CCCC";
  }

  lemma ExampleCursor()
    ensures CursorAt(ExampleTokens(), {"BBBB"}, 4) == Position(1, 2)
    ensures CursorAt(ExampleTokens(), {"BBBB"}, 6) == Position(1, 3)
  {
    ExampleCounted();
    var t := ExampleTokens();
    assert CursorAt(t, {"BBBB"}, 1) == Position(1, 2);
    assert CursorAt(t, {"BBBB"}, 2) == Position(1, 2);
    assert CursorAt(t, {"BBBB"}, 3) == Position(1, 2);
    assert CursorAt(t, {"BBBB"}, 5) == Position(1, 3);
  }

  lemma ExamplePositions()
    ensures PositionsOf(ExampleTokens(), {"BBBB"}, "AAAA", 7) == [Position(1, 1), Position(1, 2)]
    ensures PositionsOf(ExampleTokens(), {"BBBB"}, "CCCC", 7) == [Position(1, 3)]
    ensures Occurrences(ExampleTokens(), "AAAA", 7) == 2 && Occurrences(ExampleTokens(), "CCCC", 7) == 1
    ensures CountedTexts(ExampleTokens(), {"BBBB"}, 7) == {"AAAA", "CCCC"}
  {
    ExampleCounted();
    ExampleCursor();
    var t := ExampleTokens();
    assert PositionsOf(t, {"BBBB"}, "AAAA", 4) == [Position(1, 1)];
    assert PositionsOf(t, {"BBBB"}, "CCCC", 6) == [];
  }

  function ExampleRanking(): seq<Keyword> {
    [Keyword("AAAA", 2, [Position(1, 1), Position(1, 2)]), Keyword("CCCC", 1, [Position(1, 3)])]
  }

  lemma ExampleMap()
    ensures WordMap(ExampleTokens(), {"BBBB"}, 7) == map["AAAA" := ExampleRanking()[0], "CCCC" := ExampleRanking()[1]]
  {
    ExamplePositions();
  }

  lemma ExampleListed()
    ensures Lists(ExampleRanking(), map["AAAA" := ExampleRanking()[0], "CCCC" := ExampleRanking()[1]])
    ensures Sorted(ExampleRanking())
  {
    var r := ExampleRanking();
    assert multiset(r) == multiset{r[0], r[1]};
  }

  /**
   One line "AAAA BBBB AAAA CCCC" with BBBB a stopword: BBBB takes no
   index, AAAA is recorded at (1, 1) and (1, 2), CCCC at (1, 3), and AAAA
   ranks first.
   */
  lemma OneLineExample(ks: seq<Keyword>)
    requires Lists(ks, WordMap(ExampleTokens(), {"BBBB"}, 7)) && Sorted(ks)
    ensures ks == [Keyword("AAAA", 2, [Position(1, 1), Position(1, 2)]), Keyword("CCCC", 1, [Position(1, 3)])]
  {
    ExampleMap();
    ExampleListed();
    RankingDetermined(ks, ExampleRanking(), WordMap(ExampleTokens(), {"BBBB"}, 7));
  }

  /** getKeywords over the token texts of the main content. */
  method GetKeywords(tokens: seq<string>, stopwordsPath: string, files: map<string, string>)
    returns (keywords: seq<Keyword>)
    ensures var stopwords := EffectiveStopwords(stopwordsPath, files);
            Lists(keywords, WordMap(tokens, stopwords, |tokens|)) && Sorted(keywords)
  {
    var read := GetStopwords(stopwordsPath, files);
    var stopwords: set<string>;
    if read.Failure? {
      stopwords := {};
    } else {
      stopwords := read.value;
    }
    var wordMap := BuildWordMap(tokens, stopwords);
    KeywordShape(tokens, stopwords, |tokens|);
    var keyWords := CollectKeywords(wordMap);
    keywords := SortKeywords(keyWords);
    ListsPermutation(keyWords, keywords, wordMap);
  }

  /** The token loop of getKeywords: the cursor walk that fills the word map. */
  method BuildWordMap(tokens: seq<string>, stopwords: set<string>) returns (wordMap: map<string, Keyword>)
    ensures wordMap == WordMap(tokens, stopwords, |tokens|)
  {
    wordMap := map[];
    var row := 1;
    var index := 1;
    for k := 0 to |tokens|
      invariant wordMap == WordMap(tokens, stopwords, k)
      invariant Position(row, index) == CursorAt(tokens, stopwords, k)
    {
      var text := tokens[k];
      WordMapStep(tokens, stopwords, k);
      NewlineNotCounted(stopwords);
      if text == "\n" {
        if index != 1 {
          row := row + 1;
        }
        index := 1;
      }
      if Trim(text) == "" {
        continue;
      }
      if text !in stopwords {
        if text !in wordMap {
          wordMap := wordMap[text := Keyword(text, 0, [])];
        }
        var keyWord := wordMap[text];
        wordMap := wordMap[text := keyWord.(count := keyWord.count + 1,
                                            positions := keyWord.positions + [Position(row, index)])];
        index := index + 1;
      }
    }
  }

  /**
   The `range wordMap` loop: every keyword of the map appended once, in an
   order the map does not fix.
   */
  method CollectKeywords(wordMap: map<string, Keyword>) returns (keyWords: seq<Keyword>)
    requires forall w :: w in wordMap ==> wordMap[w].text == w
    ensures Lists(keyWords, wordMap)
  {
    keyWords := [];
    var unread := wordMap.Keys;
    while unread != {}
      invariant unread <= wordMap.Keys
      invariant forall x :: x in keyWords ==> x.text in wordMap && wordMap[x.text] == x && x.text !in unread
      invariant forall w :: w in wordMap ==> w in unread || wordMap[w] in keyWords
      invariant forall x :: multiset(keyWords)[x] <= 1
      decreases |unread|
    {
      var w :| w in unread;
      keyWords := keyWords + [wordMap[w]];
      unread := unread - {w};
    }
  }
}
