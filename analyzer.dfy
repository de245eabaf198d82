/**
 The Document of the analyzer: Init records the dictionary and stopword
 paths; LoadHTML extracts the main content of a page, segments it into
 words, and ranks the keywords.

 What lies outside the model is passed in as an Environment: the results
 of the two regular expressions, the segmenter (dictionary path and text
 to token texts) and the file system (path to file contents).
 */
module Analyzer {
  import opened Stopwords
  import opened Keywords
  import opened Ranking
  import opened Ranker
  import opened MainContent

  datatype Environment = Environment(
    titleMatches: string -> seq<string>,
    stripNoise: string -> string,
    segment: (string, string) -> seq<string>,
    files: map<string, string>)

  class Document {
    var mainContent: string
    var wordCount: int
    var keywords: seq<Keyword>
    var dict: string
    var stopwords: string

    /** A Document with every field at Go's zero value. */
    constructor ()
      ensures mainContent == "" && wordCount == 0 && keywords == []
      ensures dict == "" && stopwords == ""
    {
      mainContent := "";
      wordCount := 0;
      keywords := [];
      dict := "";
      stopwords := "";
    }

    method Init(dict: string, stopwords: string)
      modifies this
      ensures this.dict == dict && this.stopwords == stopwords
      ensures mainContent == old(mainContent) && wordCount == old(wordCount) && keywords == old(keywords)
    {
      this.dict := dict;
      this.stopwords := stopwords;
    }

    /**
     Load a page: the main content, the number of words in it, and its
     keywords, ranked. The counts of the keywords add up to the number of
     counted words, which is at most the number of words.
     */
    method LoadHTML(html: string, env: Environment)
      modifies this
      ensures mainContent == MainContentOf(env.titleMatches(html), env.stripNoise(html))
      ensures var words := env.segment(dict, mainContent);
              var sw := EffectiveStopwords(stopwords, env.files);
              && wordCount == |words|
              && Lists(keywords, WordMap(words, sw, |words|))
              && Sorted(keywords)
              && SumCounts(keywords) == CountedTokens(words, sw, |words|) <= wordCount
      ensures dict == old(dict) && stopwords == old(stopwords)
    {
      mainContent := GetMainContent(env.titleMatches(html), env.stripNoise(html));
      var words := env.segment(dict, mainContent);
      wordCount := |words|;
      keywords := GetKeywords(words, stopwords, env.files);
      CountsAddUp(keywords, words, EffectiveStopwords(stopwords, env.files));
      CountedAtMost(words, EffectiveStopwords(stopwords, env.files), |words|);
    }
  }
}
