# Document analysis of gososo, modelled in Dafny

This project models the document analyzer of the gososo search engine
(`analyzer/document.go`). A `Document` is given a page of HTML. The
analyzer does four things with it:

- **Title builder** (`getHTMLTitle`): every captured `<title>` text, each
  followed by one space, then a line break.
- **Main-content extractor** (`getMainContent`): the page is stripped of
  markup and split into lines, and the lines are scanned in windows of
  five. Each line weighs the characters of its trimmed text other than
  `' '` (a tab inside a line still counts). A window is content when its
  lines weigh more than 2% of the page length. The first content window
  fixes a start line. Every change from a content window to a non-content
  window fixes the end line again. The result is the title line followed
  by every trimmed non-blank line in the range, each ending in a line
  break. Without any content window, every non-blank line is kept.
- **Stopword parser** (`getStopwrods`): the trimmed text of every line of
  the stopword file that ends with a line break.
- **Keyword ranker** (`getKeywords`): the main content's tokens are walked
  with a row/index cursor. Blank tokens and stopwords are skipped. Each
  other token is recorded at the cursor under its exact text. The keywords
  are then sorted.

Modules, one per file:

- `Text`: Go's `TrimSpace`, `Split` and `Replace` on strings.
- `Title`: the title line.
- `Windows`: the density scan as functions over line weights, with the
  lemmas that say what it finds.
- `MainContent`: the scan and the output loop as methods, proved equal to
  those functions.
- `Stopwords`: the stopword parser.
- `Keywords`: the cursor and the word map as functions of the tokens.
- `Ranking`: the ranking order and the sort.
- `Ranker`: `getKeywords` as a method.
- `Analyzer`: the `Document` class.
- `Wrappers`: the `Result` type that `GetStopwords` returns.

The regular expressions, the segmenter and the file system sit outside the
model. They are passed in as an `Environment`:

- the title captures of a page;
- the stripped text of a page;
- the token texts of a text for a dictionary;
- a map from path to file contents.

## Model

| member | source | states |
|---|---|---|
| Text.TrimSpec | analyzer/document.go:72 | TrimSpace returns the contiguous piece of the text left after cutting white space from both ends; the piece has no white space at either end and is empty exactly when the text is all white space |
| Text.TrimDropsNewline | analyzer/document.go:216-217 | a line read with its terminating line break trims to the same word as the line without it |
| Text.RemoveSpacesSpec | analyzer/document.go:75 | removing spaces keeps every other character as often as it occurs |
| Text.JoinSplit | analyzer/document.go:59 | splitting at line breaks loses nothing: joining the parts with line breaks gives the text back |
| Text.SplitJoin | analyzer/document.go:59 | splitting lines joined with line breaks gives back the lines when none holds a line break |
| Text.SplitLinesNoBreak | analyzer/document.go:59 | no line of a split text holds a line break |
| Title.TitleLineLayout | analyzer/document.go:152-163 | the title line ends with a line break, is exactly "\n" when nothing matched, and holds capture k, followed by one space, right after the captures before it |
| Title.GetHTMLTitle | analyzer/document.go:152-163 | the title-building loop yields the title line: captures in match order, each followed by a space, then "\n" |
| Windows.BlankIsWeightless | analyzer/document.go:72-78 | a line adds weight to its window exactly when it is not blank |
| Windows.WeightAt | analyzer/document.go:72-78 | the weight the scan uses for line k is the weight of that line |
| Windows.BlockStartSpec | analyzer/document.go:88-113 | in a window with text, the backward scan picks a non-blank line of that window, at or above the window's last non-blank line, with no two consecutive blank lines between them, and preceded by two blank lines unless it reaches the window's first line |
| Windows.BlockEndSpec | analyzer/document.go:116-133 | the forward scan picks a line of the window: the last non-blank line before the first two consecutive blank lines, or the window's first line when the window opens with blank lines |
| Windows.ScanSpec | analyzer/document.go:63-135 | the start is -1 exactly when no window is content, and otherwise the line picked in the first content window; the end is -1 exactly when no content window is followed by a non-content one, and otherwise it is the line picked in the last such window, inside that window and after the start |
| MainContent.WindowCharCount | analyzer/document.go:68-79 | the first inner loop computes the window's weight, the lines past the end counting nothing |
| MainContent.SearchStart | analyzer/document.go:88-113 | the backward loop, with its skipped offsets and its break, computes the start the backward scan defines |
| MainContent.SearchEnd | analyzer/document.go:116-133 | the forward loop, with its break, computes the end the forward scan defines |
| MainContent.ScanWindows | analyzer/document.go:63-135 | the window loop with its flag computes the start and end lines of the scan, so all that Windows.ScanSpec says holds of its results |
| MainContent.EmittedStep | analyzer/document.go:138-144 | one more line read by the output loop appends its trimmed text and a line break exactly when the line is in the range and not blank, and otherwise adds nothing |
| MainContent.CollectLines | analyzer/document.go:137-145 | the output loop builds the kept lines, trimmed and each followed by a line break, in page order |
| MainContent.EmittedSpec | analyzer/document.go:137-145 | the output lines are the trimmed non-blank lines whose numbers lie in the range, each exactly once and in page order, and no such line is missing |
| MainContent.BodyLayout | analyzer/document.go:137-145 | each output line is non-empty and ends with a line break, so splitting the body gives back the output lines and one final empty part |
| MainContent.MainContentLayout | analyzer/document.go:137-149 | the main content is the title line followed by the body; its output lines are non-empty and hold no line break; it always ends with a line break |
| MainContent.FallbackKeepsAll | analyzer/document.go:137-145 | when no window is content, both bounds stay -1 and every non-blank line of the page is kept |
| MainContent.BoundsOrder | analyzer/document.go:63-135 | an end line is only set once a start line is set; it lies after the start and inside the page; the start line is a non-blank line |
| MainContent.GetMainContent | analyzer/document.go:54-150 | getMainContent, once the title captures and the stripped page are known, returns the main content that the lemmas above describe |
| Stopwords.StopwordSetCons | analyzer/document.go:214-225 | reading the first line up to its line break adds that line's trimmed text, and the rest of the file adds its own stopwords |
| Stopwords.StopwordsOfLine | analyzer/document.go:214-225 | a line without a line break, followed by one, puts its trimmed text in front of the stopwords of the rest of the file |
| Stopwords.NoLineNoStopword | analyzer/document.go:215-219 | text holding no line break yields no stopword, since reading it ends at end of file |
| Stopwords.UnterminatedLineIgnored | analyzer/document.go:216-220 | a last line without a line break adds nothing, because end of file stops the loop before the insert |
| Stopwords.StopwordExample | analyzer/document.go:207-226 | the file "the", blank line, unterminated "of" yields the stopwords "the" and "" |
| Stopwords.GetStopwords | analyzer/document.go:207-227 | a file that cannot be opened gives an error; otherwise the reading loop returns exactly the stopword set of its contents |
| Stopwords.EffectiveStopwords | analyzer/document.go:168-171 | getKeywords works with no stopwords at all when the file cannot be opened |
| Keywords.NewlineNotCounted | analyzer/document.go:178-186 | a "\n" token is never counted |
| Keywords.CursorFloor | analyzer/document.go:174-175 | the cursor starts at row 1, index 1 and never goes below |
| Keywords.CursorStep | analyzer/document.go:174-196 | a "\n" resets the index to 1 and starts a new row exactly when the current row holds an occurrence; a counted token keeps the row and raises the index by one; blank tokens and stopwords change neither |
| Keywords.Gapless | analyzer/document.go:176-196 | the index is one more than the number of occurrences already recorded on the current row, so a row's occurrences are numbered 1, 2, 3, ... without gaps |
| Keywords.CursorMonotone | analyzer/document.go:176-196 | the cursor never moves back in reading order and moves forward past every counted token |
| Keywords.PositionsOfSpec | analyzer/document.go:187-195 | a counted text has one position per occurrence, each the cursor at that token, in strictly increasing reading order (rows never decrease); other texts have none |
| Keywords.PositionsDisjoint | analyzer/document.go:176-196 | no position is shared by two keywords, so all (row, index) pairs are distinct |
| Keywords.CountedTextsSpec | analyzer/document.go:184-192 | a text gets a keyword exactly when it is counted and occurs |
| Keywords.KeywordShape | analyzer/document.go:184-196 | every keyword is stored under its own text, which is not blank, not "\n" and not a stopword; its count is the number of tokens with that text, at least one, and equals the number of its positions |
| Keywords.WordMapStep | analyzer/document.go:187-195 | a counted token gives its text a keyword (fresh, with count 0, when the text is new) whose count rises by one and whose positions gain the cursor; any other token leaves the map unchanged |
| Keywords.OccurrenceSumCounted | analyzer/document.go:184-196 | over distinct counted texts covering every counted token, the occurrences add up to the number of counted tokens |
| Keywords.CountedAtMost | analyzer/document.go:31 | no more tokens are counted than there are tokens |
| Ranking.TextLessTotal | analyzer/document.go:203 | the tie-break on texts orders any two different texts one way and never both ways |
| Ranking.InOrderTransitive | analyzer/document.go:203 | the ranking order is transitive |
| Ranking.InOrderTotal | analyzer/document.go:203 | any two keywords are ranked one way; both ways only when their texts agree |
| Ranking.InsertSorted | analyzer/document.go:203 | placing a keyword after every keyword it does not rank before, and before the first one that ranks after it, keeps a sorted list sorted |
| Ranking.Insert | analyzer/document.go:203 | one insertion step keeps the list sorted and adds exactly the new keyword to its contents |
| Ranking.SortKeywords | analyzer/document.go:203 | the sort returns the same keywords, as a multiset, by count descending and then text ascending |
| Ranking.SortedUnique | analyzer/document.go:203 | two sorted arrangements of the same keywords with distinct texts are the same list |
| Ranker.BuildWordMap | analyzer/document.go:174-196 | the token loop, with its row and index cursor, builds exactly the word map the tokens and the stopwords define |
| Ranker.CollectKeywords | analyzer/document.go:199-201 | the loop over the map appends every keyword of the map exactly once and nothing else, in any order |
| Ranker.ListsUnique | analyzer/document.go:199-201 | a list of the word map's keywords has pairwise distinct texts |
| Ranker.ListsPermutation | analyzer/document.go:199-203 | reordering a list of the word map's keywords still lists each of them once |
| Ranker.RankingDetermined | analyzer/document.go:199-203 | any two sorted lists of the same word map are equal, so the map's iteration order does not show in the result |
| Ranker.CountsAddUp | analyzer/document.go:176-201 | the counts of the listed keywords add up to the number of non-blank tokens that are not stopwords |
| Ranker.OneLineExample | analyzer/document.go:174-203 | on the line "AAAA BBBB AAAA CCCC" with stopword BBBB, the result is AAAA at (1,1) and (1,2), then CCCC at (1,3) |
| Ranker.GetKeywords | analyzer/document.go:165-205 | getKeywords returns the keywords of the word map its loop builds (stopwords from the file, none when it cannot be opened), each exactly once, sorted |
| Analyzer.Document.constructor | analyzer/document.go:13-20 | a new Document has every field empty |
| Analyzer.Document.Init | analyzer/document.go:22-25 | Init records the dictionary and stopword paths and changes nothing else |
| Analyzer.Document.LoadHTML | analyzer/document.go:27-48 | LoadHTML sets the main content of the page, the word count to the number of the segmenter's tokens of that main content, and the keywords to the sorted list of the word map; the counts add up to the counted tokens, at most the word count; the paths stay unchanged |

## Left out

- The two regular expressions (document.go:57 and 154) are not modelled. The title captures and the stripped page are inputs (`Environment.titleMatches`, `Environment.stripNoise`).
- The `sego` segmenter (`LoadDictionary`, `Segment`, `Token().Text()`) is a foreign library. `Environment.segment` stands for it and yields token texts. `TotalFrequency` (document.go:50-52) only asks the segmenter and is left out.
- `Document.Words` (document.go:35-48) only loads the dictionary, segments the main content and collects each segment's token. With the segmenter outside the model, it is just a call of `Environment.segment`, so `Analyzer.Document.LoadHTML` makes that call directly and has no separate `Words` method.
- The `Segmenter` field of `Document` and the `Token` and `Document` back-pointers of a keyword are references, not behaviour. They are left out.
- File opening and buffered reading are replaced by a map from path to contents. The read error in the middle of a file (document.go:221-223) cannot happen in this model. Closing the file is left out.
- The float32 density test `tmp / charCount > 0.02` is modelled as the integer test `50 * tmp > charCount`. Like the NaN comparison, it is false for an empty page. Rounding at the exact boundary is not modelled.
- Strings are sequences of characters, and `len` is their length. White space is the ASCII set that `TrimSpace` recognises; Unicode white space is not modelled.
- Go's 64-bit `int` is modelled as an unbounded integer. The row, index and count counters cannot overflow in the model.
- The keyword comparator (`Keywords.Len/Less/Swap`) is not part of this model. The ranking is count descending, then text ascending byte by byte. `sort.Sort` works in place on a slice; `Ranking.SortKeywords` is an insertion sort on a sequence that returns the result.
- `wordMap` holds pointers that the loop updates through. The model holds keyword values and replaces the map entry instead; nothing else shares those keywords.
- The `range wordMap` loop is modelled as picking any remaining key (`Ranker.CollectKeywords`). The three inner loops of the scan are methods of their own (`MainContent.WindowCharCount`, `SearchStart`, `SearchEnd`), and so are the output loop (`MainContent.CollectLines`), the token loop (`Ranker.BuildWordMap`) and one insertion step of the sort (`Ranking.Insert`). The locals `tmpLineCount` and `tmpStr` are never read and are left out.
- `sosoinit/sosoinit.go` (configuration, database check and wiring) is not part of this model.
- The fallback output is not the stripped page verbatim. Like the code (document.go:137-145), the model keeps only the trimmed non-blank lines.
