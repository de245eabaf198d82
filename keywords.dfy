/**
 What getKeywords computes, as functions of the token texts and the
 stopword set. A cursor (row, index) walks the tokens: a "\n" token starts
 a new row when the current row already holds an occurrence, and resets
 the index to 1; each counted occurrence (a non-blank token that is not a
 stopword) is recorded at the cursor and moves the index on by one. The
 counted occurrences are grouped by exact text into keywords.
 */
module Keywords {
  import opened Text

  datatype Position = Position(row: int, index: int)

  datatype Keyword = Keyword(text: string, count: int, positions: seq<Position>)

  /** A token is counted when its trimmed text is not empty and it is not a stopword. */
  predicate Counted(t: string, stopwords: set<string>) {
    Trim(t) != "" && t !in stopwords
  }

  /** The cursor after one token. */
  function Advance(c: Position, t: string, stopwords: set<string>): Position {
    var c1 := if t == "\n" then Position(if c.index != 1 then c.row + 1 else c.row, 1) else c;
    if Counted(t, stopwords) then Position(c1.row, c1.index + 1) else c1
  }

  /** The cursor before token `n`; a counted token `n` is recorded there. */
  function CursorAt(tokens: seq<string>, stopwords: set<string>, n: nat): Position
    requires n <= |tokens|
  {
    if n == 0 then Position(1, 1) else Advance(CursorAt(tokens, stopwords, n - 1), tokens[n - 1], stopwords)
  }

  /** The positions recorded for text `w` among the first `n` tokens. */
  function PositionsOf(tokens: seq<string>, stopwords: set<string>, w: string, n: nat): seq<Position>
    requires n <= |tokens|
  {
    if n == 0 then []
    else PositionsOf(tokens, stopwords, w, n - 1)
         + (if tokens[n - 1] == w && Counted(w, stopwords) then [CursorAt(tokens, stopwords, n - 1)] else [])
  }

  /** How many of the first `n` tokens are exactly `w`. */
  function Occurrences(tokens: seq<string>, w: string, n: nat): nat
    requires n <= |tokens|
  {
    if n == 0 then 0 else Occurrences(tokens, w, n - 1) + (if tokens[n - 1] == w then 1 else 0)
  }

  /** How many of the first `n` tokens are counted. */
  function CountedTokens(tokens: seq<string>, stopwords: set<string>, n: nat): nat
    requires n <= |tokens|
  {
    if n == 0 then 0 else CountedTokens(tokens, stopwords, n - 1) + (if Counted(tokens[n - 1], stopwords) then 1 else 0)
  }

  /** At most every token is counted. */
  lemma {:induction false} CountedAtMost(tokens: seq<string>, stopwords: set<string>, n: nat)
    requires n <= |tokens|
    ensures CountedTokens(tokens, stopwords, n) <= n
  {
    if n > 0 {
      CountedAtMost(tokens, stopwords, n - 1);
    }
  }

  /** The texts of the counted tokens among the first `n`. */
  function CountedTexts(tokens: seq<string>, stopwords: set<string>, n: nat): set<string>
    requires n <= |tokens|
  {
    if n == 0 then {}
    else CountedTexts(tokens, stopwords, n - 1)
         + (if Counted(tokens[n - 1], stopwords) then {tokens[n - 1]} else {})
  }

  /** wordMap after the first `n` tokens: one keyword per counted text. */
  function WordMap(tokens: seq<string>, stopwords: set<string>, n: nat): map<string, Keyword>
    requires n <= |tokens|
  {
    map w | w in CountedTexts(tokens, stopwords, n) ::
      Keyword(w, Occurrences(tokens, w, n), PositionsOf(tokens, stopwords, w, n))
  }

  /** How many counted tokens among the first `n` were recorded on row `r`. */
  function RowCount(tokens: seq<string>, stopwords: set<string>, n: nat, r: int): nat
    requires n <= |tokens|
  {
    if n == 0 then 0
    else RowCount(tokens, stopwords, n - 1, r)
         + (if Counted(tokens[n - 1], stopwords) && CursorAt(tokens, stopwords, n - 1).row == r then 1 else 0)
  }

  /** `p` comes no later than `q` in reading order (row, then index). */
  predicate NotAfter(p: Position, q: Position) {
    p.row < q.row || (p.row == q.row && p.index <= q.index)
  }

  /** `p` comes strictly before `q` in reading order. */
  predicate Before(p: Position, q: Position) {
    p.row < q.row || (p.row == q.row && p.index < q.index)
  }

  lemma NewlineNotCounted(stopwords: set<string>)
    ensures !Counted("\n", stopwords)
  {
    assert TrimLeft("\n") == TrimLeft("\n"[1..]);
  }

  // ---------------------------------------------------------------------
  // The cursor

  /** The cursor starts at row 1, index 1 and never goes below. */
  lemma {:induction false} CursorFloor(tokens: seq<string>, stopwords: set<string>, n: nat)
    requires n <= |tokens|
    ensures CursorAt(tokens, stopwords, 0) == Position(1, 1)
    ensures CursorAt(tokens, stopwords, n).row >= 1 && CursorAt(tokens, stopwords, n).index >= 1
  {
    if n > 0 {
      CursorFloor(tokens, stopwords, n - 1);
    }
  }

  /** The cursor never moves back, and moves forward past every counted token. */
  lemma {:induction false} CursorMonotone(tokens: seq<string>, stopwords: set<string>, a: nat, b: nat)
    requires a <= b <= |tokens|
    ensures NotAfter(CursorAt(tokens, stopwords, a), CursorAt(tokens, stopwords, b))
    ensures a < b && Counted(tokens[a], stopwords) ==>
              Before(CursorAt(tokens, stopwords, a), CursorAt(tokens, stopwords, b))
    decreases b
  {
    if a < b {
      CursorMonotone(tokens, stopwords, a, b - 1);
      CursorFloor(tokens, stopwords, b - 1);
      NewlineNotCounted(stopwords);
    }
  }

  /** No counted token so far lies on a row below `r`: then row `r` holds none. */
  lemma {:induction false} RowCountZero(tokens: seq<string>, stopwords: set<string>, n: nat, r: int)
    requires n <= |tokens|
    requires forall k :: 0 <= k < n && Counted(tokens[k], stopwords) ==> CursorAt(tokens, stopwords, k).row < r
    ensures RowCount(tokens, stopwords, n, r) == 0
  {
    if n > 0 {
      RowCountZero(tokens, stopwords, n - 1, r);
    }
  }

  /**
   The index is one more than the number of occurrences already recorded
   on the current row: the occurrences of a row are numbered 1, 2, 3, ...
   without gaps.
   */
  lemma {:induction false} Gapless(tokens: seq<string>, stopwords: set<string>, n: nat)
    requires n <= |tokens|
    ensures var c := CursorAt(tokens, stopwords, n);
            c.index == 1 + RowCount(tokens, stopwords, n, c.row)
  {
    if n > 0 {
      Gapless(tokens, stopwords, n - 1);
      var c := CursorAt(tokens, stopwords, n - 1);
      var t := tokens[n - 1];
      NewlineNotCounted(stopwords);
      if t == "\n" && c.index != 1 {
        forall k | 0 <= k < n && Counted(tokens[k], stopwords)
          ensures CursorAt(tokens, stopwords, k).row < c.row + 1
        {
          CursorMonotone(tokens, stopwords, k, n - 1);
        }
        RowCountZero(tokens, stopwords, n, c.row + 1);
      }
    }
  }

  /**
   How one token moves the cursor: a "\n" resets the index to 1 and starts a
   new row exactly when the current row holds an occurrence; a counted token
   stays on its row and moves the index on by one; blank tokens and
   stopwords change nothing.
   */
  lemma CursorStep(tokens: seq<string>, stopwords: set<string>, n: nat)
    requires n < |tokens|
    ensures var c := CursorAt(tokens, stopwords, n);
            var next := CursorAt(tokens, stopwords, n + 1);
            && (tokens[n] == "\n" ==>
                  next == Position(if RowCount(tokens, stopwords, n, c.row) > 0 then c.row + 1 else c.row, 1))
            && (Counted(tokens[n], stopwords) ==> next == Position(c.row, c.index + 1))
            && (tokens[n] != "\n" && !Counted(tokens[n], stopwords) ==> next == c)
  {
    Gapless(tokens, stopwords, n);
    NewlineNotCounted(stopwords);
  }

  // ---------------------------------------------------------------------
  // Positions of one keyword

  /**
   The positions of a counted text are the cursor positions of its
   occurrences, one per occurrence, in strictly increasing reading order
   (so their rows never decrease). A text that is not counted gets none.
   */
  lemma {:induction false} PositionsOfSpec(tokens: seq<string>, stopwords: set<string>, w: string, n: nat)
    requires n <= |tokens|
    ensures var ps := PositionsOf(tokens, stopwords, w, n);
            && (Counted(w, stopwords) ==> |ps| == Occurrences(tokens, w, n))
            && (!Counted(w, stopwords) ==> ps == [])
            && (forall m :: 0 <= m < |ps| ==>
                  exists k :: 0 <= k < n && tokens[k] == w && Counted(w, stopwords) && ps[m] == CursorAt(tokens, stopwords, k))
            && (forall m, m' :: 0 <= m < m' < |ps| ==> Before(ps[m], ps[m']))
  {
    if n > 0 {
      PositionsOfSpec(tokens, stopwords, w, n - 1);
      var ps := PositionsOf(tokens, stopwords, w, n - 1);
      if tokens[n - 1] == w && Counted(w, stopwords) {
        var c := CursorAt(tokens, stopwords, n - 1);
        forall m | 0 <= m < |ps| ensures Before(ps[m], c) {
          var k :| 0 <= k < n - 1 && tokens[k] == w && Counted(w, stopwords) && ps[m] == CursorAt(tokens, stopwords, k);
          CursorMonotone(tokens, stopwords, k, n - 1);
        }
      }
    }
  }

  /** Every recorded position is the cursor at an occurrence of its text. */
  lemma RecordedAt(tokens: seq<string>, stopwords: set<string>, w: string, p: Position)
    requires p in PositionsOf(tokens, stopwords, w, |tokens|)
    ensures exists k :: 0 <= k < |tokens| && tokens[k] == w && Counted(w, stopwords) && p == CursorAt(tokens, stopwords, k)
  {
    PositionsOfSpec(tokens, stopwords, w, |tokens|);
    var ps := PositionsOf(tokens, stopwords, w, |tokens|);
    var m :| 0 <= m < |ps| && ps[m] == p;
  }

  /** Two occurrences never share a position, so keywords never share one. */
  lemma PositionsDisjoint(tokens: seq<string>, stopwords: set<string>, w: string, w': string, p: Position)
    requires p in PositionsOf(tokens, stopwords, w, |tokens|)
    requires p in PositionsOf(tokens, stopwords, w', |tokens|)
    ensures w == w'
  {
    RecordedAt(tokens, stopwords, w, p);
    RecordedAt(tokens, stopwords, w', p);
    var k :| 0 <= k < |tokens| && tokens[k] == w && Counted(w, stopwords) && p == CursorAt(tokens, stopwords, k);
    var k' :| 0 <= k' < |tokens| && tokens[k'] == w' && Counted(w', stopwords) && p == CursorAt(tokens, stopwords, k');
    if k < k' {
      CursorMonotone(tokens, stopwords, k, k');
    } else if k' < k {
      CursorMonotone(tokens, stopwords, k', k);
    }
  }

  // ---------------------------------------------------------------------
  // The word map

  /** The counted texts are the texts of the counted tokens. */
  lemma {:induction false} CountedTextsSpec(tokens: seq<string>, stopwords: set<string>, n: nat, w: string)
    requires n <= |tokens|
    ensures w in CountedTexts(tokens, stopwords, n) <==> Counted(w, stopwords) && Occurrences(tokens, w, n) > 0
  {
    if n > 0 {
      CountedTextsSpec(tokens, stopwords, n - 1, w);
    }
  }

  /**
   Every keyword is stored under its own text, which is counted (not blank,
   not "\n", not a stopword); its count is the number of tokens with that
   text, at least one, and equals the number of its positions. The map holds
   exactly the counted texts that occur.
   */
  lemma KeywordShape(tokens: seq<string>, stopwords: set<string>, n: nat)
    requires n <= |tokens|
    ensures var m := WordMap(tokens, stopwords, n);
            forall w :: w in m ==>
              && m[w].text == w
              && Trim(w) != "" && w != "\n" && w !in stopwords
              && m[w].count == Occurrences(tokens, w, n) == |m[w].positions| >= 1
    ensures forall w :: w in WordMap(tokens, stopwords, n) <==> Counted(w, stopwords) && Occurrences(tokens, w, n) > 0
  {
    var m := WordMap(tokens, stopwords, n);
    NewlineNotCounted(stopwords);
    forall w ensures w in m <==> Counted(w, stopwords) && Occurrences(tokens, w, n) > 0 {
      CountedTextsSpec(tokens, stopwords, n, w);
    }
    forall w | w in m ensures m[w].count == |m[w].positions| {
      PositionsOfSpec(tokens, stopwords, w, n);
    }
  }

  /** A text seen among the first `n` tokens has occurred at least once. */
  lemma {:induction false} SeenOccurs(tokens: seq<string>, w: string, n: nat, k: nat)
    requires k < n <= |tokens| && tokens[k] == w
    ensures Occurrences(tokens, w, n) > 0
  {
    if k < n - 1 {
      SeenOccurs(tokens, w, n - 1, k);
    }
  }

  /** A counted text that has not occurred yet has no occurrences and no positions. */
  lemma {:induction false} NotYetSeen(tokens: seq<string>, stopwords: set<string>, w: string, n: nat)
    requires n <= |tokens| && Counted(w, stopwords) && w !in CountedTexts(tokens, stopwords, n)
    ensures Occurrences(tokens, w, n) == 0 && PositionsOf(tokens, stopwords, w, n) == []
  {
    if n > 0 {
      NotYetSeen(tokens, stopwords, w, n - 1);
    }
  }

  /**
   One token's effect on wordMap: a counted token gets a keyword (a fresh
   one with count 0 when its text is new) whose count goes up by one and
   whose positions gain the cursor; any other token leaves the map alone.
   */
  lemma WordMapStep(tokens: seq<string>, stopwords: set<string>, n: nat)
    requires n < |tokens|
    ensures var t := tokens[n];
            var m := WordMap(tokens, stopwords, n);
            var kw := if t in m then m[t] else Keyword(t, 0, []);
            && (Counted(t, stopwords) ==>
                  WordMap(tokens, stopwords, n + 1)
                  == m[t := Keyword(t, kw.count + 1, kw.positions + [CursorAt(tokens, stopwords, n)])])
            && (!Counted(t, stopwords) ==> WordMap(tokens, stopwords, n + 1) == m)
  {
    if Counted(tokens[n], stopwords) {
      WordMapCounted(tokens, stopwords, n);
    } else {
      WordMapSkipped(tokens, stopwords, n);
    }
  }

  lemma WordMapCounted(tokens: seq<string>, stopwords: set<string>, n: nat)
    requires n < |tokens| && Counted(tokens[n], stopwords)
    ensures var t := tokens[n];
            var m := WordMap(tokens, stopwords, n);
            var kw := if t in m then m[t] else Keyword(t, 0, []);
            WordMap(tokens, stopwords, n + 1)
            == m[t := Keyword(t, kw.count + 1, kw.positions + [CursorAt(tokens, stopwords, n)])]
  {
    var t := tokens[n];
    var m := WordMap(tokens, stopwords, n);
    var m' := WordMap(tokens, stopwords, n + 1);
    if t !in CountedTexts(tokens, stopwords, n) {
      NotYetSeen(tokens, stopwords, t, n);
    }
    var kw := if t in m then m[t] else Keyword(t, 0, []);
    var target := m[t := Keyword(t, kw.count + 1, kw.positions + [CursorAt(tokens, stopwords, n)])];
    assert m'.Keys == target.Keys;
    forall w | w in m' ensures m'[w] == target[w] {
      if w != t {
        assert m'[w] == m[w];
      }
    }
  }

  lemma WordMapSkipped(tokens: seq<string>, stopwords: set<string>, n: nat)
    requires n < |tokens| && !Counted(tokens[n], stopwords)
    ensures WordMap(tokens, stopwords, n + 1) == WordMap(tokens, stopwords, n)
  {
    var m := WordMap(tokens, stopwords, n);
    var m' := WordMap(tokens, stopwords, n + 1);
    assert m'.Keys == m.Keys;
    forall w | w in m' ensures m'[w] == m[w] {
      CountedTextsSpec(tokens, stopwords, n + 1, w);
      assert PositionsOf(tokens, stopwords, w, n + 1) == PositionsOf(tokens, stopwords, w, n) + [];
    }
  }

  // ---------------------------------------------------------------------
  // Counts add up

  /** No text appears twice. */
  predicate DistinctTexts(texts: seq<string>) {
    forall i, j :: 0 <= i < j < |texts| ==> texts[i] != texts[j]
  }

  /** The occurrences of each of `texts` among the first `n` tokens, summed. */
  function OccurrenceSum(texts: seq<string>, tokens: seq<string>, n: nat): nat
    requires n <= |tokens|
  {
    if texts == [] then 0 else Occurrences(tokens, texts[0], n) + OccurrenceSum(texts[1..], tokens, n)
  }

  lemma {:induction false} OccurrenceSumStart(texts: seq<string>, tokens: seq<string>)
    ensures OccurrenceSum(texts, tokens, 0) == 0
  {
    if texts != [] {
      OccurrenceSumStart(texts[1..], tokens);
    }
  }

  lemma {:induction false} OccurrenceSumStep(texts: seq<string>, tokens: seq<string>, n: nat)
    requires n < |tokens| && DistinctTexts(texts)
    ensures OccurrenceSum(texts, tokens, n + 1) == OccurrenceSum(texts, tokens, n) + (if tokens[n] in texts then 1 else 0)
  {
    if texts != [] {
      OccurrenceSumStep(texts[1..], tokens, n);
      assert tokens[n] in texts <==> tokens[n] == texts[0] || tokens[n] in texts[1..];
      if tokens[n] == texts[0] {
        assert tokens[n] !in texts[1..];
      }
    }
  }

  /**
   Over distinct counted texts that include every counted token's text, the
   occurrences add up to the number of counted tokens.
   */
  lemma {:induction false} OccurrenceSumCounted(texts: seq<string>, tokens: seq<string>, stopwords: set<string>, n: nat)
    requires n <= |tokens| && DistinctTexts(texts)
    requires forall i :: 0 <= i < |texts| ==> Counted(texts[i], stopwords)
    requires forall k :: 0 <= k < n && Counted(tokens[k], stopwords) ==> tokens[k] in texts
    ensures OccurrenceSum(texts, tokens, n) == CountedTokens(tokens, stopwords, n)
  {
    if n == 0 {
      OccurrenceSumStart(texts, tokens);
    } else {
      OccurrenceSumCounted(texts, tokens, stopwords, n - 1);
      OccurrenceSumStep(texts, tokens, n - 1);
    }
  }
}
