/**
 The order of the returned keywords: more occurrences first, and among
 keywords with the same count, texts in byte-wise ascending order. The
 keywords are sorted by insertion.
 */
module Ranking {
  import opened Keywords

  /** `a` sorts strictly before `b` byte by byte, a proper prefix first. */
  predicate TextLess(a: string, b: string) {
    if a == [] then b != []
    else b != [] && (a[0] < b[0] || (a[0] == b[0] && TextLess(a[1..], b[1..])))
  }

  lemma {:induction false} TextLessIrreflexive(a: string)
    ensures !TextLess(a, a)
  {
    if a != [] {
      TextLessIrreflexive(a[1..]);
    }
  }

  lemma {:induction false} TextLessTransitive(a: string, b: string, c: string)
    requires TextLess(a, b) && TextLess(b, c)
    ensures TextLess(a, c)
  {
    if a != [] && a[0] == b[0] && b[0] == c[0] {
      TextLessTransitive(a[1..], b[1..], c[1..]);
    }
  }

  /** Two different texts are always ordered one way, never both. */
  lemma {:induction false} TextLessTotal(a: string, b: string)
    ensures a != b ==> TextLess(a, b) || TextLess(b, a)
    ensures !(TextLess(a, b) && TextLess(b, a))
  {
    if a != [] && b != [] && a[0] == b[0] {
      TextLessTotal(a[1..], b[1..]);
      if a != b {
        assert a == [a[0]] + a[1..] && b == [b[0]] + b[1..];
      }
    }
  }

  /** `a` may come before `b`. */
  predicate InOrder(a: Keyword, b: Keyword) {
    a.count > b.count || (a.count == b.count && (a.text == b.text || TextLess(a.text, b.text)))
  }

  lemma InOrderTransitive(a: Keyword, b: Keyword, c: Keyword)
    requires InOrder(a, b) && InOrder(b, c)
    ensures InOrder(a, c)
  {
    if a.count == b.count == c.count && a.text != b.text && b.text != c.text {
      TextLessTransitive(a.text, b.text, c.text);
    }
  }

  /** Any two keywords are ordered one way; both ways only when their texts agree. */
  lemma InOrderTotal(a: Keyword, b: Keyword)
    ensures InOrder(a, b) || InOrder(b, a)
    ensures InOrder(a, b) && InOrder(b, a) ==> a.text == b.text
  {
    TextLessTotal(a.text, b.text);
  }

  predicate Sorted(ks: seq<Keyword>) {
    forall i, j :: 0 <= i < j < |ks| ==> InOrder(ks[i], ks[j])
  }

  /** Inserting `x` at a place after everything ranked before it keeps a list sorted. */
  lemma InsertSorted(sorted: seq<Keyword>, p: nat, x: Keyword)
    requires Sorted(sorted) && p <= |sorted|
    requires forall q :: 0 <= q < p ==> InOrder(sorted[q], x)
    requires p < |sorted| ==> !InOrder(sorted[p], x)
    ensures Sorted(sorted[..p] + [x] + sorted[p..])
  {
    forall q | p <= q < |sorted| ensures InOrder(x, sorted[q]) {
      InOrderTotal(sorted[p], x);
      if q > p {
        InOrderTransitive(x, sorted[p], sorted[q]);
      }
    }
    var next := sorted[..p] + [x] + sorted[p..];
    forall i, j | 0 <= i < j < |next| ensures InOrder(next[i], next[j]) {
      if j == p {
        assert next[i] == sorted[i];
      } else if i == p {
        assert next[j] == sorted[j - 1];
      } else {
        assert next[i] == (if i < p then sorted[i] else sorted[i - 1]);
        assert next[j] == (if j < p then sorted[j] else sorted[j - 1]);
      }
    }
  }

  /** One insertion step: `x` goes before the first keyword it ranks before. */
  method Insert(sorted: seq<Keyword>, x: Keyword) returns (next: seq<Keyword>)
    requires Sorted(sorted)
    ensures Sorted(next)
    ensures multiset(next) == multiset(sorted) + multiset{x}
  {
    var p := 0;
    while p < |sorted| && InOrder(sorted[p], x)
      invariant 0 <= p <= |sorted|
      invariant forall q :: 0 <= q < p ==> InOrder(sorted[q], x)
    {
      p := p + 1;
    }
    InsertSorted(sorted, p, x);
    next := sorted[..p] + [x] + sorted[p..];
    assert sorted == sorted[..p] + sorted[p..];
  }

  /** sort.Sort(keyWords): the same keywords, in ranking order. */
  method SortKeywords(ks: seq<Keyword>) returns (sorted: seq<Keyword>)
    ensures Sorted(sorted)
    ensures multiset(sorted) == multiset(ks)
  {
    sorted := [];
    for m := 0 to |ks|
      invariant Sorted(sorted)
      invariant multiset(sorted) == multiset(ks[..m])
    {
      sorted := Insert(sorted, ks[m]);
      assert ks[..m + 1] == ks[..m] + [ks[m]];
    }
    assert ks[..|ks|] == ks;
  }

  /** The texts of `ks`, in order. */
  function TextsOf(ks: seq<Keyword>): (texts: seq<string>)
    ensures |texts| == |ks| && forall i :: 0 <= i < |ks| ==> texts[i] == ks[i].text
  {
    seq(|ks|, i requires 0 <= i < |ks| => ks[i].text)
  }

  /** No two keywords share a text. */
  predicate UniqueTexts(ks: seq<Keyword>) {
    DistinctTexts(TextsOf(ks))
  }

  /** Two sorted arrangements of the same keywords with distinct texts start alike. */
  lemma SameFirst(a: seq<Keyword>, b: seq<Keyword>)
    requires Sorted(a) && Sorted(b) && UniqueTexts(a)
    requires multiset(a) == multiset(b) && a != []
    ensures b != [] && a[0] == b[0]
  {
    assert a[0] in multiset(b);
    assert b[0] in multiset(a);
    var j :| 0 <= j < |a| && a[j] == b[0];
    var i :| 0 <= i < |b| && b[i] == a[0];
    assert InOrder(a[0], b[0]) by {
      if j > 0 {
        assert InOrder(a[0], a[j]);
      }
    }
    assert InOrder(b[0], a[0]) by {
      if i > 0 {
        assert InOrder(b[0], b[i]);
      }
    }
    InOrderTotal(a[0], b[0]);
  }

  lemma TailMultiset(s: seq<Keyword>)
    requires s != []
    ensures multiset(s[1..]) == multiset(s) - multiset{s[0]}
  {
    assert s == [s[0]] + s[1..];
  }

  /**
   Sorting keywords with distinct texts has only one possible outcome: two
   sorted arrangements of the same keywords are the same list.
   */
  lemma {:induction false} SortedUnique(a: seq<Keyword>, b: seq<Keyword>)
    requires Sorted(a) && Sorted(b) && UniqueTexts(a)
    requires multiset(a) == multiset(b)
    ensures a == b
    decreases |a|
  {
    if a == [] {
      assert |b| == |multiset(b)| == 0;
    } else {
      SameFirst(a, b);
      TailMultiset(a);
      TailMultiset(b);
      SortedUnique(a[1..], b[1..]);
      assert a == [a[0]] + a[1..] && b == [b[0]] + b[1..];
    }
  }
}
