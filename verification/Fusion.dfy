/**
  Reciprocal rank fusion, the last part of `hybrid_search`: two ranked lists of
  texts become one, in exact arithmetic.
 */
module Fusion {
  import opened Prelude

  type Scores = map<string, real>

  /** What the text at a (0-based) rank earns. */
  function Term(rank: nat): real { 1.0 / (60.0 + rank as real + 1.0) }

  function Credit(scores: Scores, text: string, x: real): Scores {
    scores[text := (if text in scores then scores[text] else 0.0) + x]
  }

  /** The score map after a list has been folded into it. */
  function Fold(scores: Scores, list: seq<string>): Scores {
    if list == [] then scores
    else Credit(Fold(scores, list[..|list| - 1]), list[|list| - 1], Term(|list| - 1))
  }

  /** What a text earns from one list, by its ranks there. */
  function Hits(list: seq<string>, text: string): real {
    if list == [] then 0.0
    else Hits(list[..|list| - 1], text) + if list[|list| - 1] == text then Term(|list| - 1) else 0.0
  }

  function Score(bm25: seq<string>, vector: seq<string>, text: string): real {
    Hits(bm25, text) + Hits(vector, text)
  }

  lemma {:induction false} FoldMeans(scores: Scores, list: seq<string>, t: string)
    ensures t in Fold(scores, list) <==> t in scores || t in list
    ensures t in Fold(scores, list) ==>
              Fold(scores, list)[t] == (if t in scores then scores[t] else 0.0) + Hits(list, t)
  {
    if list == [] {
    } else {
      var init, last := list[..|list| - 1], list[|list| - 1];
      FoldMeans(scores, init, t);
      assert list == init + [last];
      if t !in init { NoHits(init, t); }
    }
  }

  lemma {:induction false} NoHits(list: seq<string>, text: string)
    requires text !in list
    ensures Hits(list, text) == 0.0
  {
    if list == [] {
    } else {
      NoHits(list[..|list| - 1], text);
    }
  }

  lemma FusedScore(bm25: seq<string>, vector: seq<string>, t: string)
    ensures var m := Fold(Fold(map[], bm25), vector);
            && (t in m <==> t in bm25 || t in vector)
            && (t in m ==> m[t] == Score(bm25, vector, t))
  {
    hide Fold, Hits;
    FoldMeans(map[], bm25, t);
    FoldMeans(Fold(map[], bm25), vector, t);
    if t !in bm25 { NoHits(bm25, t); }
  }

  /** The map holds the score of every text found, and no other text, whichever list comes first. */
  lemma FusedScores(bm25: seq<string>, vector: seq<string>)
    ensures var m := Fold(Fold(map[], bm25), vector);
            && (forall t :: t in m <==> t in bm25 || t in vector)
            && (forall t :: t in m ==> m[t] == Score(bm25, vector, t))
            && m == Fold(Fold(map[], vector), bm25)
  {
    hide Fold, Hits;
    var m, w := Fold(Fold(map[], bm25), vector), Fold(Fold(map[], vector), bm25);
    forall t
      ensures t in m <==> t in bm25 || t in vector
      ensures t in w <==> t in m
      ensures t in m ==> m[t] == Score(bm25, vector, t) == w[t]
    {
      FusedScore(bm25, vector, t);
      FusedScore(vector, bm25, t);
    }
  }

  // ----- sorting and truncating -----

  type Entry = (string, real)

  predicate Descending(s: seq<Entry>) { forall i, j :: 0 <= i < j < |s| ==> s[i].1 >= s[j].1 }

  /** Every text of the map once, with its score. */
  ghost predicate Lists(s: seq<Entry>, scores: Scores) { multiset(s) == multiset(scores.Items) }

  /** The pairs of a map in some order: iterating a hash map promises none. */
  method Pairs(scores: Scores) returns (a: array<Entry>)
    ensures fresh(a) && Lists(a[..], scores)
  {
    var s: seq<Entry> := [];
    var left := scores.Items;
    while left != {}
      invariant multiset(s) + multiset(left) == multiset(scores.Items)
      decreases left
    {
      var e :| e in left;
      s := s + [e];
      left := left - {e};
    }
    a := new Entry[|s|](i requires 0 <= i < |s| => s[i]);
    assert a[..] == s;
  }

  /** Descending but for the entry at `j`, which may belong further left. */
  predicate DescendingBut(s: seq<Entry>, j: nat)
    requires j < |s|
  {
    && (forall x, y :: 0 <= x < y < |s| && x != j && y != j ==> s[x].1 >= s[y].1)
    && (forall y :: j < y < |s| ==> s[j].1 >= s[y].1)
  }

  lemma SwapKeeps(s: seq<Entry>, i: nat, j: nat)
    requires i < |s| && j < |s|
    ensures multiset(s[i := s[j]][j := s[i]]) == multiset(s)
  {
  }

  function Swapped(s: seq<Entry>, j: nat): seq<Entry>
    requires 0 < j < |s|
  {
    s[j - 1 := s[j]][j := s[j - 1]]
  }

  lemma MoveLeft(s: seq<Entry>, j: nat)
    requires 0 < j < |s| && DescendingBut(s, j) && s[j - 1].1 < s[j].1
    ensures DescendingBut(Swapped(s, j), j - 1)
  {
  }

  lemma InPlace(s: seq<Entry>, j: nat)
    requires j < |s| && DescendingBut(s, j) && (j == 0 || s[j - 1].1 >= s[j].1)
    ensures Descending(s)
  {
    forall x | 0 <= x < j ensures s[x].1 >= s[j].1 {
      assert s[x].1 >= s[j - 1].1;
    }
  }

  lemma OneMore(s: seq<Entry>, n: nat)
    requires n < |s| && Descending(s[..n])
    ensures DescendingBut(s[..n + 1], n)
  {
    var u, w := s[..n], s[..n + 1];
    forall x, y | 0 <= x < y < n ensures w[x].1 >= w[y].1 {
      assert u[x].1 >= u[y].1;
    }
  }

  method SwapLeft(a: array<Entry>, j: nat)
    requires 0 < j < a.Length
    modifies a
    ensures a[..] == Swapped(old(a[..]), j)
  {
    a[j - 1], a[j] := a[j], a[j - 1];
  }

  lemma SwappedPrefix(s: seq<Entry>, j: nat, n: nat)
    requires 0 < j < n <= |s|
    ensures Swapped(s, j)[..n] == Swapped(s[..n], j) && multiset(Swapped(s, j)) == multiset(s)
  {
    SwapKeeps(s, j - 1, j);
  }

  method Insert(a: array<Entry>, n: nat)
    requires n < a.Length && Descending(a[..n])
    modifies a
    ensures multiset(a[..]) == multiset(old(a[..])) && Descending(a[..n + 1])
  {
    hide Descending, DescendingBut, Swapped;
    var j: nat := n;
    assert a[..n + 1][..n] == a[..n] && a[..n + 1][..n + 1] == a[..n + 1];
    OneMore(a[..n + 1], n);
    while j > 0 && a[j - 1].1 < a[j].1
      invariant j <= n && multiset(a[..]) == multiset(old(a[..])) && DescendingBut(a[..][..n + 1], j)
    {
      ghost var all := a[..];
      assert all[..n + 1][j] == a[j] && all[..n + 1][j - 1] == a[j - 1];
      MoveLeft(all[..n + 1], j);
      SwappedPrefix(all, j, n + 1);
      SwapLeft(a, j);
      j := j - 1;
    }
    InPlace(a[..][..n + 1], j);
    assert a[..][..n + 1] == a[..n + 1];
  }

  method SortDescending(a: array<Entry>)
    modifies a
    ensures multiset(a[..]) == multiset(old(a[..])) && Descending(a[..])
  {
    for n := 0 to a.Length
      invariant multiset(a[..]) == multiset(old(a[..])) && Descending(a[..n])
    {
      Insert(a, n);
    }
    assert a[..a.Length] == a[..];
  }

  lemma ListsOnce(s: seq<Entry>, scores: Scores, i: nat, j: nat)
    requires Lists(s, scores) && i < j < |s|
    ensures s[i].0 != s[j].0
  {
    assert s[i] in multiset(s) && s[j] in multiset(s);
    assert s[i] in scores.Items && s[j] in scores.Items;
    if s[i] == s[j] { Twice(s, i, j); }
  }

  lemma ListsMeans(s: seq<Entry>, scores: Scores)
    requires Lists(s, scores)
    ensures |s| == |scores.Keys|
    ensures forall i, j :: 0 <= i < j < |s| ==> s[i].0 != s[j].0
    ensures forall i :: 0 <= i < |s| ==> s[i].0 in scores && s[i].1 == scores[s[i].0]
    ensures forall t :: t in scores ==> exists i :: 0 <= i < |s| && s[i].0 == t
  {
    assert |s| == |multiset(s)| == |scores.Items|;
    forall i, j | 0 <= i < j < |s| ensures s[i].0 != s[j].0 {
      ListsOnce(s, scores, i, j);
    }
    forall i | 0 <= i < |s| ensures s[i].0 in scores && s[i].1 == scores[s[i].0] {
      assert s[i] in multiset(s);
      assert s[i] in scores.Items;
    }
    forall t | t in scores ensures exists i :: 0 <= i < |s| && s[i].0 == t {
      assert (t, scores[t]) in scores.Items;
      assert (t, scores[t]) in multiset(s);
      assert (t, scores[t]) in s;
    }
  }

  function Min(a: nat, b: nat): nat { if a < b then a else b }

  function Texts(bm25: seq<string>, vector: seq<string>): set<string> {
    (set t | t in bm25) + (set t | t in vector)
  }

  /** The best `limit` texts: distinct, found, best first, and none left out that scores more. */
  ghost predicate TopK(bm25: seq<string>, vector: seq<string>, limit: nat, out: seq<string>) {
    && |out| == Min(limit, |Texts(bm25, vector)|)
    && Distinct(out)
    && (forall t :: t in out ==> t in Texts(bm25, vector))
    && (forall i, j :: 0 <= i < j < |out| ==> Score(bm25, vector, out[i]) >= Score(bm25, vector, out[j]))
    && (forall i, t :: 0 <= i < |out| && t in Texts(bm25, vector) && t !in out ==>
          Score(bm25, vector, t) <= Score(bm25, vector, out[i]))
  }

  /** The fusion, sorting and truncation of `hybrid_search`; the full-text rows are (id, text) pairs. */
  method Fuse(bm25Rows: seq<(string, string)>, vectorTexts: seq<string>, limit: nat) returns (out: seq<string>)
    ensures TopK(TextColumn(bm25Rows), vectorTexts, limit, out)
    ensures |out| <= limit
    ensures forall t :: t in out ==> t in vectorTexts || exists i :: 0 <= i < |bm25Rows| && bm25Rows[i].1 == t
  {
    var scores: Scores := map[];
    ghost var bm25 := TextColumn(bm25Rows);
    for rank := 0 to |bm25Rows|
      invariant scores == Fold(map[], bm25[..rank])
    {
      var text := bm25Rows[rank].1;
      assert bm25[..rank + 1][..rank] == bm25[..rank];
      scores := Credit(scores, text, 1.0 / (60.0 + rank as real + 1.0));
    }
    assert bm25[..|bm25|] == bm25;
    for rank := 0 to |vectorTexts|
      invariant scores == Fold(Fold(map[], bm25), vectorTexts[..rank])
    {
      assert vectorTexts[..rank + 1][..rank] == vectorTexts[..rank];
      scores := Credit(scores, vectorTexts[rank], 1.0 / (60.0 + rank as real + 1.0));
    }
    assert vectorTexts[..|vectorTexts|] == vectorTexts;
    var ranked := Pairs(scores);
    SortDescending(ranked);
    out := [];
    for i := 0 to Min(limit, ranked.Length)
      invariant out == Column(ranked[..i])
    {
      assert ranked[..i + 1] == ranked[..i] + [ranked[i]];
      out := out + [ranked[i].0];
    }
    TopOfSorted(bm25, vectorTexts, limit, scores, ranked[..]);
    assert ranked[..][..|out|] == ranked[..|out|];
    forall t | t in out ensures t in vectorTexts || exists i :: 0 <= i < |bm25Rows| && bm25Rows[i].1 == t {
      PoolIff(bm25Rows, vectorTexts, t);
    }
  }

  function TextColumn(rows: seq<(string, string)>): seq<string> {
    seq(|rows|, i requires 0 <= i < |rows| => rows[i].1)
  }

  /** The pool: the texts of the full-text rows and those of the vector search. */
  lemma PoolIff(bm25Rows: seq<(string, string)>, vectorTexts: seq<string>, t: string)
    ensures t in Texts(TextColumn(bm25Rows), vectorTexts)
       <==> t in vectorTexts || exists i :: 0 <= i < |bm25Rows| && bm25Rows[i].1 == t
  {
    if i :| 0 <= i < |bm25Rows| && bm25Rows[i].1 == t {
      assert TextColumn(bm25Rows)[i] == t;
    }
  }

  function SumTo(n: nat, f: nat -> real): real { if n == 0 then 0.0 else SumTo(n - 1, f) + f(n - 1) }

  function RowTerm(bm25Rows: seq<(string, string)>, t: string): nat -> real {
    (i: nat) => if i < |bm25Rows| && bm25Rows[i].1 == t then 1.0 / (61.0 + i as real) else 0.0
  }

  function TextTerm(texts: seq<string>, t: string): nat -> real {
    (i: nat) => if i < |texts| && texts[i] == t then 1.0 / (61.0 + i as real) else 0.0
  }

  /** What a text is worth: the sum of `1 / (61 + rank)` over its ranks in the two searches. */
  lemma ScoreOfRows(bm25Rows: seq<(string, string)>, vectorTexts: seq<string>, t: string)
    ensures Score(TextColumn(bm25Rows), vectorTexts, t)
         == SumTo(|bm25Rows|, RowTerm(bm25Rows, t)) + SumTo(|vectorTexts|, TextTerm(vectorTexts, t))
  {
    hide Hits, SumTo;
    var column := TextColumn(bm25Rows);
    HitsAreTerms(column, t, |column|);
    HitsAreTerms(vectorTexts, t, |vectorTexts|);
    assert column[..|column|] == column && vectorTexts[..|vectorTexts|] == vectorTexts;
    SameTerms(|column|, TextTerm(column, t), RowTerm(bm25Rows, t));
  }

  lemma {:induction false} HitsAreTerms(list: seq<string>, t: string, n: nat)
    requires n <= |list|
    ensures Hits(list[..n], t) == SumTo(n, TextTerm(list, t))
  {
    if n == 0 {
    } else {
      HitsAreTerms(list, t, n - 1);
      assert list[..n][..n - 1] == list[..n - 1];
    }
  }

  lemma {:induction false} SameTerms(n: nat, f: nat -> real, g: nat -> real)
    requires forall i: nat :: i < n ==> f(i) == g(i)
    ensures SumTo(n, f) == SumTo(n, g)
  {
    if n == 0 {
    } else {
      SameTerms(n - 1, f, g);
    }
  }

  function Column(s: seq<Entry>): seq<string> {
    seq(|s|, i requires 0 <= i < |s| => s[i].0)
  }

  lemma TopOfSorted(bm25: seq<string>, vector: seq<string>, limit: nat, scores: Scores, s: seq<Entry>)
    requires scores == Fold(Fold(map[], bm25), vector) && Lists(s, scores) && Descending(s)
    ensures TopK(bm25, vector, limit, Column(s[..Min(limit, |s|)]))
  {
    hide Fold, Hits, Lists;
    FusedScores(bm25, vector);
    ListsMeans(s, scores);
    assert scores.Keys == Texts(bm25, vector);
    forall i | 0 <= i < |s| ensures s[i].1 == Score(bm25, vector, s[i].0) && s[i].0 in Texts(bm25, vector) {
      assert s[i].0 in scores;
    }
    forall t | t in Texts(bm25, vector) ensures exists i :: 0 <= i < |s| && s[i].0 == t {
      assert t in scores;
    }
    TopOfRanking(bm25, vector, Min(limit, |s|), s);
  }

  lemma TopOfRanking(bm25: seq<string>, vector: seq<string>, n: nat, s: seq<Entry>)
    requires n <= |s| && Descending(s) && |s| == |Texts(bm25, vector)|
    requires forall i, j :: 0 <= i < j < |s| ==> s[i].0 != s[j].0
    requires forall i :: 0 <= i < |s| ==> s[i].1 == Score(bm25, vector, s[i].0) && s[i].0 in Texts(bm25, vector)
    requires forall t :: t in Texts(bm25, vector) ==> exists i :: 0 <= i < |s| && s[i].0 == t
    ensures forall limit: nat :: n == Min(limit, |s|) ==> TopK(bm25, vector, limit, Column(s[..n]))
  {
    hide Score, Texts;
    var out := Column(s[..n]);
    forall i, t | 0 <= i < |out| && t in Texts(bm25, vector) && t !in out
      ensures Score(bm25, vector, t) <= Score(bm25, vector, out[i])
    {
      var j :| 0 <= j < |s| && s[j].0 == t;
      if j < n { InColumn(s[..n], j); }
    }
  }

  lemma InColumn(s: seq<Entry>, j: nat)
    requires j < |s|
    ensures s[j].0 in Column(s)
  {
    assert Column(s)[j] == s[j].0;
  }

  // ----- conservation -----

  /** What the first `n` ranks earn together. */
  function Terms(n: nat): real { if n == 0 then 0.0 else Terms(n - 1) + Term(n - 1) }

  function SumHits(texts: seq<string>, list: seq<string>): real {
    if texts == [] then 0.0 else SumHits(texts[..|texts| - 1], list) + Hits(list, texts[|texts| - 1])
  }

  function SumScores(texts: seq<string>, bm25: seq<string>, vector: seq<string>): real {
    if texts == [] then 0.0
    else SumScores(texts[..|texts| - 1], bm25, vector) + Score(bm25, vector, texts[|texts| - 1])
  }

  lemma {:induction false} SumHitsStep(texts: seq<string>, init: seq<string>, last: string)
    requires Distinct(texts)
    ensures SumHits(texts, init + [last]) == SumHits(texts, init) + if last in texts then Term(|init|) else 0.0
  {
    if texts == [] {
    } else {
      var n := |texts| - 1;
      SumHitsStep(texts[..n], init, last);
      assert texts == texts[..n] + [texts[n]];
      assert (init + [last])[..|init|] == init;
    }
  }

  lemma {:induction false} SumHitsTotal(texts: seq<string>, list: seq<string>)
    requires Distinct(texts) && forall t :: t in list ==> t in texts
    ensures SumHits(texts, list) == Terms(|list|)
  {
    if list == [] {
      SumHitsNone(texts);
    } else {
      var init, last := list[..|list| - 1], list[|list| - 1];
      assert list == init + [last];
      SumHitsTotal(texts, init);
      SumHitsStep(texts, init, last);
    }
  }

  lemma {:induction false} SumHitsNone(texts: seq<string>)
    ensures SumHits(texts, []) == 0.0
  {
    if texts == [] {
    } else {
      SumHitsNone(texts[..|texts| - 1]);
    }
  }

  /**
    Conservation: however often texts repeat or coincide, the scores of all texts
    found add up to what the ranks of the two lists are worth.
   */
  lemma ScoresConserved(texts: seq<string>, bm25: seq<string>, vector: seq<string>)
    requires Distinct(texts) && forall t :: t in Texts(bm25, vector) ==> t in texts
    ensures SumScores(texts, bm25, vector) == Terms(|bm25|) + Terms(|vector|)
  {
    SumHitsTotal(texts, bm25);
    SumHitsTotal(texts, vector);
    SumSplits(texts, bm25, vector);
  }

  lemma {:induction false} SumSplits(texts: seq<string>, bm25: seq<string>, vector: seq<string>)
    ensures SumScores(texts, bm25, vector) == SumHits(texts, bm25) + SumHits(texts, vector)
  {
    if texts == [] {
    } else {
      SumSplits(texts[..|texts| - 1], bm25, vector);
    }
  }

  // ----- found by both searches against found by one -----

  predicate Both(bm25: seq<string>, vector: seq<string>, t: string) { t in bm25 && t in vector }

  predicate OnlyOne(bm25: seq<string>, vector: seq<string>, t: string) { (t in bm25) != (t in vector) }

  lemma {:induction false} HitsAtRank(list: seq<string>, rank: nat)
    requires Distinct(list) && rank < |list|
    ensures Hits(list, list[rank]) == Term(rank)
  {
    var n := |list| - 1;
    if rank == n {
      NoHits(list[..n], list[rank]);
    } else {
      assert list[rank] != list[n] && list[..n][rank] == list[rank];
      HitsAtRank(list[..n], rank);
    }
  }

  /** The worth of a rank shrinks with the rank. */
  lemma TermShrinks(r: nat, s: nat)
    requires r <= s
    ensures Term(r) >= Term(s) > 0.0
  {
    var x, y := 61.0 + r as real, 61.0 + s as real;
    assert Term(r) == 1.0 / x && Term(s) == 1.0 / y;
    assert 1.0 / x - 1.0 / y == (y - x) / (x * y);
  }

  /** In any two lists of at most `n` distinct texts, a text found by both beats a text found by one. */
  ghost predicate BothBeatsOne(n: nat) {
    forall bm25: seq<string>, vector: seq<string>, t: string, u: string ::
      Distinct(bm25) && Distinct(vector) && |bm25| <= n && |vector| <= n
      && Both(bm25, vector, t) && OnlyOne(bm25, vector, u)
      ==> Score(bm25, vector, t) > Score(bm25, vector, u)
  }

  lemma BothBeats(bm25: seq<string>, vector: seq<string>, t: string, u: string)
    requires Distinct(bm25) && Distinct(vector) && |bm25| <= 61 && |vector| <= 61
    requires Both(bm25, vector, t) && OnlyOne(bm25, vector, u)
    ensures Score(bm25, vector, t) > Score(bm25, vector, u)
  {
    var i :| 0 <= i < |bm25| && bm25[i] == t;
    var j :| 0 <= j < |vector| && vector[j] == t;
    HitsAtRank(bm25, i);
    HitsAtRank(vector, j);
    TermShrinks(i, 60);
    TermShrinks(j, 60);
    var single, other := if u in bm25 then bm25 else vector, if u in bm25 then vector else bm25;
    var k :| 0 <= k < |single| && single[k] == u;
    HitsAtRank(single, k);
    NoHits(other, u);
    TermShrinks(0, k);
    assert 2.0 * Term(60) > Term(0);
  }

  /** `n` distinct texts: every length of a repeated letter. */
  function Letters(c: char, n: nat): seq<string> {
    seq(n, i requires 0 <= i < n => seq(i + 1, _ => c))
  }

  lemma LettersDistinct(c: char, n: nat)
    ensures Distinct(Letters(c, n))
  {
    forall i, j | 0 <= i < j < n ensures Letters(c, n)[i] != Letters(c, n)[j] {
      assert |Letters(c, n)[i]| != |Letters(c, n)[j]|;
    }
  }

  /** Last in two lists of 62, a text found by both earns just what the first of either earns alone. */
  lemma TieAt62(a: seq<string>, b: seq<string>, t: string)
    requires Distinct(a + [t]) && Distinct(b + [t]) && |a| == |b| == 61 && a[0] !in b + [t]
    ensures Both(a + [t], b + [t], t) && OnlyOne(a + [t], b + [t], a[0])
    ensures Score(a + [t], b + [t], t) == Score(a + [t], b + [t], a[0])
  {
    hide Hits, Distinct;
    var bm25, vector := a + [t], b + [t];
    assert bm25[61] == vector[61] == t && bm25[0] == a[0];
    HitsAtRank(bm25, 61);
    HitsAtRank(vector, 61);
    HitsAtRank(bm25, 0);
    NoHits(vector, a[0]);
    assert Term(61) + Term(61) == Term(0);
  }

  lemma BothLosesAt62()
    ensures !BothBeatsOne(62)
  {
    var a, b, t := Letters('a', 61), Letters('b', 61), Letters('a', 62)[61];
    LettersDistinct('a', 62);
    assert a + [t] == Letters('a', 62);
    LettersDistinct('b', 61);
    var v := b + [t];
    forall x: string, y: string | x in b && (y in a || y == t) ensures x != y {
      assert x[0] == 'b' && y[0] == 'a';
    }
    forall i, j | 0 <= i < j < 62 ensures v[i] != v[j] {
      assert i < 61 ==> v[i] in b;
      assert j < 61 ==> v[j] == b[j];
    }
    assert a[0] in a && |a[0]| != |t|;
    TieAt62(a, b, t);
  }

  /** The exact threshold on the length of the lists. */
  lemma BothBeatsOneIff(n: nat)
    ensures BothBeatsOne(n) <==> n <= 61
  {
    if n <= 61 {
      forall bm25: seq<string>, vector: seq<string>, t: string, u: string |
        Distinct(bm25) && Distinct(vector) && |bm25| <= n && |vector| <= n
        && Both(bm25, vector, t) && OnlyOne(bm25, vector, u)
        ensures Score(bm25, vector, t) > Score(bm25, vector, u)
      {
        BothBeats(bm25, vector, t, u);
      }
    } else {
      BothLosesAt62();
    }
  }

  /** Each search asks for `3 * limit` texts, so the limit may be at most 20. */
  lemma LimitThreshold(limit: nat)
    ensures BothBeatsOne(3 * limit) <==> limit <= 20
  {
    BothBeatsOneIff(3 * limit);
  }

  /**
    What the caller hopes for: every text found by both comes before every text found
    by one, and is left out only when all the texts returned were found by both.
   */
  ghost predicate BothFirst(bm25: seq<string>, vector: seq<string>, out: seq<string>) {
    && (forall i, j ::
          (0 <= i < |out| && 0 <= j < |out| && Both(bm25, vector, out[i]) && OnlyOne(bm25, vector, out[j])) ==> i < j)
    && ((exists t :: Both(bm25, vector, t) && t !in out) ==> forall u :: u in out ==> Both(bm25, vector, u))
  }

  /** It gets that with a limit up to 20 and no repeats in either list. */
  lemma BothComeFirst(bm25: seq<string>, vector: seq<string>, limit: nat, out: seq<string>)
    requires limit <= 20 && |bm25| <= 3 * limit && |vector| <= 3 * limit
    requires Distinct(bm25) && Distinct(vector) && TopK(bm25, vector, limit, out)
    ensures BothFirst(bm25, vector, out)
  {
    LimitThreshold(limit);
    forall u | u in out && !Both(bm25, vector, u)
      ensures OnlyOne(bm25, vector, u)
    {
      assert u in Texts(bm25, vector);
    }
  }

  /** Every answer to every pair of result lists without repeats is as hoped for. */
  ghost predicate AlwaysBothFirst(limit: nat) {
    forall bm25: seq<string>, vector: seq<string>, out: seq<string> ::
      |bm25| <= 3 * limit && |vector| <= 3 * limit && Distinct(bm25) && Distinct(vector)
      && TopK(bm25, vector, limit, out)
      ==> BothFirst(bm25, vector, out)
  }

  lemma {:induction false} BestText(bm25: seq<string>, vector: seq<string>, texts: set<string>) returns (best: string)
    requires texts != {}
    ensures best in texts && forall t :: t in texts ==> Score(bm25, vector, t) <= Score(bm25, vector, best)
    decreases texts
  {
    hide Score;
    best :| best in texts;
    if texts == {best} {
    } else {
      var other := BestText(bm25, vector, texts - {best});
      if Score(bm25, vector, other) > Score(bm25, vector, best) { best := other; }
    }
  }

  /** There is always an answer. */
  lemma {:induction false} SomeTopK(bm25: seq<string>, vector: seq<string>, limit: nat) returns (out: seq<string>)
    ensures TopK(bm25, vector, limit, out)
  {
    hide Score;
    if limit == 0 {
      out := [];
    } else {
      var top := SomeTopK(bm25, vector, limit - 1);
      var all, used := Texts(bm25, vector), set t | t in top;
      DistinctSize(top);
      if all - used == {} {
        forall t | t in all ensures t in used { assert t !in all - used; }
        SubsetSize(all, used);
        out := top;
      } else {
        var best := BestText(bm25, vector, all - used);
        SubsetSize(used + {best}, all);
        out := top + [best];
      }
    }
  }

  lemma {:induction false} DistinctSize(xs: seq<string>)
    requires Distinct(xs)
    ensures |set t | t in xs| == |xs|
  {
    if xs == [] {
    } else {
      var init, last := xs[..|xs| - 1], xs[|xs| - 1];
      DistinctSize(init);
      assert (set t | t in xs) == (set t | t in init) + {last};
    }
  }

  lemma SubsetSize(a: set<string>, b: set<string>)
    requires a <= b
    ensures |a| <= |b|
  {
    assert b == a + (b - a);
  }

  /** Two lists of 62 texts that have none in common, each followed by `t`. */
  predicate LastInBoth(bm25: seq<string>, vector: seq<string>, t: string) {
    && |bm25| == |vector| == 63 && Distinct(bm25) && Distinct(vector) && bm25[62] == vector[62] == t
    && bm25[0] !in vector
  }

  /** Last in two lists of 63, a text found by both comes after the first of either, or not at all. */
  lemma LastInBothComesLate(bm25: seq<string>, vector: seq<string>, t: string, limit: nat, out: seq<string>)
    requires LastInBoth(bm25, vector, t) && 0 < limit && TopK(bm25, vector, limit, out)
    requires forall u :: Both(bm25, vector, u) ==> u == t
    ensures !BothFirst(bm25, vector, out)
  {
    hide Hits, Distinct;
    var first := bm25[0];
    HitsAtRank(bm25, 62);
    HitsAtRank(vector, 62);
    HitsAtRank(bm25, 0);
    NoHits(vector, first);
    assert Term(62) + Term(62) < Term(0);
    assert Both(bm25, vector, t) && OnlyOne(bm25, vector, first) && first in Texts(bm25, vector);
    if t in out {
      var i :| 0 <= i < |out| && out[i] == t;
      assert first in out;
    } else {
      assert t in Texts(bm25, vector);
      NotEmpty(Texts(bm25, vector), t);
      assert out[0] in out;
    }
  }

  lemma NotEmpty(texts: set<string>, t: string)
    requires t in texts
    ensures |texts| > 0
  {
  }

  lemma LateLists() returns (bm25: seq<string>, vector: seq<string>, t: string)
    ensures LastInBoth(bm25, vector, t) && forall u :: Both(bm25, vector, u) ==> u == t
  {
    bm25, t := Letters('a', 63), Letters('a', 63)[62];
    var b := Letters('b', 62);
    vector := b + [t];
    LettersDistinct('a', 63);
    LettersDistinct('b', 62);
    forall x: string, y: string | x in b && y in bm25 ensures x != y {
      assert x[0] == 'b' && y[0] == 'a';
    }
    assert t in bm25;
    forall i, j | 0 <= i < j < 63 ensures vector[i] != vector[j] {
      assert i < 62 ==> vector[i] in b;
      assert j < 62 ==> vector[j] == b[j];
    }
    assert bm25[0] in bm25 && |bm25[0]| != |t|;
  }

  /** The exact threshold on the limit, for what is returned. */
  lemma OutputThreshold(limit: nat)
    ensures AlwaysBothFirst(limit) <==> limit <= 20
  {
    hide TopK, BothFirst;
    if limit <= 20 {
      forall bm25: seq<string>, vector: seq<string>, out: seq<string> |
        |bm25| <= 3 * limit && |vector| <= 3 * limit && Distinct(bm25) && Distinct(vector)
        && TopK(bm25, vector, limit, out)
        ensures BothFirst(bm25, vector, out)
      {
        BothComeFirst(bm25, vector, limit, out);
      }
    } else {
      var bm25, vector, t := LateLists();
      var out := SomeTopK(bm25, vector, limit);
      LastInBothComesLate(bm25, vector, t, limit, out);
    }
  }

  /** The same of any two lists of at most `n` texts, which may repeat a text. */
  ghost predicate BothBeatsOneWithRepeats(n: nat) {
    forall bm25: seq<string>, vector: seq<string>, t: string, u: string ::
      |bm25| <= n && |vector| <= n && Both(bm25, vector, t) && OnlyOne(bm25, vector, u)
      ==> Score(bm25, vector, t) > Score(bm25, vector, u)
  }

  lemma {:induction false} HitsAtLeast(list: seq<string>, text: string)
    requires text in list
    ensures Hits(list, text) >= Term(|list| - 1)
  {
    var init, last := list[..|list| - 1], list[|list| - 1];
    assert list == init + [last];
    HitsNonNegative(init, text);
    if last != text {
      HitsAtLeast(init, text);
      TermShrinks(|init| - 1, |init|);
    }
  }

  lemma {:induction false} HitsNonNegative(list: seq<string>, text: string)
    ensures Hits(list, text) >= 0.0
  {
    if list == [] {
    } else {
      HitsNonNegative(list[..|list| - 1], text);
      TermShrinks(0, |list| - 1);
    }
  }

  /** In a list of two, a text that leaves room for another earns no more than the first rank. */
  lemma HitsOfTwo(list: seq<string>, t: string, u: string)
    requires |list| <= 2 && t in list && t != u
    ensures Hits(list, u) <= Term(0)
  {
    if |list| == 2 {
      assert list[..1] == [list[0]] && list[..1][..0] == [];
      assert Hits(list[..1], u) == if list[0] == u then Term(0) else 0.0;
      TermShrinks(0, 1);
    } else {
      assert list == [t];
      NoHits(list, u);
    }
  }

  lemma BothBeatsInTwo(bm25: seq<string>, vector: seq<string>, t: string, u: string)
    requires |bm25| <= 2 && |vector| <= 2 && Both(bm25, vector, t) && OnlyOne(bm25, vector, u)
    ensures Score(bm25, vector, t) > Score(bm25, vector, u)
  {
    HitsAtLeast(bm25, t);
    HitsAtLeast(vector, t);
    TermShrinks(|bm25| - 1, 1);
    TermShrinks(|vector| - 1, 1);
    HitsOfTwo(bm25, t, u);
    HitsOfTwo(vector, t, u);
    NoHits(if u in bm25 then vector else bm25, u);
    assert Term(1) + Term(1) > Term(0);
  }

  /** A text repeated within one list can beat a text found by both. */
  lemma RepeatBeatsBoth()
    ensures var bm25, vector := ["u", "u", "t"], ["t"];
            Both(bm25, vector, "t") && OnlyOne(bm25, vector, "u") && Score(bm25, vector, "t") < Score(bm25, vector, "u")
  {
    var bm25, vector, t, u := ["u", "u", "t"], ["t"], "t", "u";
    assert bm25[..2] == [u, u] && bm25[..2][..1] == [u] && [u][..0] == [] && vector[..0] == [];
    assert Hits([u], u) == Term(0) && Hits([u], t) == 0.0;
    assert Hits([u, u], u) == Term(0) + Term(1) && Hits([u, u], t) == 0.0;
  }

  /**
    Where texts may repeat, the exact threshold is lists of two.  Each search is
    asked for three times the limit, so no limit but zero is safe.
   */
  lemma RepeatsThreshold(n: nat, limit: nat)
    ensures BothBeatsOneWithRepeats(n) <==> n <= 2
    ensures BothBeatsOneWithRepeats(3 * limit) <==> limit == 0
  {
    WithRepeatsIff(n);
    WithRepeatsIff(3 * limit);
  }

  lemma WithRepeatsIff(n: nat)
    ensures BothBeatsOneWithRepeats(n) <==> n <= 2
  {
    if n <= 2 {
      forall bm25: seq<string>, vector: seq<string>, t: string, u: string |
        |bm25| <= n && |vector| <= n && Both(bm25, vector, t) && OnlyOne(bm25, vector, u)
        ensures Score(bm25, vector, t) > Score(bm25, vector, u)
      {
        BothBeatsInTwo(bm25, vector, t, u);
      }
    } else {
      RepeatBeatsBoth();
    }
  }
}
