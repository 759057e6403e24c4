/**
  `Indexer`: naming the chunks of a set of documents, and writing them to the two
  indexes, the vector table and the full-text table, when any write can fail.
 */
module Indexing {
  import opened Prelude
  import Chunker
  import Strings

  datatype Document = Document(id: string, text: string)

  /** A row of either index: chunk id and chunk text. */
  type Row = (string, string)

  // ----- chunk ids -----

  function Decimal(n: nat): string {
    (if n < 10 then "" else Decimal(n / 10)) + ["0123456789"[n % 10]]
  }

  /** The number that decimal digits stand for. */
  function Value(digits: string): int {
    if digits == "" then 0
    else 10 * Value(digits[..|digits| - 1]) + (digits[|digits| - 1] as int - '0' as int)
  }

  /** Printing is the usual one: digits only, of the right value, without leading zeros. */
  lemma {:induction false} DecimalMeans(n: nat)
    ensures Value(Decimal(n)) == n && Decimal(n) != ""
    ensures forall c :: c in Decimal(n) ==> '0' <= c <= '9'
    ensures Decimal(n)[0] == '0' ==> n == 0
  {
    var last := "0123456789"[n % 10];
    assert last as int - '0' as int == n % 10 && '0' <= last <= '9';
    if n < 10 {
      assert Decimal(n) == [last] && [last][..0] == "";
    } else {
      DecimalMeans(n / 10);
      assert Decimal(n)[..|Decimal(n)| - 1] == Decimal(n / 10);
    }
  }

  function ChunkId(id: string, i: nat): string { id + "#chunk" + Decimal(i) }

  /** The ids of a document's chunks: its own id when there is one chunk, numbered ids otherwise. */
  function IdsFor(id: string, count: nat): seq<string> {
    if count == 1 then [id] else seq(count, i requires 0 <= i < count => ChunkId(id, i))
  }

  function AllIds(ids: seq<string>, counts: seq<nat>): seq<string>
    requires |ids| == |counts|
  {
    if ids == [] then []
    else AllIds(ids[..|ids| - 1], counts[..|ids| - 1]) + IdsFor(ids[|ids| - 1], counts[|ids| - 1])
  }

  lemma {:induction false} DecimalInjective(m: nat, n: nat)
    requires Decimal(m) == Decimal(n)
    ensures m == n
  {
    var dm, dn := Decimal(m), Decimal(n);
    assert dm[|dm| - 1] == "0123456789"[m % 10] && dn[|dn| - 1] == "0123456789"[n % 10];
    assert m % 10 == n % 10;
    DecimalLength(m);
    DecimalLength(n);
    if m >= 10 && n >= 10 {
      assert Decimal(m / 10) == dm[..|dm| - 1] == dn[..|dn| - 1] == Decimal(n / 10);
      DecimalInjective(m / 10, n / 10);
    }
  }

  lemma DecimalLength(n: nat)
    ensures |Decimal(n)| == 1 <==> n < 10
  {
    if n >= 10 { assert |Decimal(n / 10)| > 0; }
  }

  lemma {:induction false} DecimalHasNoHash(n: nat)
    ensures '#' !in Decimal(n)
  {
    if n >= 10 { DecimalHasNoHash(n / 10); }
  }

  /** The last '#' of a numbered id is where the document's own id ends. */
  lemma LastHash(id: string, i: nat, k: nat)
    requires |id| < k < |ChunkId(id, i)|
    ensures ChunkId(id, i)[k] != '#'
  {
    DecimalHasNoHash(i);
    var tail := "chunk" + Decimal(i);
    assert ChunkId(id, i) == id + "#" + tail;
    assert ChunkId(id, i)[k] == tail[k - |id| - 1];
    assert '#' !in tail;
  }

  /** Numbered ids determine the document and the number, whatever the document ids hold. */
  lemma ChunkIdInjective(x: string, i: nat, y: string, j: nat)
    requires ChunkId(x, i) == ChunkId(y, j)
    ensures x == y && i == j
  {
    var s := ChunkId(x, i);
    assert s[|x|] == '#' && s[|y|] == '#';
    if |x| < |y| { LastHash(x, i, |y|); }
    if |y| < |x| { LastHash(y, j, |x|); }
    assert x == s[..|x|] == y;
    assert Decimal(i) == s[|x| + 6..] == Decimal(j);
    DecimalInjective(i, j);
  }

  /** Some document's id is the numbered id of another document's chunk. */
  ghost predicate Clash(ids: seq<string>) {
    exists a, b, i: nat :: 0 <= a < |ids| && 0 <= b < |ids| && ids[b] == ChunkId(ids[a], i)
  }

  lemma DistinctAppend<T>(xs: seq<T>, ys: seq<T>)
    ensures Distinct(xs + ys) <==> Distinct(xs) && Distinct(ys) && forall x :: x in xs ==> x !in ys
  {
    var all := xs + ys;
    if Distinct(xs) && Distinct(ys) && forall x :: x in xs ==> x !in ys {
      forall i, j | 0 <= i < j < |all| ensures all[i] != all[j] {
        assert i < |xs| ==> all[i] in xs;
        assert j >= |xs| ==> all[j] in ys;
      }
    }
    if Distinct(all) {
      forall i, j | 0 <= i < j < |xs| ensures xs[i] != xs[j] { assert all[i] != all[j]; }
      forall i, j | 0 <= i < j < |ys| ensures ys[i] != ys[j] { assert all[|xs| + i] != all[|xs| + j]; }
      forall i, j | 0 <= i < |xs| && 0 <= j < |ys| ensures xs[i] != ys[j] { assert all[i] != all[|xs| + j]; }
    }
  }

  /** `x` is one of the chunk ids of the `k`-th document. */
  predicate Owns(ids: seq<string>, counts: seq<nat>, k: nat, x: string)
    requires k < |ids| == |counts|
  {
    x in IdsFor(ids[k], counts[k])
  }

  lemma {:induction false} AllIdsOwned(ids: seq<string>, counts: seq<nat>, x: string)
    requires |ids| == |counts|
    ensures x in AllIds(ids, counts) <==> exists k: nat :: k < |ids| && Owns(ids, counts, k, x)
  {
    hide IdsFor;
    if ids == [] {
    } else {
      var n := |ids| - 1;
      AllIdsOwned(ids[..n], counts[..n], x);
      forall k: nat | k < n ensures Owns(ids[..n], counts[..n], k, x) == Owns(ids, counts, k, x) {
      }
      assert (x in IdsFor(ids[n], counts[n])) == Owns(ids, counts, n, x);
    }
  }

  lemma IdsForDistinct(id: string, count: nat)
    ensures Distinct(IdsFor(id, count))
  {
    hide ChunkId;
    forall i, j | 0 <= i < j < |IdsFor(id, count)| ensures IdsFor(id, count)[i] != IdsFor(id, count)[j] {
      if ChunkId(id, i) == ChunkId(id, j) { ChunkIdInjective(id, i, id, j); }
    }
  }

  lemma IdsForDisjoint(ids: seq<string>, a: nat, b: nat, m: nat, n: nat, x: string)
    requires Distinct(ids) && !Clash(ids) && a < b < |ids| && x in IdsFor(ids[a], m)
    ensures x !in IdsFor(ids[b], n)
  {
    hide ChunkId;
    assert ids[a] != ids[b];
    if x in IdsFor(ids[b], n) && m != 1 && n != 1 {
      var i :| 0 <= i < m && x == ChunkId(ids[a], i);
      var j :| 0 <= j < n && x == ChunkId(ids[b], j);
      ChunkIdInjective(ids[a], i, ids[b], j);
    }
  }

  lemma {:induction false} NoClashDistinct(ids: seq<string>, counts: seq<nat>)
    requires |ids| == |counts| && Distinct(ids) && !Clash(ids)
    ensures Distinct(AllIds(ids, counts))
  {
    hide IdsFor, ChunkId;
    if ids == [] {
    } else {
      var n := |ids| - 1;
      var init, more := AllIds(ids[..n], counts[..n]), IdsFor(ids[n], counts[n]);
      forall a, b, i: nat | 0 <= a < n && 0 <= b < n ensures ids[..n][b] != ChunkId(ids[..n][a], i) {
        assert ids[b] != ChunkId(ids[a], i);
      }
      NoClashDistinct(ids[..n], counts[..n]);
      IdsForDistinct(ids[n], counts[n]);
      forall x | x in init ensures x !in more {
        AllIdsOwned(ids[..n], counts[..n], x);
        var k: nat :| k < n && Owns(ids[..n], counts[..n], k, x);
        IdsForDisjoint(ids, k, n, counts[k], counts[n], x);
      }
      DistinctAppend(init, more);
    }
  }

  lemma {:induction false} DistinctMeansDisjoint(ids: seq<string>, counts: seq<nat>, a: nat, b: nat, x: string)
    requires |ids| == |counts| && Distinct(AllIds(ids, counts)) && a < |ids| && b < |ids| && a != b
    requires x in IdsFor(ids[a], counts[a])
    ensures x !in IdsFor(ids[b], counts[b])
  {
    hide IdsFor, Distinct;
    var n := |ids| - 1;
    DistinctAppend(AllIds(ids[..n], counts[..n]), IdsFor(ids[n], counts[n]));
    AllIdsOwned(ids[..n], counts[..n], x);
    assert a < n ==> Owns(ids[..n], counts[..n], a, x) == Owns(ids, counts, a, x);
    assert b < n ==> Owns(ids[..n], counts[..n], b, x) == Owns(ids, counts, b, x);
    if a < n && b < n {
      DistinctMeansDisjoint(ids[..n], counts[..n], a, b, x);
    }
  }

  /**
    For documents with distinct ids: their chunk ids are pairwise distinct, however
    many chunks each document has, exactly when no document's id is a numbered id
    of another one.
   */
  lemma ChunkIdsDistinctIff(ids: seq<string>)
    requires Distinct(ids)
    ensures (forall counts: seq<nat> | |counts| == |ids| :: Distinct(AllIds(ids, counts))) <==> !Clash(ids)
  {
    if !Clash(ids) {
      forall counts: seq<nat> | |counts| == |ids| ensures Distinct(AllIds(ids, counts)) {
        NoClashDistinct(ids, counts);
      }
    } else {
      var a, b, i: nat :| 0 <= a < |ids| && 0 <= b < |ids| && ids[b] == ChunkId(ids[a], i);
      ClashCollides(ids, a, b, i);
    }
  }

  lemma NumberedAmong(id: string, i: nat)
    ensures ChunkId(id, i) in IdsFor(id, i + 2) && ChunkId(id, i) != id
  {
    assert IdsFor(id, i + 2)[i] == ChunkId(id, i);
    assert |ChunkId(id, i)| > |id|;
  }

  lemma OwnAmong(id: string)
    ensures id in IdsFor(id, 1)
  {
  }

  lemma ClashCollides(ids: seq<string>, a: nat, b: nat, i: nat)
    requires a < |ids| && b < |ids| && ids[b] == ChunkId(ids[a], i)
    ensures exists counts: seq<nat> :: |counts| == |ids| && !Distinct(AllIds(ids, counts))
  {
    hide IdsFor, AllIds, Distinct, ChunkId;
    var counts: seq<nat> := seq(|ids|, k => if k == a then i + 2 else if k == b then 1 else 0);
    NumberedAmong(ids[a], i);
    OwnAmong(ids[b]);
    if Distinct(AllIds(ids, counts)) {
      DistinctMeansDisjoint(ids, counts, a, b, ids[b]);
    }
  }

  /** The usual case: ids without a '#' never clash. */
  lemma HashFreeIdsNeverClash(ids: seq<string>)
    requires forall id :: id in ids ==> '#' !in id
    ensures !Clash(ids)
  {
    forall a, b, i: nat | 0 <= a < |ids| && 0 <= b < |ids| ensures ids[b] != ChunkId(ids[a], i) {
      assert ids[b] in ids;
      assert ChunkId(ids[a], i)[|ids[a]|] == '#';
    }
  }

  // ----- the rows of a set of documents -----

  function DocumentRows(doc: Document, cfg: Chunker.ChunkConfig): seq<Row> {
    var chunks := Chunker.Split(doc.text, cfg);
    seq(|chunks|, i requires 0 <= i < |chunks| =>
      (if |chunks| == 1 then doc.id else ChunkId(doc.id, i), chunks[i]))
  }

  /** A document whose text is blank has no rows. */
  function ChunkCount(doc: Document, cfg: Chunker.ChunkConfig): nat {
    if Strings.Blank(doc.text) then 0 else |Chunker.Split(doc.text, cfg)|
  }

  function Rows(docs: seq<Document>, cfg: Chunker.ChunkConfig): seq<Row> {
    if docs == [] then [] else
    var doc := docs[|docs| - 1];
    Rows(docs[..|docs| - 1], cfg) + if Strings.Blank(doc.text) then [] else DocumentRows(doc, cfg)
  }

  /**
    The rows of a set of documents: for each one that is not blank, each of its chunks,
    under the document's id if it is the only one and otherwise under a number from 0.
   */
  lemma {:induction false} RowsIff(docs: seq<Document>, cfg: Chunker.ChunkConfig, id: string, text: string)
    ensures (id, text) in Rows(docs, cfg) <==> exists d, i :: 0 <= d < |docs| && IsRow(docs[d], cfg, i, id, text)
  {
    hide Strings.Blank, Chunker.Split, Decimal;
    if docs == [] {
    } else {
      var n := |docs| - 1;
      RowsIff(docs[..n], cfg, id, text);
      forall d, i | 0 <= d < n ensures IsRow(docs[..n][d], cfg, i, id, text) == IsRow(docs[d], cfg, i, id, text) { }
      RowsLast(docs, cfg);
      if Strings.Blank(docs[n].text) {
        assert forall i :: !IsRow(docs[n], cfg, i, id, text);
      } else {
        DocumentRowsIff(docs[n], cfg, id, text);
      }
      hide Rows, DocumentRows, IsRow;
    }
  }

  predicate IsRow(doc: Document, cfg: Chunker.ChunkConfig, i: int, id: string, text: string) {
    var chunks := Chunker.Split(doc.text, cfg);
    && !Strings.Blank(doc.text) && 0 <= i < |chunks| && text == chunks[i]
    && id == if |chunks| == 1 then doc.id else doc.id + "#chunk" + Decimal(i)
  }

  lemma DocumentRowsIff(doc: Document, cfg: Chunker.ChunkConfig, id: string, text: string)
    requires !Strings.Blank(doc.text)
    ensures (id, text) in DocumentRows(doc, cfg) <==> exists i :: IsRow(doc, cfg, i, id, text)
  {
    hide Strings.Blank, Chunker.Split, Decimal;
    var rows := DocumentRows(doc, cfg);
    forall i | 0 <= i < |rows| ensures rows[i] == (id, text) <==> IsRow(doc, cfg, i, id, text) { }
  }

  function Ids(rows: seq<Row>): seq<string> {
    seq(|rows|, i requires 0 <= i < |rows| => rows[i].0)
  }

  function DocumentIds(docs: seq<Document>): seq<string> {
    seq(|docs|, i requires 0 <= i < |docs| => docs[i].id)
  }

  function Counts(docs: seq<Document>, cfg: Chunker.ChunkConfig): seq<nat> {
    seq(|docs|, i requires 0 <= i < |docs| => ChunkCount(docs[i], cfg))
  }

  lemma DocumentRowIds(doc: Document, cfg: Chunker.ChunkConfig)
    ensures Ids(if Strings.Blank(doc.text) then [] else DocumentRows(doc, cfg)) == IdsFor(doc.id, ChunkCount(doc, cfg))
  {
    hide Chunker.Split, Strings.Blank, ChunkId;
  }

  lemma {:induction false} RowIds(docs: seq<Document>, cfg: Chunker.ChunkConfig)
    ensures Ids(Rows(docs, cfg)) == AllIds(DocumentIds(docs), Counts(docs, cfg))
  {
    hide DocumentRows, IdsFor, ChunkCount, Strings.Blank;
    if docs == [] {
    } else {
      var n := |docs| - 1;
      RowIds(docs[..n], cfg);
      assert DocumentIds(docs)[..n] == DocumentIds(docs[..n]);
      assert Counts(docs, cfg)[..n] == Counts(docs[..n], cfg);
      var last := if Strings.Blank(docs[n].text) then [] else DocumentRows(docs[n], cfg);
      DocumentRowIds(docs[n], cfg);
      assert Ids(Rows(docs[..n], cfg) + last) == Ids(Rows(docs[..n], cfg)) + Ids(last);
    }
  }

  /** The rows collected for the external embedder have pairwise distinct ids. */
  lemma CollectedIdsDistinct(docs: seq<Document>, cfg: Chunker.ChunkConfig)
    requires Distinct(DocumentIds(docs)) && !Clash(DocumentIds(docs))
    ensures Distinct(Ids(Rows(docs, cfg)))
  {
    RowIds(docs, cfg);
    NoClashDistinct(DocumentIds(docs), Counts(docs, cfg));
  }

  /** The source's nested loops over the documents of one source and their chunks. */
  method CollectChunks(docs: seq<Document>, cfg: Chunker.ChunkConfig) returns (out: seq<Row>)
    ensures out == Rows(docs, cfg)
  {
    hide Chunker.Split, Strings.Blank, ChunkId;
    out := [];
    for d := 0 to |docs|
      invariant out == Rows(docs[..d], cfg)
    {
      var doc := docs[d];
      assert docs[..d + 1][..d] == docs[..d];
      if Strings.Blank(doc.text) {
        continue;
      }
      var chunks := Chunker.SplitText(doc.text, cfg);
      ghost var before := out;
      ghost var rows := DocumentRows(doc, cfg);
      for i := 0 to |chunks|
        invariant out == before + rows[..i]
      {
        var id := if |chunks| == 1 then doc.id else ChunkId(doc.id, i);
        assert rows[..i + 1] == rows[..i] + [(id, chunks[i])];
        out := out + [(id, chunks[i])];
      }
      assert rows[..|rows|] == rows;
    }
    assert docs[..|docs|] == docs;
  }

  // ----- two indexes, and writes that fail -----

  /** What becomes of one chunk: both writes done, nothing written, or only the vector row. */
  datatype Fate = Stored | FailedBefore | FailedBetween

  /** The chunks stored before the first failure, of `n` attempts from the `a`-th on. */
  function StoredFrom(fate: nat -> Fate, a: nat, n: nat): (k: nat)
    ensures k <= n
    decreases n
  {
    if n == 0 || !fate(a).Stored? then 0 else 1 + StoredFrom(fate, a + 1, n - 1)
  }

  /** The vector rows written: one more than were stored when the failure came between the two writes. */
  function VectorsFrom(fate: nat -> Fate, a: nat, n: nat): (k: nat)
    ensures StoredFrom(fate, a, n) <= k <= n
  {
    var k := StoredFrom(fate, a, n);
    if k < n && fate(a + k).FailedBetween? then k + 1 else k
  }

  /** `part` is `whole` with some rows left out, order kept. */
  predicate Embeds(part: seq<Row>, whole: seq<Row>) {
    if whole == [] then part == []
    else
      var init := whole[..|whole| - 1];
      || (part != [] && part[|part| - 1] == whole[|whole| - 1] && Embeds(part[..|part| - 1], init))
      || Embeds(part, init)
  }

  lemma {:induction false} EmbedsMore(part: seq<Row>, whole: seq<Row>, rows: seq<Row>, f: nat, v: nat)
    requires Embeds(part, whole) && f <= v <= |rows|
    ensures Embeds(part + rows[..f], whole + rows[..v])
    decreases v
  {
    if v == 0 {
      assert part + rows[..f] == part && whole + rows[..v] == whole;
    } else {
      assert (whole + rows[..v])[..|whole| + v - 1] == whole + rows[..v - 1];
      if f == v {
        assert (part + rows[..f])[..|part| + f - 1] == part + rows[..f - 1];
        EmbedsMore(part, whole, rows, f - 1, v - 1);
      } else {
        EmbedsMore(part, whole, rows, f, v - 1);
      }
    }
  }

  /** The two indexes, and how many chunks were tried so far. */
  datatype Index = Index(vectors: seq<Row>, fts: seq<Row>, attempts: nat)

  const EMPTY := Index([], [], 0)

  /** Trying `rows` in order, up to the first failure. */
  function AfterRows(ix: Index, fate: nat -> Fate, rows: seq<Row>): Index {
    var f := StoredFrom(fate, ix.attempts, |rows|);
    Index(ix.vectors + rows[..VectorsFrom(fate, ix.attempts, |rows|)],
          ix.fts + rows[..f],
          ix.attempts + if f < |rows| then f + 1 else f)
  }

  /** One chunk: both rows, or none, or only the vector row. */
  lemma OneRow(ix: Index, fate: nat -> Fate, id: string, text: string)
    ensures AfterRows(ix, fate, [(id, text)])
         == match fate(ix.attempts)
            case Stored => Index(ix.vectors + [(id, text)], ix.fts + [(id, text)], ix.attempts + 1)
            case FailedBefore => Index(ix.vectors, ix.fts, ix.attempts + 1)
            case FailedBetween => Index(ix.vectors + [(id, text)], ix.fts, ix.attempts + 1)
  {
    assert [(id, text)][..1] == [(id, text)] && [(id, text)][..0] == [];
  }

  predicate AllStored(ix: Index, fate: nat -> Fate, rows: seq<Row>) {
    StoredFrom(fate, ix.attempts, |rows|) == |rows|
  }

  lemma {:induction false} StoredFromSplit(fate: nat -> Fate, a: nat, m: nat, n: nat)
    ensures StoredFrom(fate, a, m + n)
         == if StoredFrom(fate, a, m) < m then StoredFrom(fate, a, m) else m + StoredFrom(fate, a + m, n)
    decreases m
  {
    if m > 0 && fate(a).Stored? { StoredFromSplit(fate, a + 1, m - 1, n); }
  }

  lemma TakeLater(rows: seq<Row>, more: seq<Row>, n: nat)
    requires |rows| <= n <= |rows + more|
    ensures (rows + more)[..n] == rows + more[..n - |rows|]
  {
  }

  /** Rows tried in two goes are rows tried in one, as long as the first go does not fail. */
  lemma AfterRowsAppend(ix: Index, fate: nat -> Fate, rows: seq<Row>, more: seq<Row>)
    ensures AllStored(ix, fate, rows) ==>
              && AfterRows(ix, fate, rows + more) == AfterRows(AfterRows(ix, fate, rows), fate, more)
              && AllStored(ix, fate, rows + more) == AllStored(AfterRows(ix, fate, rows), fate, more)
    ensures !AllStored(ix, fate, rows) ==>
              AfterRows(ix, fate, rows + more) == AfterRows(ix, fate, rows) && !AllStored(ix, fate, rows + more)
  {
    hide StoredFrom;
    StoredFromSplit(fate, ix.attempts, |rows|, |more|);
    var f, v := StoredFrom(fate, ix.attempts, |rows + more|), VectorsFrom(fate, ix.attempts, |rows + more|);
    if AllStored(ix, fate, rows) {
      TakeLater(rows, more, f);
      TakeLater(rows, more, v);
      TakeLater(rows, [], |rows|);
    } else {
      assert (rows + more)[..f] == rows[..f] && (rows + more)[..v] == rows[..v];
    }
  }

  /** One data source of one indexing run: its documents, or a query that failed. */
  datatype Source = Loaded(docs: seq<Document>) | Unreadable

  function SourceRows(source: Source, cfg: Chunker.ChunkConfig): seq<Row> {
    if source.Loaded? then Rows(source.docs, cfg) else []
  }

  /** The source was indexed without an error. */
  predicate Succeeds(ix: Index, fate: nat -> Fate, source: Source, cfg: Chunker.ChunkConfig) {
    source.Loaded? && AllStored(ix, fate, SourceRows(source, cfg))
  }

  /** Indexing sources one after the other; an error ends its own source only. */
  function AfterSources(ix: Index, fate: nat -> Fate, sources: seq<Source>, cfg: Chunker.ChunkConfig): Index {
    if sources == [] then ix else
    AfterRows(AfterSources(ix, fate, sources[..|sources| - 1], cfg), fate, SourceRows(sources[|sources| - 1], cfg))
  }

  /** A source indexed without an error is in both indexes, whatever failed before it or after it. */
  lemma {:induction false} SourceIsIndexed(ix: Index, fate: nat -> Fate, sources: seq<Source>,
                                           cfg: Chunker.ChunkConfig, k: nat, row: Row)
    requires k < |sources| && Succeeds(AfterSources(ix, fate, sources[..k], cfg), fate, sources[k], cfg)
    requires row in SourceRows(sources[k], cfg)
    ensures row in AfterSources(ix, fate, sources, cfg).fts && row in AfterSources(ix, fate, sources, cfg).vectors
  {
    hide SourceRows, StoredFrom;
    var n := |sources| - 1;
    if k == n {
      var rows := SourceRows(sources[n], cfg);
      assert rows[..|rows|] == rows;
    } else {
      assert sources[..n][..k] == sources[..k];
      SourceIsIndexed(ix, fate, sources[..n], cfg, k, row);
    }
  }

  function Failures(ix: Index, fate: nat -> Fate, sources: seq<Source>, cfg: Chunker.ChunkConfig): nat {
    if sources == [] then 0 else
    var init := sources[..|sources| - 1];
    Failures(ix, fate, init, cfg)
    + if Succeeds(AfterSources(ix, fate, init, cfg), fate, sources[|sources| - 1], cfg) then 0 else 1
  }

  /** The source's first failure came between the two writes of a chunk. */
  predicate Halves(ix: Index, fate: nat -> Fate, source: Source, cfg: Chunker.ChunkConfig) {
    var n := |SourceRows(source, cfg)|;
    var f := StoredFrom(fate, ix.attempts, n);
    f < n && fate(ix.attempts + f).FailedBetween?
  }

  function Halved(ix: Index, fate: nat -> Fate, sources: seq<Source>, cfg: Chunker.ChunkConfig): nat {
    if sources == [] then 0 else
    var init := sources[..|sources| - 1];
    Halved(ix, fate, init, cfg)
    + if Halves(AfterSources(ix, fate, init, cfg), fate, sources[|sources| - 1], cfg) then 1 else 0
  }

  /** One indexing run: the sources it indexes, with the configuration it has loaded. */
  datatype IndexRun = IndexRun(sources: seq<Source>, cfg: Chunker.ChunkConfig)

  /** The two indexes after any number of runs. */
  function AfterRuns(fate: nat -> Fate, runs: seq<IndexRun>): Index {
    if runs == [] then EMPTY else
    var run := runs[|runs| - 1];
    AfterSources(AfterRuns(fate, runs[..|runs| - 1]), fate, run.sources, run.cfg)
  }

  function HalvedInRuns(fate: nat -> Fate, runs: seq<IndexRun>): nat {
    if runs == [] then 0 else
    var init, run := runs[..|runs| - 1], runs[|runs| - 1];
    HalvedInRuns(fate, init) + Halved(AfterRuns(fate, init), fate, run.sources, run.cfg)
  }

  function FailuresInRuns(fate: nat -> Fate, runs: seq<IndexRun>): nat {
    if runs == [] then 0 else
    var init, run := runs[..|runs| - 1], runs[|runs| - 1];
    FailuresInRuns(fate, init) + Failures(AfterRuns(fate, init), fate, run.sources, run.cfg)
  }

  lemma {:induction false} SourcesStayPaired(ix: Index, fate: nat -> Fate, sources: seq<Source>,
                                             cfg: Chunker.ChunkConfig)
    requires Embeds(ix.fts, ix.vectors)
    ensures var after := AfterSources(ix, fate, sources, cfg);
            && Embeds(after.fts, after.vectors)
            && |after.vectors| - |after.fts| == |ix.vectors| - |ix.fts| + Halved(ix, fate, sources, cfg)
  {
    hide SourceRows, Embeds, StoredFrom;
    if sources == [] {
    } else {
      var n := |sources| - 1;
      SourcesStayPaired(ix, fate, sources[..n], cfg);
      var before, rows := AfterSources(ix, fate, sources[..n], cfg), SourceRows(sources[n], cfg);
      EmbedsMore(before.fts, before.vectors, rows, StoredFrom(fate, before.attempts, |rows|),
                 VectorsFrom(fate, before.attempts, |rows|));
    }
  }

  /**
    Over any number of indexing runs, each with its own configuration, whatever fails:
    the full-text rows are the vector rows with some left out, in the same order with
    the same ids and texts, and exactly one is left out for each time a source failed
    between the two writes of a chunk.
   */
  lemma {:induction false} IndexesStayPaired(fate: nat -> Fate, runs: seq<IndexRun>)
    ensures var ix := AfterRuns(fate, runs);
            Embeds(ix.fts, ix.vectors) && |ix.vectors| == |ix.fts| + HalvedInRuns(fate, runs)
  {
    hide AfterSources, Halved;
    if runs == [] {
    } else {
      var n := |runs| - 1;
      IndexesStayPaired(fate, runs[..n]);
      SourcesStayPaired(AfterRuns(fate, runs[..n]), fate, runs[n].sources, runs[n].cfg);
    }
  }

  function AllRows(sources: seq<Source>, cfg: Chunker.ChunkConfig): seq<Row> {
    if sources == [] then [] else AllRows(sources[..|sources| - 1], cfg) + SourceRows(sources[|sources| - 1], cfg)
  }

  function RowsOfRuns(runs: seq<IndexRun>): seq<Row> {
    if runs == [] then [] else
    RowsOfRuns(runs[..|runs| - 1]) + AllRows(runs[|runs| - 1].sources, runs[|runs| - 1].cfg)
  }

  lemma {:induction false} NoFailureInSources(ix: Index, fate: nat -> Fate, sources: seq<Source>,
                                              cfg: Chunker.ChunkConfig)
    requires Failures(ix, fate, sources, cfg) == 0
    ensures var after, rows := AfterSources(ix, fate, sources, cfg), AllRows(sources, cfg);
            after.vectors == ix.vectors + rows && after.fts == ix.fts + rows
  {
    hide SourceRows, StoredFrom;
    if sources == [] {
    } else {
      var n := |sources| - 1;
      NoFailureInSources(ix, fate, sources[..n], cfg);
      var rows := SourceRows(sources[n], cfg);
      assert rows[..|rows|] == rows;
    }
  }

  /** Without a failure both indexes hold exactly the rows of every source of every run. */
  lemma {:induction false} NoFailureNothingMissing(fate: nat -> Fate, runs: seq<IndexRun>)
    requires FailuresInRuns(fate, runs) == 0
    ensures var ix := AfterRuns(fate, runs); ix.fts == ix.vectors == RowsOfRuns(runs)
  {
    hide AfterSources, Failures, AllRows;
    if runs == [] {
    } else {
      var n := |runs| - 1;
      NoFailureNothingMissing(fate, runs[..n]);
      NoFailureInSources(AfterRuns(fate, runs[..n]), fate, runs[n].sources, runs[n].cfg);
    }
  }

  class Indexer {
    var vectorRows: seq<Row>
    var ftsRows: seq<Row>
    var attempts: nat
    const fate: nat -> Fate    // what becomes of the n-th chunk tried

    ghost function View(): Index
      reads this
    {
      Index(vectorRows, ftsRows, attempts)
    }

    constructor (fate: nat -> Fate)
      ensures View() == EMPTY && this.fate == fate
    {
      vectorRows, ftsRows, attempts := [], [], 0;
      this.fate := fate;
    }

    method IndexText(id: string, text: string) returns (ok: bool)
      modifies this
      ensures View() == AfterRows(old(View()), fate, [(id, text)])
      ensures ok == AllStored(old(View()), fate, [(id, text)])
    {
      var f := fate(attempts);
      attempts := attempts + 1;
      if f.FailedBefore? {
        return false;
      }
      vectorRows := vectorRows + [(id, text)];
      if f.FailedBetween? {
        return false;
      }
      ftsRows := ftsRows + [(id, text)];
      return true;
    }

    method IndexDocument(doc: Document, cfg: Chunker.ChunkConfig) returns (ok: bool)
      modifies this
      ensures View() == AfterRows(old(View()), fate, DocumentRows(doc, cfg))
      ensures ok == AllStored(old(View()), fate, DocumentRows(doc, cfg))
    {
      hide Chunker.Split, ChunkId, AfterRows, AllStored;
      var chunks := Chunker.SplitText(doc.text, cfg);
      ghost var rows := DocumentRows(doc, cfg);
      ok := true;
      NoRows(View(), fate);
      for i := 0 to |chunks|
        invariant View() == AfterRows(old(View()), fate, rows[..i]) && AllStored(old(View()), fate, rows[..i])
        invariant ok
      {
        var id := if |chunks| == 1 then doc.id else ChunkId(doc.id, i);
        AfterRowsAppend(old(View()), fate, rows[..i], [(id, chunks[i])]);
        assert rows[..i + 1] == rows[..i] + [(id, chunks[i])];
        ok := IndexText(id, chunks[i]);
        if !ok {
          AfterRowsAppend(old(View()), fate, rows[..i + 1], rows[i + 1..]);
          assert rows[..i + 1] + rows[i + 1..] == rows;
          return;
        }
      }
      assert rows[..|rows|] == rows;
    }

    /** One source: its documents in order, skipping blank ones, up to the first error. */
    method IndexSource(source: Source, cfg: Chunker.ChunkConfig) returns (ok: bool)
      modifies this
      ensures View() == AfterRows(old(View()), fate, SourceRows(source, cfg))
      ensures ok == Succeeds(old(View()), fate, source, cfg)
    {
      hide DocumentRows, AfterRows, AllStored, Strings.Blank;
      NoRows(View(), fate);
      if source.Unreadable? {
        return false;
      }
      var docs := source.docs;
      for d := 0 to |docs|
        invariant View() == AfterRows(old(View()), fate, Rows(docs[..d], cfg))
        invariant AllStored(old(View()), fate, Rows(docs[..d], cfg))
      {
        ghost var before, rows := Rows(docs[..d], cfg), DocumentRows(docs[d], cfg);
        assert docs[..d + 1][..d] == docs[..d];
        if Strings.Blank(docs[d].text) {
          assert before + [] == before;
          continue;
        }
        AfterRowsAppend(old(View()), fate, before, rows);
        ok := IndexDocument(docs[d], cfg);
        if !ok {
          RowsSplit(docs, d + 1, cfg);
          AfterRowsAppend(old(View()), fate, Rows(docs[..d + 1], cfg), Rows(docs[d + 1..], cfg));
          return;
        }
      }
      assert docs[..|docs|] == docs;
      ok := true;
    }

    /** One run over the sources in scope that changed; errors are logged and the next source follows. */
    method IndexAll(sources: seq<Source>, cfg: Chunker.ChunkConfig) returns (logged: nat)
      modifies this
      ensures View() == AfterSources(old(View()), fate, sources, cfg)
      ensures logged == Failures(old(View()), fate, sources, cfg)
    {
      hide AfterRows, Succeeds, SourceRows;
      logged := 0;
      for k := 0 to |sources|
        invariant View() == AfterSources(old(View()), fate, sources[..k], cfg)
        invariant logged == Failures(old(View()), fate, sources[..k], cfg)
      {
        assert sources[..k + 1][..k] == sources[..k];
        var ok := IndexSource(sources[k], cfg);
        if !ok {
          logged := logged + 1;
        }
      }
      assert sources[..|sources|] == sources;
    }
  }

  lemma NoRows(ix: Index, fate: nat -> Fate)
    ensures AfterRows(ix, fate, []) == ix && AllStored(ix, fate, [])
  {
  }

  lemma RowsLast(docs: seq<Document>, cfg: Chunker.ChunkConfig)
    requires docs != []
    ensures var doc := docs[|docs| - 1];
            Rows(docs, cfg) == Rows(docs[..|docs| - 1], cfg)
                               + if Strings.Blank(doc.text) then [] else DocumentRows(doc, cfg)
  {
  }

  lemma {:induction false} RowsSplit(docs: seq<Document>, d: nat, cfg: Chunker.ChunkConfig)
    requires d <= |docs|
    ensures Rows(docs, cfg) == Rows(docs[..d], cfg) + Rows(docs[d..], cfg)
  {
    hide DocumentRows, Strings.Blank;
    var n := |docs| - 1;
    if d == |docs| {
      assert docs[..d] == docs && docs[d..] == [];
      assert Rows(docs, cfg) + [] == Rows(docs, cfg);
    } else {
      hide Rows;
      var tail := docs[d..];
      RowsSplit(docs[..n], d, cfg);
      assert docs[..n][..d] == docs[..d] && docs[..n][d..] == tail[..|tail| - 1];
      RowsLast(docs, cfg);
      RowsLast(tail, cfg);
      assert tail[|tail| - 1] == docs[n];
      Regroup(Rows(docs[..d], cfg), Rows(tail[..|tail| - 1], cfg),
              if Strings.Blank(docs[n].text) then [] else DocumentRows(docs[n], cfg));
    }
  }
}
