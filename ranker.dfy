/** The second half of `RAGSystem.findRelevantChunks`: score every chunk, sort by
    similarity (highest first, ties in chunk order), keep the first `topK`, and drop
    those whose similarity is not positive. */
module Ranker {
  import opened Text
  import opened Natural
  import opened Chunker
  import opened Tfidf
  import opened Query

  /** `{ chunk, similarity, index }`. */
  datatype Scored = Scored(chunk: Chunk, similarity: real, index: nat)

  /** The query `Map` for `query` (`tokenize(query.toLowerCase())`, then stem and count). */
  function QueryOf(query: string, tools: Toolkit): QueryVector {
    Vectorize(Stems(tools.tokenize(tools.lowerCase(query)), tools.stem))
  }

  /** `chunks.map((chunk, index) => ({ chunk, similarity, index }))`. */
  function Similarities(chunks: seq<Chunk>, tables: seq<WeightTable>, q: QueryVector): (sims: seq<Scored>)
    requires |chunks| <= |tables|
    ensures |sims| == |chunks|
    ensures forall i :: 0 <= i < |chunks| ==> sims[i] == Scored(chunks[i], Score(q, tables[i]), i)
  {
    seq(|chunks|, i requires 0 <= i < |chunks| => Scored(chunks[i], Score(q, tables[i]), i))
  }

  /** The scoring pass: each chunk paired with its similarity and its own index. */
  method ScoreChunks(chunks: seq<Chunk>, tables: seq<WeightTable>, q: QueryVector) returns (sims: seq<Scored>)
    requires |chunks| <= |tables| && KeysCounted(q)
    ensures sims == Similarities(chunks, tables, q)
  {
    sims := [];
    for index := 0 to |chunks|
      invariant sims == Similarities(chunks, tables, q)[..index]
    {
      var similarity := Similarity(q, tables[index]);
      sims := sims + [Scored(chunks[index], similarity, index)];
    }
  }

  /** `a` comes before `b` in the sorted list: a higher similarity, or the same one and an
      earlier chunk. */
  predicate Before(a: Scored, b: Scored) {
    a.similarity > b.similarity || (a.similarity == b.similarity && a.index < b.index)
  }

  /** Similarities never increase along `s`. */
  predicate Descending(s: seq<Scored>) {
    forall i, j :: 0 <= i < j < |s| ==> s[i].similarity >= s[j].similarity
  }

  /** `s` is in the order a stable descending sort of chunks given in index order leaves. */
  predicate RankedOrder(s: seq<Scored>) {
    forall i, j :: 0 <= i < j < |s| ==> Before(s[i], s[j])
  }

  /** The chunk indices increase along `s`, as they do in the list `chunks.map` builds. */
  predicate IndexIncreasing(s: seq<Scored>) {
    forall i, j :: 0 <= i < j < |s| ==> s[i].index < s[j].index
  }

  /** Put `x` before the first element of `sorted` whose similarity is not higher. */
  function Insert(x: Scored, sorted: seq<Scored>): seq<Scored> {
    if sorted == [] || sorted[0].similarity <= x.similarity then [x] + sorted
    else [sorted[0]] + Insert(x, sorted[1..])
  }

  /** `sort((a, b) => b.similarity - a.similarity)`: `Array.prototype.sort` is stable, so
      this is a stable insertion sort, highest similarity first. */
  function SortBySimilarity(s: seq<Scored>): seq<Scored> {
    if s == [] then [] else Insert(s[0], SortBySimilarity(s[1..]))
  }

  /** Inserting adds exactly `x`. */
  lemma {:induction false} InsertAddsOne(x: Scored, sorted: seq<Scored>)
    ensures multiset(Insert(x, sorted)) == multiset(sorted) + multiset{x}
  {
    if sorted != [] && sorted[0].similarity > x.similarity {
      InsertAddsOne(x, sorted[1..]);
      assert sorted == [sorted[0]] + sorted[1..];
    }
  }

  /** Inserting into a descending list keeps it descending. */
  lemma {:induction false} InsertDescending(x: Scored, sorted: seq<Scored>)
    requires Descending(sorted)
    ensures Descending(Insert(x, sorted))
  {
    if sorted != [] && sorted[0].similarity > x.similarity {
      var rest := Insert(x, sorted[1..]);
      InsertDescending(x, sorted[1..]);
      InsertAddsOne(x, sorted[1..]);
      forall k | 0 <= k < |rest| ensures sorted[0].similarity >= rest[k].similarity {
        assert rest[k] in multiset(sorted[1..]) + multiset{x};
      }
    }
  }

  /** Inserting an element whose index precedes all others keeps the stable order. */
  lemma {:induction false} InsertRanked(x: Scored, sorted: seq<Scored>)
    requires RankedOrder(sorted)
    requires forall k :: 0 <= k < |sorted| ==> x.index < sorted[k].index
    ensures RankedOrder(Insert(x, sorted))
  {
    if sorted != [] && sorted[0].similarity > x.similarity {
      var rest := Insert(x, sorted[1..]);
      InsertRanked(x, sorted[1..]);
      InsertAddsOne(x, sorted[1..]);
      forall k | 0 <= k < |rest| ensures Before(sorted[0], rest[k]) {
        assert rest[k] in multiset(sorted[1..]) + multiset{x};
      }
    } else if sorted != [] {
      forall k | 0 <= k < |sorted| ensures Before(x, sorted[k]) {
        assert Before(sorted[0], sorted[k]) || k == 0;
      }
    }
  }

  /** Sorting keeps every entry: the result is a permutation of the input. */
  lemma {:induction false} SortPermutes(s: seq<Scored>)
    ensures multiset(SortBySimilarity(s)) == multiset(s)
  {
    if s != [] {
      SortPermutes(s[1..]);
      InsertAddsOne(s[0], SortBySimilarity(s[1..]));
      assert s == [s[0]] + s[1..];
    }
  }

  /** The sorted list is in descending similarity order. */
  lemma {:induction false} SortDescending(s: seq<Scored>)
    ensures Descending(SortBySimilarity(s))
  {
    if s != [] {
      SortDescending(s[1..]);
      InsertDescending(s[0], SortBySimilarity(s[1..]));
    }
  }

  /** Stability: chunks listed in index order come out by descending similarity, and
      by index among equal similarities. */
  lemma {:induction false} SortStable(s: seq<Scored>)
    requires IndexIncreasing(s)
    ensures RankedOrder(SortBySimilarity(s))
  {
    if s != [] {
      var sorted := SortBySimilarity(s[1..]);
      SortStable(s[1..]);
      SortPermutes(s[1..]);
      forall k | 0 <= k < |sorted| ensures s[0].index < sorted[k].index {
        assert sorted[k] in multiset(s[1..]);
        var m :| 0 <= m < |s[1..]| && s[1..][m] == sorted[k];
        assert s[m + 1] == sorted[k];
      }
      InsertRanked(s[0], sorted);
    }
  }

  /** Where `slice(0, k)` stops on a list of length `n`: a negative `k` counts back
      from the end. */
  function SliceEnd(n: nat, k: int): (e: nat)
    ensures e <= n
    ensures 0 <= k ==> e == Min(k, n)
    ensures k < 0 ==> e == Max(n + k, 0)
  {
    if k < 0 then (if n + k < 0 then 0 else n + k) else if k < n then k else n
  }

  /** `slice(0, k)`. */
  function SliceFront(s: seq<Scored>, k: int): seq<Scored> {
    s[..SliceEnd(|s|, k)]
  }

  /** `filter(item => item.similarity > 0)`. */
  function KeepPositive(s: seq<Scored>): seq<Scored> {
    if s == [] then []
    else (if s[0].similarity > 0.0 then [s[0]] else []) + KeepPositive(s[1..])
  }

  /** The filter keeps exactly the entries with a positive similarity. */
  lemma {:induction false} KeepPositiveKeeps(s: seq<Scored>)
    ensures |KeepPositive(s)| <= |s|
    ensures forall x :: x in KeepPositive(s) <==> x in s && x.similarity > 0.0
  {
    if s != [] {
      KeepPositiveKeeps(s[1..]);
      assert s == [s[0]] + s[1..];
    }
  }

  /** The filter keeps the order of what it keeps. */
  lemma {:induction false} KeepPositiveInOrder(s: seq<Scored>)
    requires RankedOrder(s)
    ensures RankedOrder(KeepPositive(s))
  {
    if s != [] {
      var rest := KeepPositive(s[1..]);
      assert RankedOrder(s[1..]) by {
        forall i, j | 0 <= i < j < |s[1..]| ensures Before(s[1..][i], s[1..][j]) {
          assert s[1..][i] == s[i + 1] && s[1..][j] == s[j + 1];
        }
      }
      KeepPositiveInOrder(s[1..]);
      KeepPositiveKeeps(s[1..]);
      forall k | 0 <= k < |rest| ensures Before(s[0], rest[k]) {
        var m :| 0 <= m < |s[1..]| && s[1..][m] == rest[k];
        assert s[m + 1] == rest[k];
      }
    }
  }

  /** A list whose similarities are all positive passes the filter unchanged. */
  lemma {:induction false} KeepPositiveAll(s: seq<Scored>)
    requires forall k :: 0 <= k < |s| ==> s[k].similarity > 0.0
    ensures KeepPositive(s) == s
  {
    if s != [] {
      KeepPositiveAll(s[1..]);
      assert s == [s[0]] + s[1..];
    }
  }

  /** `similarities.sort(...).slice(0, topK).filter(...)`. */
  function Rank(sims: seq<Scored>, topK: int): seq<Scored> {
    KeepPositive(SliceFront(SortBySimilarity(sims), topK))
  }

  /** Entry `x` is outranked by the whole ranking: the ranking holds `topK` entries (when
      `topK` is not negative), and every one of them scores at least as high as `x`. */
  predicate Outranked(ranked: seq<Scored>, x: Scored, topK: int) {
    && (0 <= topK ==> |ranked| == topK)
    && forall i :: 0 <= i < |ranked| ==> ranked[i].similarity >= x.similarity
  }

  /** Sorting keeps the length. */
  lemma SortKeepsLength(s: seq<Scored>)
    ensures |SortBySimilarity(s)| == |s|
  {
    SortPermutes(s);
    assert |multiset(SortBySimilarity(s))| == |multiset(s)|;
  }

  /** The ranking holds at most `topK` entries and is in stable descending order. */
  lemma RankBounded(sims: seq<Scored>, topK: int)
    requires IndexIncreasing(sims)
    ensures 0 <= topK ==> |Rank(sims, topK)| <= topK
    ensures |Rank(sims, topK)| <= |sims|
    ensures RankedOrder(Rank(sims, topK))
  {
    var sorted := SortBySimilarity(sims);
    var front := SliceFront(sorted, topK);
    SortKeepsLength(sims);
    SortStable(sims);
    KeepPositiveKeeps(front);
    assert RankedOrder(front) by {
      forall i, j | 0 <= i < j < |front| ensures Before(front[i], front[j]) {
        assert front[i] == sorted[i] && front[j] == sorted[j];
      }
    }
    KeepPositiveInOrder(front);
  }

  /** Every ranked entry has a positive similarity and comes from `sims`. */
  lemma RankFromSims(sims: seq<Scored>, topK: int)
    ensures forall x :: x in Rank(sims, topK) ==> x.similarity > 0.0 && x in sims
  {
    var sorted := SortBySimilarity(sims);
    var front := SliceFront(sorted, topK);
    SortPermutes(sims);
    KeepPositiveKeeps(front);
    forall x | x in Rank(sims, topK) ensures x in sims {
      var k :| 0 <= k < |front| && front[k] == x;
      assert sorted[k] == x;
      assert x in multiset(sorted);
    }
  }

  /** A positive entry of `sims` is left out of the ranking only when `topK` entries
      (for `topK >= 0`) make it, each scoring at least as high. */
  lemma RankComplete(sims: seq<Scored>, topK: int, y: Scored)
    requires y in sims && y.similarity > 0.0 && y !in Rank(sims, topK)
    ensures Outranked(Rank(sims, topK), y, topK)
  {
    var sorted := SortBySimilarity(sims);
    var e := SliceEnd(|sorted|, topK);
    var front := SliceFront(sorted, topK);
    SortPermutes(sims);
    SortDescending(sims);
    KeepPositiveKeeps(front);
    assert y in multiset(sorted);
    var p :| 0 <= p < |sorted| && sorted[p] == y;
    forall i | 0 <= i < e ensures sorted[i] != y {
      assert front[i] == sorted[i];
    }
    forall i | 0 <= i < |front| ensures front[i].similarity >= y.similarity > 0.0 {
      assert front[i] == sorted[i];
    }
    KeepPositiveAll(front);
  }

  /** The ranking holds at most `topK` entries, all with a positive similarity, all
      taken from `sims`, highest similarity first and ties by chunk index; a positive
      entry of `sims` is missing only when `topK` entries score at least as high. */
  lemma RankIsTopK(sims: seq<Scored>, topK: int)
    requires IndexIncreasing(sims)
    ensures 0 <= topK ==> |Rank(sims, topK)| <= topK
    ensures |Rank(sims, topK)| <= |sims|
    ensures forall x :: x in Rank(sims, topK) ==> x.similarity > 0.0 && x in sims
    ensures RankedOrder(Rank(sims, topK))
    ensures forall x :: x in sims && x.similarity > 0.0 && x !in Rank(sims, topK) ==>
      Outranked(Rank(sims, topK), x, topK)
  {
    RankBounded(sims, topK);
    RankFromSims(sims, topK);
    forall y | y in sims && y.similarity > 0.0 && y !in Rank(sims, topK)
      ensures Outranked(Rank(sims, topK), y, topK)
    {
      RankComplete(sims, topK, y);
    }
  }

  /** `findRelevantChunks(query, chunks, tfidfScores, topK)`: the ranking of the chunks by
      similarity to the query. At most `topK` entries (for `topK >= 0`), each with a
      positive similarity, each pairing a chunk with its own index and that chunk's
      similarity, highest first and ties by chunk index. */
  method FindRelevantChunks(query: string, chunks: seq<Chunk>, tfidfScores: seq<WeightTable>, topK: int, tools: Toolkit)
    returns (ranked: seq<Scored>)
    requires |chunks| <= |tfidfScores|
    ensures ranked == Rank(Similarities(chunks, tfidfScores, QueryOf(query, tools)), topK)
    ensures 0 <= topK ==> |ranked| <= topK
    ensures |ranked| <= |chunks|
    ensures RankedOrder(ranked)
    ensures forall x :: x in ranked ==>
      && 0.0 < x.similarity && x.index < |chunks| && x.chunk == chunks[x.index]
      && x.similarity == Score(QueryOf(query, tools), tfidfScores[x.index])
  {
    var queryTokens := tools.tokenize(tools.lowerCase(query));
    var queryTfidf := BuildQueryVector(queryTokens, tools.stem);
    VectorizeWellFormed(Stems(queryTokens, tools.stem));
    var similarities := ScoreChunks(chunks, tfidfScores, queryTfidf);
    ranked := Rank(similarities, topK);
    RankIsTopK(similarities, topK);
    forall x | x in ranked
      ensures x.index < |chunks| && x.chunk == chunks[x.index]
      ensures x.similarity == Score(queryTfidf, tfidfScores[x.index])
    {
      var i :| 0 <= i < |similarities| && similarities[i] == x;
    }
  }
}
