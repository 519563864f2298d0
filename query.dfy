/** The first half of `RAGSystem.findRelevantChunks`: the query's term-to-count `Map`
    and the similarity of the query to one chunk's weight table. */
module Query {
  import opened Tfidf

  /** The `queryTfidf` `Map`: its keys in insertion order, and the count of each. */
  datatype QueryVector = QueryVector(terms: seq<string>, count: map<string, nat>)

  predicate Distinct(terms: seq<string>) {
    forall i, j :: 0 <= i < j < |terms| ==> terms[i] != terms[j]
  }

  /** Every key the `Map` iterates over has a count. */
  predicate KeysCounted(q: QueryVector) {
    forall i :: 0 <= i < |q.terms| ==> q.terms[i] in q.count
  }

  /** The shape of a `Map`: each key listed once, and the listed keys are the counted ones. */
  predicate WellFormed(q: QueryVector) {
    && Distinct(q.terms)
    && KeysCounted(q)
    && forall t :: t in q.count ==> t in q.terms
  }

  /** `queryTfidf.get(t) || 0`. */
  function CountOf(count: map<string, nat>, t: string): nat {
    if t in count then count[t] else 0
  }

  /** `queryTfidf.set(t, (queryTfidf.get(t) || 0) + 1)`: a new key goes to the end of the
      iteration order, an existing key keeps its place. */
  function Bump(q: QueryVector, t: string): QueryVector {
    if t in q.count then QueryVector(q.terms, q.count[t := q.count[t] + 1])
    else QueryVector(q.terms + [t], q.count[t := 1])
  }

  /** The `Map` after counting the stemmed query tokens `stems`, in order. */
  function Vectorize(stems: seq<string>): QueryVector {
    if stems == [] then QueryVector([], map[])
    else Bump(Vectorize(stems[..|stems| - 1]), stems[|stems| - 1])
  }

  /** The stem of each token, in order. */
  function Stems(tokens: seq<string>, stem: string -> string): (stems: seq<string>)
    ensures |stems| == |tokens|
    ensures forall i :: 0 <= i < |tokens| ==> stems[i] == stem(tokens[i])
  {
    seq(|tokens|, i requires 0 <= i < |tokens| => stem(tokens[i]))
  }

  /** Counting keeps the `Map` shape. */
  lemma {:induction false} VectorizeWellFormed(stems: seq<string>)
    ensures WellFormed(Vectorize(stems))
  {
    if stems != [] {
      var q := Vectorize(stems[..|stems| - 1]);
      var t := stems[|stems| - 1];
      VectorizeWellFormed(stems[..|stems| - 1]);
      if t !in q.count {
        var terms := q.terms + [t];
        forall i, j | 0 <= i < j < |terms| ensures terms[i] != terms[j] {
          assert terms[i] == q.terms[i];
        }
      }
    }
  }

  /** The count of every term is the number of query tokens that stem to it, and the
      counted terms are exactly the stems that occur. */
  lemma {:induction false} VectorizeCounts(stems: seq<string>)
    ensures forall t :: CountOf(Vectorize(stems).count, t) == multiset(stems)[t]
    ensures forall t :: t in Vectorize(stems).count <==> t in stems
  {
    if stems != [] {
      var init := stems[..|stems| - 1];
      VectorizeCounts(init);
      assert stems == init + [stems[|stems| - 1]];
    }
  }

  /** `scores[term] || 0`: a term missing from the chunk's table weighs 0. */
  function Weight(table: WeightTable, t: string): real {
    if t in table then table[t] else 0.0
  }

  /** The sum, over the keys `terms` in order, of count times weight. */
  function Dot(terms: seq<string>, count: map<string, nat>, table: WeightTable): real {
    if terms == [] then 0.0
    else
      var t := terms[|terms| - 1];
      Dot(terms[..|terms| - 1], count, table) + (CountOf(count, t) as real) * Weight(table, t)
  }

  /** The similarity of the query `q` to a chunk with weight table `table`. */
  function Score(q: QueryVector, table: WeightTable): real {
    Dot(q.terms, q.count, table)
  }

  /** The sum of the weights of the stemmed query tokens, one term per token. */
  function TokenSum(stems: seq<string>, table: WeightTable): real {
    if stems == [] then 0.0
    else TokenSum(stems[..|stems| - 1], table) + Weight(table, stems[|stems| - 1])
  }

  /** `Dot` only looks at the counts of the terms it sums over. */
  lemma {:induction false} DotSameCounts(terms: seq<string>, count: map<string, nat>, other: map<string, nat>, table: WeightTable)
    requires forall i :: 0 <= i < |terms| ==> CountOf(count, terms[i]) == CountOf(other, terms[i])
    ensures Dot(terms, count, table) == Dot(terms, other, table)
  {
    if terms != [] {
      DotSameCounts(terms[..|terms| - 1], count, other, table);
    }
  }

  /** Adding one to the count of a term listed once adds its weight once. */
  lemma {:induction false} DotBump(terms: seq<string>, count: map<string, nat>, t: string, table: WeightTable)
    requires Distinct(terms) && t in terms
    ensures Dot(terms, count[t := CountOf(count, t) + 1], table) == Dot(terms, count, table) + Weight(table, t)
  {
    var init, last := terms[..|terms| - 1], terms[|terms| - 1];
    var bumped := count[t := CountOf(count, t) + 1];
    assert Distinct(init);
    if last == t {
      forall i | 0 <= i < |init| ensures CountOf(bumped, init[i]) == CountOf(count, init[i]) {
        assert init[i] == terms[i] != terms[|terms| - 1];
      }
      DotSameCounts(init, bumped, count, table);
      assert (CountOf(bumped, t) as real) == (CountOf(count, t) as real) + 1.0;
    } else {
      assert t in init by {
        var k :| 0 <= k < |terms| && terms[k] == t;
        assert init[k] == t;
      }
      DotBump(init, count, t, table);
    }
  }

  /** Counting one more token adds that token's weight to the score. */
  lemma BumpAddsWeight(q: QueryVector, t: string, table: WeightTable)
    requires WellFormed(q)
    ensures Score(Bump(q, t), table) == Score(q, table) + Weight(table, t)
  {
    if t in q.count {
      assert CountOf(q.count, t) == q.count[t];
      DotBump(q.terms, q.count, t, table);
    } else {
      var terms := q.terms + [t];
      assert terms[..|terms| - 1] == q.terms;
      forall i | 0 <= i < |q.terms| ensures CountOf(q.count[t := 1], q.terms[i]) == CountOf(q.count, q.terms[i]) {
        assert q.terms[i] in q.count;
      }
      DotSameCounts(q.terms, q.count[t := 1], q.count, table);
    }
  }

  /** The similarity is the sum over query terms of count times weight, so it equals
      the sum over the query tokens of the weight of each token's stem. */
  lemma {:induction false} ScoreIsTokenSum(stems: seq<string>, table: WeightTable)
    ensures Score(Vectorize(stems), table) == TokenSum(stems, table)
  {
    if stems != [] {
      var init := stems[..|stems| - 1];
      ScoreIsTokenSum(init, table);
      VectorizeWellFormed(init);
      BumpAddsWeight(Vectorize(init), stems[|stems| - 1], table);
    }
  }

  /** The loop at the top of `findRelevantChunks`: stem each token and count it. */
  method BuildQueryVector(tokens: seq<string>, stem: string -> string) returns (q: QueryVector)
    ensures q == Vectorize(Stems(tokens, stem))
  {
    q := QueryVector([], map[]);
    for i := 0 to |tokens|
      invariant q == Vectorize(Stems(tokens, stem)[..i])
    {
      var stems := Stems(tokens, stem);
      assert stems[..i + 1][..i] == stems[..i];
      var cleanToken := stem(tokens[i]);
      var previous := if cleanToken in q.count then q.count[cleanToken] else 0;
      var terms := if cleanToken in q.count then q.terms else q.terms + [cleanToken];
      q := QueryVector(terms, q.count[cleanToken := previous + 1]);
    }
    assert Stems(tokens, stem)[..|tokens|] == Stems(tokens, stem);
  }

  /** The inner loop of `findRelevantChunks`: `similarity += queryFreq * docScore` over
      the entries of the query `Map`. */
  method Similarity(q: QueryVector, scores: WeightTable) returns (similarity: real)
    requires KeysCounted(q)
    ensures similarity == Score(q, scores)
  {
    similarity := 0.0;
    for i := 0 to |q.terms|
      invariant similarity == Dot(q.terms[..i], q.count, scores)
    {
      var term := q.terms[i];
      var queryFreq := q.count[term];
      var docScore := if term in scores then scores[term] else 0.0;
      assert q.terms[..i + 1][..i] == q.terms[..i];
      similarity := similarity + (queryFreq as real) * docScore;
    }
    assert q.terms[..|q.terms|] == q.terms;
  }
}
