/** `RAGSystem.calculateTFIDF`: one term-to-weight table per chunk, in chunk order,
    filled from what the library's `TfIdf.listTerms` reports for that chunk. */
module Tfidf {
  import opened Natural
  import opened Chunker

  /** The `scores` object built for one chunk. */
  type WeightTable = map<string, real>

  /** The terms listed in `items`. */
  function Terms(items: seq<TermScore>): set<string> {
    set i | 0 <= i < |items| :: items[i].term
  }

  /** No later entry of `items` lists the same term as entry `i`. */
  predicate LastFor(items: seq<TermScore>, i: nat)
    requires i < |items|
  {
    forall k :: i < k < |items| ==> items[k].term != items[i].term
  }

  /** The table `scores[item.term] = item.tfidf` leaves after the listed items, in order. */
  function TableOf(items: seq<TermScore>): WeightTable {
    if items == [] then map[]
    else
      var last := items[|items| - 1];
      TableOf(items[..|items| - 1])[last.term := last.tfidf]
  }

  /** The table holds exactly the listed terms. */
  lemma {:induction false} TableOfKeys(items: seq<TermScore>)
    ensures TableOf(items).Keys == Terms(items)
  {
    if items != [] {
      var init := items[..|items| - 1];
      TableOfKeys(init);
      forall t | t in Terms(items) ensures t in Terms(init) + {items[|items| - 1].term} {
        var i :| 0 <= i < |items| && items[i].term == t;
        if i < |init| {
          assert init[i] == items[i];
        }
      }
      forall t | t in Terms(init) ensures t in Terms(items) {
        var i :| 0 <= i < |init| && init[i].term == t;
        assert items[i] == init[i];
      }
    }
  }

  /** Each listed term maps to the weight of the LAST entry listing it: a later entry
      for the same term overwrites an earlier one. */
  lemma {:induction false} TableOfKeepsLast(items: seq<TermScore>)
    ensures forall i :: 0 <= i < |items| && LastFor(items, i) ==>
      items[i].term in TableOf(items) && TableOf(items)[items[i].term] == items[i].tfidf
  {
    if items != [] {
      var init := items[..|items| - 1];
      TableOfKeepsLast(init);
      forall i | 0 <= i < |items| - 1 && LastFor(items, i)
        ensures items[i].term in TableOf(items) && TableOf(items)[items[i].term] == items[i].tfidf
      {
        assert init[i] == items[i];
        assert LastFor(init, i) by {
          forall k | i < k < |init| ensures init[k].term != init[i].term {
            assert init[k] == items[k];
          }
        }
      }
    }
  }

  /** The inner `forEach` of `calculateTFIDF`: copies the listed items into a fresh
      `scores` table, one at a time. */
  method TermTable(items: seq<TermScore>) returns (scores: WeightTable)
    ensures scores == TableOf(items)
  {
    scores := map[];
    for i := 0 to |items|
      invariant scores == TableOf(items[..i])
    {
      assert items[..i + 1][..i] == items[..i];
      scores := scores[items[i].term := items[i].tfidf];
    }
    assert items[..|items|] == items;
  }

  /** The texts of `chunks`, in order (`chunks.map(chunk => chunk.text)`). */
  function Texts(chunks: seq<Chunk>): (docs: seq<string>)
    ensures |docs| == |chunks|
    ensures forall i :: 0 <= i < |chunks| ==> docs[i] == chunks[i].text
  {
    seq(|chunks|, i requires 0 <= i < |chunks| => chunks[i].text)
  }

  /** What `calculateTFIDF(chunks)` returns: for each chunk, the table of the terms the
      library lists for it among all the chunk texts. */
  function WeightTables(chunks: seq<Chunk>, tools: Toolkit): seq<WeightTable> {
    seq(|chunks|, i requires 0 <= i < |chunks| => TableOf(tools.listTerms(Texts(chunks), i)))
  }

  /** `calculateTFIDF`: one table per chunk, index-aligned with the chunks, each holding
      exactly the terms the library lists for that chunk. */
  method CalculateTfidf(chunks: seq<Chunk>, tools: Toolkit) returns (tables: seq<WeightTable>)
    ensures |tables| == |chunks|
    ensures tables == WeightTables(chunks, tools)
  {
    var documents := Texts(chunks);
    tables := [];
    for docIndex := 0 to |documents|
      invariant tables == WeightTables(chunks, tools)[..docIndex]
    {
      var scores := TermTable(tools.listTerms(documents, docIndex));
      tables := tables + [scores];
    }
  }

  /** Table `i` of `WeightTables` holds exactly the terms listed for chunk `i`, each with
      the weight of its last listing. */
  lemma WeightTablesHoldListedTerms(chunks: seq<Chunk>, tools: Toolkit, i: nat)
    requires i < |chunks|
    ensures |WeightTables(chunks, tools)| == |chunks|
    ensures WeightTables(chunks, tools)[i].Keys == Terms(tools.listTerms(Texts(chunks), i))
    ensures forall j :: 0 <= j < |tools.listTerms(Texts(chunks), i)| && LastFor(tools.listTerms(Texts(chunks), i), j) ==>
      WeightTables(chunks, tools)[i][tools.listTerms(Texts(chunks), i)[j].term]
        == tools.listTerms(Texts(chunks), i)[j].tfidf
  {
    TableOfKeys(tools.listTerms(Texts(chunks), i));
    TableOfKeepsLast(tools.listTerms(Texts(chunks), i));
  }
}
