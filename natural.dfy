/** The parts of the `natural` library (and of `String.prototype.toLowerCase`) the
    retrieval engine calls. Their internals are outside this model: they are passed
    in as functions. */
module Natural {

  /** One entry of `TfIdf.listTerms(docIndex)`: a term and its weight in that document. */
  datatype TermScore = TermScore(term: string, tfidf: real)

  /** `lowerCase` stands for `toLowerCase`, `tokenize` for `WordTokenizer.tokenize`,
      `stem` for `PorterStemmer.stem`, and `listTerms(documents, i)` for what
      `listTerms(i)` reports once every text of `documents` has been added, in order, to
      a fresh `TfIdf`. */
  datatype Toolkit = Toolkit(
    lowerCase: string -> string,
    tokenize: string -> seq<string>,
    stem: string -> string,
    listTerms: (seq<string>, nat) -> seq<TermScore>)
}
