/**
 * The vector index as the pipelines see it (core/vector_store.py): either
 * nothing has been saved yet, or the chunks of the last build are saved.
 * Embedding and similarity ranking are floating-point work done by
 * libraries; ranking is a parameter here.
 */
module VectorIndex {
  import opened Outcomes

  /** The number of chunks a search asks for (`k=4`) */
  const TopK: nat := 4

  /** Loading fails because no index has been saved */
  datatype SearchError = NotFound

  /** Similarity ranking over the saved chunks: (chunks, query, k) to the chunks returned */
  type Ranker = (seq<string>, string, nat) -> seq<string>

  /**
   * search_similar_documents: fails with NotFound exactly when no index has
   * been saved; otherwise ranks the saved chunks against the query.
   */
  function Search(index: Option<seq<string>>, query: string, rank: Ranker): (r: Result<seq<string>, SearchError>)
    ensures r.Failure? <==> index.None?
    ensures r.Success? ==> r.value == rank(index.value, query, TopK)
  {
    match index
    case None => Failure(NotFound)
    case Some(chunks) => Success(rank(chunks, query, TopK))
  }

  /** The index location on disk */
  class Store {
    /** The chunks of the last build, or None when nothing was ever saved */
    var index: Option<seq<string>>
    /** Every build so far, oldest first */
    ghost var builds: seq<seq<string>>

    constructor ()
      ensures index == None && builds == []
    {
      index := None;
      builds := [];
    }

    /** create_vector_store: replaces whatever was saved with an index of these chunks */
    method Build(chunks: seq<string>)
      modifies this
      ensures index == Some(chunks)
      ensures builds == old(builds) + [chunks]
    {
      index := Some(chunks);
      builds := builds + [chunks];
    }
  }
}
