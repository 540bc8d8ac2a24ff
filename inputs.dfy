/**
 * What the chatbots receive from the outside: the vector store's answer to a
 * similarity search and the hosted model's answer to a completion request.
 * Neither service is modelled; their results are inputs.
 */
module Inputs {

  /**
   * The state of the vector store for one query: there is no store, the
   * store ranks its documents for the query (most similar first; only the
   * texts matter), or the search raises.
   */
  datatype Retrieval = NoStore | Ranked(docs: seq<string>) | SearchError

  /** `similarity_search(query, k)`: the first `k` documents of the ranking. */
  function TopK(docs: seq<string>, k: nat): (r: seq<string>)
    ensures r <= docs
    ensures |r| <= k
    ensures |r| < k ==> r == docs
  {
    if |docs| <= k then docs else docs[..k]
  }

  /** `llm.invoke(prompt)`: the reply's `content`, or an exception. */
  datatype Completion = Reply(content: string) | CallFailed
}
