/**
 * The `/hybrid-chat` handler of the conversation-chain variant: retrieve, render the context,
 * hand question and context to the conversation chain (which keeps its own history), and answer
 * with the chain's response and the debug counts.
 */
module HybridEndpoint {
  import opened Wrappers
  import opened Chunks
  import opened Retriever
  import Context
  import Rank

  /** What the base prompt is built from: the question and the rendered context. */
  datatype BasePrompt = BasePrompt(question: string, context: string)

  /** The JSON body of a successful response. */
  datatype Response = Response(answer: string, debug: Debug)

  /** The handler: retrieval, context, one conversation-chain call. */
  function HybridChat(store: Store, converse: BasePrompt -> Result<string, Fault>, queryText: Option<string>)
    : Result<Response, ChatError>
  {
    if MissingQuery(queryText) then Failure(InvalidRequest)
    else
      match Retrieve(store, queryText.value)
      case Failure(f) => Failure(Failed(f))
      case Success(r) =>
        match converse(BasePrompt(queryText.value, Context.HybridContext(r.expandedResults)))
        case Failure(f) => Failure(Failed(f))
        case Success(answer) => Success(Response(answer, DebugOf(r)))
  }

  /**
   * The handler rejects exactly a missing query; a successful response carries the chain's
   * answer to the question with the context of the expanded records, and debug counts that are
   * the lengths of the retrieval's lists and keep their bounds.
   */
  lemma HybridChatFacts(store: Store, converse: BasePrompt -> Result<string, Fault>, queryText: Option<string>)
    ensures HybridChat(store, converse, queryText) == Failure(InvalidRequest) <==> MissingQuery(queryText)
    ensures HybridChat(store, converse, queryText).Success? ==>
              var q := queryText.value;
              var r := Retrieve(store, q).value;
              var resp := HybridChat(store, converse, queryText).value;
              && Retrieve(store, q).Success?
              && converse(BasePrompt(q, Context.HybridContext(r.expandedResults))) == Success(resp.answer)
              && resp.debug.retrievedDocCount == |r.expandedResults|
              && resp.debug.vectorResultsCount == |r.vectorResults|
              && resp.debug.keywordResultsCount == |r.keywordResults|
              && resp.debug.combinedResultsCount == |r.combinedResults|
              && resp.debug.combinedResultsCount <= Min(Rank.MaxCombined, resp.debug.vectorResultsCount + resp.debug.keywordResultsCount)
              && resp.debug.combinedResultsCount <= resp.debug.retrievedDocCount
  {
    if HybridChat(store, converse, queryText).Success? {
      DebugBounds(store, queryText.value);
    }
  }
}
