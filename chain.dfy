/**
 * The decider–retriever–answerer chain: a sequence of stages, each a record of values computed
 * from the previous stage's record. The decider either rewrites the question for retrieval or
 * answers with a fixed sentence saying that the question is not about Bangladeshi law; that
 * sentence skips retrieval and becomes the final answer.
 */
module Chain {
  import opened Wrappers
  import opened Chunks
  import Context

  /** The decider's out-of-domain answer, compared verbatim by the later stages. */
  const NotRelated: string := "This question is not related to Bangladeshi law."

  /** What the answerer's prompt is built from: the original question and the retrieved context. */
  datatype AnswerPrompt = AnswerPrompt(question: string, context: string)

  /**
   * The external calls of the chain: the decider's model call on the question, the embedding
   * model, the chunk query of the retriever, and the answerer's model call.
   */
  datatype Services = Services(
    decide: string -> Result<string, Fault>,
    embed: string -> Result<Vector, Fault>,
    chunkQuery: Vector -> Result<seq<Hit>, Fault>,
    answer: AnswerPrompt -> Result<string, Fault>)

  /** The records passed between the stages. */
  datatype ChainInput = ChainInput(queryText: string)
  datatype Decided = Decided(decision: string, queryText: string)
  datatype Retrieved = Retrieved(retrievedDocs: Option<string>, queryText: string, decision: string)

  /** `retriever`: embed the text, query the chunks, render them in record order. */
  function RetrieveDocs(svc: Services, text: string): Result<string, Fault>
  {
    match svc.embed(text)
    case Failure(f) => Failure(f)
    case Success(v) =>
      match svc.chunkQuery(v)
      case Failure(f) => Failure(f)
      case Success(records) => Success(Context.ChainContext(records))
  }

  /** A value interpolated into the prompt: `null` renders as "null". */
  function Interpolated(docs: Option<string>): string
  {
    if docs.Some? then docs.value else "null"
  }

  /** Second stage: the decision on the question, and the question passed on. */
  function DecideStage(svc: Services, input: ChainInput): Result<Decided, Fault>
  {
    match svc.decide(input.queryText)
    case Failure(f) => Failure(f)
    case Success(d) => Success(Decided(d, input.queryText))
  }

  /** Third stage: no retrieval (`null`) on the out-of-domain sentence, else retrieval on the decision. */
  function RetrieveStage(svc: Services, input: Decided): Result<Retrieved, Fault>
  {
    if input.decision == NotRelated then Success(Retrieved(None, input.queryText, input.decision))
    else
      match RetrieveDocs(svc, input.decision)
      case Failure(f) => Failure(f)
      case Success(docs) => Success(Retrieved(Some(docs), input.queryText, input.decision))
  }

  /** Last stage: the out-of-domain sentence itself, else the answerer on the question and the context. */
  function AnswerStage(svc: Services, input: Retrieved): Result<string, Fault>
  {
    if input.decision == NotRelated then Success(input.decision)
    else svc.answer(AnswerPrompt(input.queryText, Interpolated(input.retrievedDocs)))
  }

  /** The whole chain on `{ queryText }`; the first rejected call fails it. */
  function RunChain(svc: Services, input: ChainInput): Result<string, Fault>
  {
    var first := ChainInput(input.queryText);
    match DecideStage(svc, first)
    case Failure(f) => Failure(f)
    case Success(decided) =>
      match RetrieveStage(svc, decided)
      case Failure(f) => Failure(f)
      case Success(retrieved) => AnswerStage(svc, retrieved)
  }

  /**
   * The question is threaded unchanged through every stage, and the decision is passed on
   * unchanged by the retrieval stage.
   */
  lemma QueryThreaded(svc: Services, input: ChainInput)
    ensures DecideStage(svc, input).Success? ==> DecideStage(svc, input).value.queryText == input.queryText
    ensures forall d: Decided | RetrieveStage(svc, d).Success? ::
              RetrieveStage(svc, d).value.queryText == d.queryText && RetrieveStage(svc, d).value.decision == d.decision
  {
  }

  /**
   * On the out-of-domain sentence nothing is retrieved and the answer is that sentence: the
   * result does not depend on the embedding, the chunk query or the answerer at all.
   */
  lemma NotRelatedShortCircuits(svc: Services, other: Services, queryText: string)
    requires svc.decide(queryText) == Success(NotRelated) && other.decide == svc.decide
    ensures RetrieveStage(svc, DecideStage(svc, ChainInput(queryText)).value) == Success(Retrieved(None, queryText, NotRelated))
    ensures RunChain(svc, ChainInput(queryText)) == Success(NotRelated)
    ensures RunChain(other, ChainInput(queryText)) == RunChain(svc, ChainInput(queryText))
  {
  }

  /**
   * Otherwise retrieval runs on the decision (the rewritten question), not on the question, and
   * the answerer receives the original question with the rendered records; a rejected call fails
   * the chain with its fault.
   */
  lemma RewrittenQueryRetrieves(svc: Services, queryText: string, decision: string)
    requires svc.decide(queryText) == Success(decision) && decision != NotRelated
    ensures RetrieveDocs(svc, decision).Failure? ==>
              RunChain(svc, ChainInput(queryText)) == Failure(RetrieveDocs(svc, decision).error)
    ensures RetrieveDocs(svc, decision).Success? ==>
              && svc.embed(decision).Success?
              && svc.chunkQuery(svc.embed(decision).value).Success?
              && RunChain(svc, ChainInput(queryText))
                 == svc.answer(AnswerPrompt(queryText,
                      Context.ChainContext(svc.chunkQuery(svc.embed(decision).value).value)))
  {
  }

  /** The chain depends on the embedding and chunk query only at the decision, never at the question. */
  lemma RetrievalSeesOnlyDecision(svc: Services, other: Services, queryText: string, decision: string)
    requires svc.decide(queryText) == Success(decision) && decision != NotRelated
    requires other.decide == svc.decide && other.answer == svc.answer
    requires other.embed(decision) == svc.embed(decision)
    requires svc.embed(decision).Success? ==>
               other.chunkQuery(svc.embed(decision).value) == svc.chunkQuery(svc.embed(decision).value)
    ensures RunChain(other, ChainInput(queryText)) == RunChain(svc, ChainInput(queryText))
  {
  }

  /** A rejected decider call fails the chain before anything else is called. */
  lemma DeciderFailureFails(svc: Services, queryText: string)
    requires svc.decide(queryText).Failure?
    ensures RunChain(svc, ChainInput(queryText)) == Failure(svc.decide(queryText).error)
  {
  }
}
