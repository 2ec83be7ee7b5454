/**
 * Session memory and the `/hybrid-chat` handler of the session variant: `chatHistories` maps a
 * session id to its message history, created on first reference and removed by the clear
 * endpoint. A request renders the history as `Human:` / `AI:` lines, appends the user's message
 * before the model call and the model's answer after it.
 */
module Sessions {
  import opened Wrappers
  import opened Chunks
  import opened Strings
  import opened Retriever
  import Context

  datatype Role = Human | AI

  /** One stored message: who said it and what. */
  datatype Message = Message(role: Role, content: string)

  /** The prompt is built from the rendered history, the question and the context. */
  datatype Prompt = Prompt(chatHistory: string, question: string, context: string)

  /** The session id of a request without one. */
  const DefaultSession: string := "default"

  /** `sessionId = "default"`: the default applies only when the id is absent. */
  function SessionKey(sessionId: Option<string>): string
  {
    if sessionId.Some? then sessionId.value else DefaultSession
  }

  /** One history line. */
  function Line(m: Message): string
  {
    match m.role
    case Human => "Human: " + m.content
    case AI => "AI: " + m.content
  }

  function Lines(ms: seq<Message>): (ls: seq<string>)
    ensures |ls| == |ms| && forall i | 0 <= i < |ms| :: ls[i] == Line(ms[i])
  {
    seq(|ms|, i requires 0 <= i < |ms| => Line(ms[i]))
  }

  /** `chatHistory`: the lines of the stored messages, in stored order, joined by `\n`. */
  function RenderHistory(ms: seq<Message>): string
  {
    Join(Lines(ms), "\n")
  }

  /** The histories after `key` is referenced: an unseen session starts empty. */
  function Created(hs: map<string, seq<Message>>, key: string): (r: map<string, seq<Message>>)
    ensures key in r && r[key] == (if key in hs then hs[key] else [])
    ensures forall k | k != key :: (k in r <==> k in hs) && (k in hs ==> r[k] == hs[k])
  {
    if key in hs then hs else hs[key := []]
  }

  /**
   * A request for the query `q` in session `key` once retrieval has produced `retrieved`: its
   * outcome and the histories after it. The session was created before retrieval, the user's
   * message is stored before the model call and the answer after it.
   */
  function ChatOutcome(hs: map<string, seq<Message>>, key: string, q: string,
                       retrieved: Result<Retrieval, Fault>, model: Prompt -> Result<string, Fault>)
    : (Result<string, ChatError>, map<string, seq<Message>>)
  {
    var created := Created(hs, key);
    var past := created[key];
    match retrieved
    case Failure(f) => (Failure(Failed(f)), created)
    case Success(r) =>
      var prompt := Prompt(RenderHistory(past), q, Context.HybridContext(r.expandedResults));
      match model(prompt)
      case Failure(f) => (Failure(Failed(f)), created[key := past + [Message(Human, q)]])
      case Success(answer) => (Success(answer), created[key := past + [Message(Human, q), Message(AI, answer)]])
  }

  /** One `/hybrid-chat` request against the histories `hs`: its outcome and the histories after it. */
  function ChatStep(hs: map<string, seq<Message>>, store: Store, model: Prompt -> Result<string, Fault>,
                    queryText: Option<string>, sessionId: Option<string>)
    : (Result<string, ChatError>, map<string, seq<Message>>)
  {
    if MissingQuery(queryText) then (Failure(InvalidRequest), hs)
    else ChatOutcome(hs, SessionKey(sessionId), queryText.value, Retrieve(store, queryText.value), model)
  }

  /** `chatHistories`. */
  class ChatHistories {
    var histories: map<string, seq<Message>>

    constructor ()
      ensures histories == map[]
    {
      histories := map[];
    }

    /** `has`/`set`/`get`: the history of a session, created empty on first reference. */
    method GetOrCreate(sessionId: string) returns (messages: seq<Message>)
      modifies this
      ensures histories == Created(old(histories), sessionId)
      ensures messages == histories[sessionId]
    {
      if sessionId !in histories {
        histories := histories[sessionId := []];
      }
      messages := histories[sessionId];
    }

    /** `addUserMessage`. */
    method AddUserMessage(sessionId: string, text: string)
      requires sessionId in histories
      modifies this
      ensures histories == old(histories)[sessionId := old(histories)[sessionId] + [Message(Human, text)]]
    {
      histories := histories[sessionId := histories[sessionId] + [Message(Human, text)]];
    }

    /** `addAIMessage`. */
    method AddAIMessage(sessionId: string, text: string)
      requires sessionId in histories
      modifies this
      ensures histories == old(histories)[sessionId := old(histories)[sessionId] + [Message(AI, text)]]
    {
      histories := histories[sessionId := histories[sessionId] + [Message(AI, text)]];
    }

    /** The clear endpoint: reports whether the session existed, and removes it. */
    method Clear(sessionId: string) returns (found: bool)
      modifies this
      ensures found == (sessionId in old(histories))
      ensures histories == old(histories) - {sessionId}
    {
      found := sessionId in histories;
      if found {
        histories := histories - {sessionId};
      }
    }

    /** The `/hybrid-chat` handler. */
    method HybridChat(store: Store, model: Prompt -> Result<string, Fault>,
                      queryText: Option<string>, sessionId: Option<string>)
      returns (r: Result<string, ChatError>)
      modifies this
      ensures (r, histories) == ChatStep(old(histories), store, model, queryText, sessionId)
    {
      if MissingQuery(queryText) {
        return Failure(InvalidRequest);
      }
      var q := queryText.value;
      var key := SessionKey(sessionId);
      var messageHistory := GetOrCreate(key);
      ghost var created := histories;
      var retrieved := HybridRetrieve(store, q);
      if retrieved.Failure? {
        return Failure(Failed(retrieved.error));
      }
      var retrievedDocs := Context.HybridContext(retrieved.value.expandedResults);
      var chatHistory := RenderHistory(messageHistory);
      AddUserMessage(key, q);
      var response := model(Prompt(chatHistory, q, retrievedDocs));
      if response.Failure? {
        return Failure(Failed(response.error));
      }
      AddAIMessage(key, response.value);
      AppendTurn(created, key, messageHistory, Message(Human, q), Message(AI, response.value));
      assert histories == created[key := messageHistory + [Message(Human, q), Message(AI, response.value)]];
      r := Success(response.value);
    }
  }

  lemma AppendTurn(m: map<string, seq<Message>>, key: string, past: seq<Message>, u: Message, a: Message)
    ensures m[key := past + [u]][key := (past + [u]) + [a]] == m[key := past + [u, a]]
  {
    assert (past + [u]) + [a] == past + [u, a];
  }

  /** Rendering is empty exactly for an empty history, and a new message adds `\n` and its line. */
  lemma RenderHistorySnoc(ms: seq<Message>, m: Message)
    ensures RenderHistory(ms) == "" <==> ms == []
    ensures RenderHistory(ms + [m]) == (if ms == [] then "" else RenderHistory(ms) + "\n") + Line(m)
  {
    Context.JoinEmpty(Lines(ms), "\n");
    assert Lines(ms + [m]) == Lines(ms) + [Line(m)];
    if ms != [] {
      JoinSnoc(Lines(ms), Line(m), "\n");
    }
  }

  /** A turn's two messages render as its `Human:` line and its `AI:` line, after the earlier history. */
  lemma RenderTurn(ms: seq<Message>, question: string, answer: string)
    ensures RenderHistory(ms + [Message(Human, question), Message(AI, answer)])
         == (if ms == [] then "" else RenderHistory(ms) + "\n") + "Human: " + question + "\nAI: " + answer
  {
    var u, a := Message(Human, question), Message(AI, answer);
    var pre := if ms == [] then "" else RenderHistory(ms) + "\n";
    var withU := RenderHistory(ms + [u]);
    assert withU == pre + ("Human: " + question) by {
      RenderHistorySnoc(ms, u);
    }
    assert RenderHistory(ms + [u, a]) == withU + ("\n" + ("AI: " + answer)) by {
      RenderHistorySnoc(ms + [u], a);
      assert ms + [u] + [a] == ms + [u, a];
    }
    TurnText(pre, question, answer);
  }

  lemma TurnText(pre: string, question: string, answer: string)
    ensures pre + ("Human: " + question) + ("\n" + ("AI: " + answer)) == pre + "Human: " + question + "\nAI: " + answer
  {
    assert "\n" + ("AI: " + answer) == "\nAI: " + answer;
  }

  /**
   * What a request does to the histories once retrieval has run: the session exists afterwards,
   * no other session changes, and the session's history grows by appending only: both messages
   * of the turn on success, the user's message alone when the model call fails, nothing when
   * retrieval failed. The model sees the history as it was before the request.
   */
  lemma ChatOutcomeFacts(hs: map<string, seq<Message>>, key: string, q: string,
                         retrieved: Result<Retrieval, Fault>, model: Prompt -> Result<string, Fault>)
    ensures var (r, hs') := ChatOutcome(hs, key, q, retrieved, model);
            var past := if key in hs then hs[key] else [];
            && key in hs'
            && (forall k | k != key :: (k in hs' <==> k in hs) && (k in hs ==> hs'[k] == hs[k]))
            && |past| <= |hs'[key]| && hs'[key][..|past|] == past
            && (r.Success? <==> |hs'[key]| == |past| + 2)
            && (retrieved.Failure? ==> r == Failure(Failed(retrieved.error)) && hs'[key] == past)
            && (retrieved.Success? && r.Failure? ==> hs'[key] == past + [Message(Human, q)])
            && (r.Success? ==>
                  && retrieved.Success?
                  && hs'[key] == past + [Message(Human, q), Message(AI, r.value)]
                  && model(Prompt(RenderHistory(past), q, Context.HybridContext(retrieved.value.expandedResults)))
                     == Success(r.value))
  {
    var past := if key in hs then hs[key] else [];
    var (r, hs') := ChatOutcome(hs, key, q, retrieved, model);
    if retrieved.Success? {
      assert (past + [Message(Human, q)])[..|past|] == past;
      if r.Success? {
        assert (past + [Message(Human, q), Message(AI, r.value)])[..|past|] == past;
      }
    }
  }

  /** A request without query text changes nothing. */
  lemma MissingQueryChangesNothing(hs: map<string, seq<Message>>, store: Store, model: Prompt -> Result<string, Fault>,
                                   queryText: Option<string>, sessionId: Option<string>)
    requires MissingQuery(queryText)
    ensures ChatStep(hs, store, model, queryText, sessionId) == (Failure(InvalidRequest), hs)
  {
  }

  /** After a session is cleared, the next reference finds it empty. */
  lemma ClearedSessionStartsEmpty(hs: map<string, seq<Message>>, key: string)
    ensures Created(hs - {key}, key)[key] == []
  {
  }
}
