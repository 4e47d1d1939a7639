/** `AIAgent` of python_agent_extended.py: an agent that answers either with
    the local simulator or with the OpenAI chat model, chosen once when it is
    created, and logs every answered question together with that mode.
    The environment key, whether the `openai` package could be loaded and the
    clock are parameters; the chat model's reply (its text, or the error text
    the source returns when the call raises) is the parameter `remoteReply`. */
module AgentExtended {
  import opened Catalog
  import opened Aggregation
  import opened Classifier
  import opened Simulator
  import opened Pipeline

  const OpenAIMode := "openai"
  const SimulatorMode := "simulator"

  /** The `llm` field: the local simulator or an OpenAI client for a key. */
  datatype Llm = LocalSimulator | OpenAIClient(apiKey: string)

  datatype LogEntry = LogEntry(timestamp: string, question: string, response: string, mode: string)

  /** The dict `process_query` returns. */
  datatype QueryResult = QueryResult(question: string, answer: string, timestamp: string, stats: Statistics, mode: string)

  /** The mode `__init__` settles on: the requested mode, lower-cased, stays
      "openai" only with a non-empty key and a loadable client; everything
      else becomes "simulator". */
  function SelectMode(requested: string, apiKey: Option<string>, available: bool): (m: string)
    ensures m == OpenAIMode || m == SimulatorMode
    ensures m == OpenAIMode <==>
      Lower(requested) == OpenAIMode && apiKey.Some? && apiKey.value != "" && available
  {
    if Lower(requested) == OpenAIMode then
      if apiKey.Some? && apiKey.value != "" then
        if available then OpenAIMode else SimulatorMode
      else SimulatorMode
    else SimulatorMode
  }

  /** The requested mode is compared after lower-casing, so the case it was
      written in does not matter. */
  lemma SelectModeIgnoresCase(requested: string, apiKey: Option<string>, available: bool)
    ensures SelectMode(Lower(requested), apiKey, available) == SelectMode(requested, apiKey, available)
  {
    LowerIdempotent(requested);
  }

  /** What `self.llm.generate_response` gives: the client's reply, which never
      raises, or the simulator's answer with the extended rule chain. */
  function Reply(llm: Llm, question: string, ps: seq<Product>, remoteReply: string): Result<string, Fault> {
    match llm
    case OpenAIClient(_) => Success(remoteReply)
    case LocalSimulator => Answer(StandardRules, question, ps)
  }

  /** Only the simulator can fail, and only on the average-price question
      about an empty catalogue. */
  lemma ReplyFails(llm: Llm, question: string, ps: seq<Product>, remoteReply: string)
    ensures Reply(llm, question, ps, remoteReply).Failure? <==>
      llm == LocalSimulator && Classify(StandardRules, question) == AveragePrice && ps == []
  {
    AnswerFails(StandardRules, question, ps);
  }

  class Agent {
    var mode: string
    var llm: Llm
    var queryLog: seq<LogEntry>

    /** The mode is one of the two names and agrees with the client held,
        and every log entry carries the agent's mode. */
    ghost predicate Valid()
      reads this
    {
      && (mode == OpenAIMode || mode == SimulatorMode)
      && (mode == OpenAIMode <==> llm.OpenAIClient?)
      && forall i :: 0 <= i < |queryLog| ==> queryLog[i].mode == mode
    }

    constructor(requestedMode: string, apiKey: Option<string>, openaiAvailable: bool)
      ensures mode == SelectMode(requestedMode, apiKey, openaiAvailable)
      ensures llm == if mode == OpenAIMode then OpenAIClient(apiKey.value) else LocalSimulator
      ensures queryLog == []
      ensures Valid()
    {
      var requested := Lower(requestedMode);
      if requested == OpenAIMode {
        if apiKey.Some? && apiKey.value != "" {
          if openaiAvailable {
            llm := OpenAIClient(apiKey.value);
            mode := OpenAIMode;
          } else {
            llm := LocalSimulator;
            mode := SimulatorMode;
          }
        } else {
          llm := LocalSimulator;
          mode := SimulatorMode;
        }
      } else {
        llm := LocalSimulator;
        mode := SimulatorMode;
      }
      queryLog := [];
    }

    /** Answers the question about the given products. On success exactly one
        entry, matching the returned record, is appended to the log; on
        failure (the source raises) the log is as before. */
    method ProcessQuery(question: string, products: seq<Product>, timestamp: string, remoteReply: string)
      returns (r: Result<QueryResult, Fault>)
      requires Valid()
      modifies this
      ensures Valid()
      ensures mode == old(mode) && llm == old(llm)
      ensures var reply := Reply(llm, question, products, remoteReply);
        && (reply.Success? ==>
              && r == Success(QueryResult(question, reply.value, timestamp, StatisticsOf(products), mode))
              && queryLog == old(queryLog) + [LogEntry(timestamp, question, reply.value, mode)])
        && (reply.Failure? ==> r == Failure(reply.error) && queryLog == old(queryLog))
    {
      var stats := StatisticsOf(products);
      var data := Gather(products);
      var response: Result<string, Fault>;
      if llm.OpenAIClient? {
        response := Success(remoteReply);
      } else {
        response := GenerateResponse(StandardRules, question, data, stats);
      }
      if response.Failure? {
        return Failure(response.error);
      }
      var entry := LogEntry(timestamp, question, response.value, mode);
      queryLog := queryLog + [entry];
      r := Success(QueryResult(question, response.value, entry.timestamp, stats, mode));
    }
  }
}
