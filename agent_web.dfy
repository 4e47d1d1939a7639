/** `AIAgent` of python_agent_web.py: the agent behind the web server. It
    always answers with the simulator and the extended rule chain, and logs
    each answered question with its timestamp. The clock is a parameter. */
module AgentWeb {
  import opened Catalog
  import opened Aggregation
  import opened Classifier
  import opened Pipeline

  datatype LogEntry = LogEntry(timestamp: string, question: string, response: string)

  /** The dict `process_query` returns. */
  datatype QueryResult = QueryResult(question: string, answer: string, timestamp: string, stats: Statistics)

  class Agent {
    var queryLog: seq<LogEntry>

    constructor()
      ensures queryLog == []
    {
      queryLog := [];
    }

    /** Answers the question about the given products. On success exactly one
        entry, matching the returned record, is appended to the log; on
        failure (the source raises) the log is as before. */
    method ProcessQuery(question: string, products: seq<Product>, timestamp: string)
      returns (r: Result<QueryResult, Fault>)
      modifies this
      ensures var answer := Answer(StandardRules, question, products);
        && (answer.Success? ==>
              && r == Success(QueryResult(question, answer.value, timestamp, StatisticsOf(products)))
              && queryLog == old(queryLog) + [LogEntry(timestamp, question, answer.value)])
        && (answer.Failure? ==> r == Failure(answer.error) && queryLog == old(queryLog))
    {
      var stats := StatisticsOf(products);
      var response := Run(StandardRules, question, products);
      if response.Failure? {
        return Failure(response.error);
      }
      var entry := LogEntry(timestamp, question, response.value);
      queryLog := queryLog + [entry];
      r := Success(QueryResult(question, response.value, entry.timestamp, stats));
    }
  }
}
