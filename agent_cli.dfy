/** `AIAgent` of python_agent.py: the console agent. It answers with the
    simulator and its own rule chain (which also knows "elektronika" and
    "nejdraž"), returns the answer text only, and logs each answered question
    with its timestamp. The clock is a parameter. */
module AgentCli {
  import opened Catalog
  import opened Classifier
  import opened Pipeline

  datatype LogEntry = LogEntry(timestamp: string, question: string, response: string)

  class Agent {
    var queryLog: seq<LogEntry>

    constructor()
      ensures queryLog == []
    {
      queryLog := [];
    }

    /** Answers the question about the given products. On success exactly one
        entry holding the returned answer is appended to the log; on failure
        (the source raises) the log is as before. */
    method ProcessQuery(question: string, products: seq<Product>, timestamp: string)
      returns (r: Result<string, Fault>)
      modifies this
      ensures r == Answer(CliRules, question, products)
      ensures r.Success? ==> queryLog == old(queryLog) + [LogEntry(timestamp, question, r.value)]
      ensures r.Failure? ==> queryLog == old(queryLog)
    {
      r := Run(CliRules, question, products);
      if r.Success? {
        queryLog := queryLog + [LogEntry(timestamp, question, r.value)];
      }
    }
  }
}
