/** What every copy of `AIAgent.process_query` does before it touches its
    log: read the products and the statistics row, derive the category table,
    the low-stock list and the most expensive products, and hand all of it to
    the answer generator. The product list stands for the database read and
    `StatisticsOf` for the statistics query. */
module Pipeline {
  import opened Catalog
  import opened Aggregation
  import opened Classifier
  import opened Simulator

  /** The `data` dict built from a product list, with the default threshold
      (10) and limit (5). */
  function DataOf(ps: seq<Product>): (d: Data)
    ensures HasRecords(d.categoryStats)
    ensures d.categoryStats.Valid()
  {
    Data(ByCategory(ps), FindLowStock(ps, DefaultThreshold), FindExpensive(ps, DefaultLimit))
  }

  /** The three `stats_tool` calls of `process_query`. */
  method Gather(ps: seq<Product>) returns (data: Data)
    ensures data == DataOf(ps)
  {
    var table := CalculateByCategory(ps);
    var low := FindLowStock(ps, DefaultThreshold);
    var expensive := FindExpensive(ps, DefaultLimit);
    data := Data(table, low, expensive);
  }

  /** The simulator's answer to a question about a product list. */
  function Answer(rules: seq<Rule>, question: string, ps: seq<Product>): Result<string, Fault> {
    Respond(Classify(rules, question), DataOf(ps), StatisticsOf(ps))
  }

  /** Aggregation followed by `generate_response`. */
  method Run(rules: seq<Rule>, question: string, ps: seq<Product>) returns (r: Result<string, Fault>)
    ensures r == Answer(rules, question, ps)
  {
    var data := Gather(ps);
    r := GenerateResponse(rules, question, data, StatisticsOf(ps));
  }

  /** A simulator answer is an error exactly when the question asks for the
      average price and the catalogue is empty. */
  lemma AnswerFails(rules: seq<Rule>, question: string, ps: seq<Product>)
    ensures Answer(rules, question, ps).Failure? <==>
      Classify(rules, question) == AveragePrice && ps == []
  {
    RespondFailsOnlyOnEmptyAverage(Classify(rules, question), DataOf(ps), ps);
  }

  /** The low-stock answer for a catalogue: the fixed sentence when no
      product has fewer than 10 pieces, otherwise a header with the number of
      such products followed by one row for each of at most five of them. */
  lemma LowStockAnswer(rules: seq<Rule>, question: string, ps: seq<Product>)
    requires Classify(rules, question) == LowStock
    requires forall i :: 0 <= i < |ps| ==> Newlines(ps[i].name) == 0
    ensures var low := FindLowStock(ps, DefaultThreshold);
      && (low == [] <==> forall p :: p in ps ==> p.stock >= DefaultThreshold)
      && (low == [] ==> Answer(rules, question, ps) == Success(NoLowStock))
      && (low != [] ==> exists rows ::
            Answer(rules, question, ps) == Success(LowStockHeader(|low|) + rows) &&
            Newlines(rows) == Min(5, |low|))
  {
    var data := DataOf(ps);
    var low := data.lowStock;
    forall i | 0 <= i < |low|
      ensures Newlines(low[i].name) == 0
    {
      assert low[i] in low;
    }
    if low != [] {
      assert low[0] in low;
    }
    LowStockAnswerRows(data, StatisticsOf(ps));
  }

  /** The most-expensive answer for a catalogue names its first product, in
      catalogue order, of the highest price, or says that there are none. */
  lemma MostExpensiveAnswerOf(rules: seq<Rule>, question: string, ps: seq<Product>)
    requires Classify(rules, question) == MostExpensive
    ensures ps == [] ==> Answer(rules, question, ps) == Success(NoProducts)
    ensures ps != [] ==> WithPrice(ps, MaxPrice(ps)) != []
    ensures ps != [] ==>
      Answer(rules, question, ps) == Success(TopSentence(WithPrice(ps, MaxPrice(ps))[0]))
  {
    MostExpensiveAnswer(ps, DataOf(ps), StatisticsOf(ps));
  }
}
