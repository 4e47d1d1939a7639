# Product-catalogue question agent — Dafny model

The repository's agent answers Czech questions about a product catalogue. It
exists in three copies: python_agent_extended.py, python_agent_web.py and
python_agent.py. Each copy runs the same pipeline:

1. **Aggregation (`StatisticsTool`).** It builds a per-category table in
   first-occurrence order, holding the count, Σ price·stock, the mean price
   rounded to two places, and the member names. It also builds a stable
   low-stock filter (`stock < 10`) and a stable descending price sort cut to
   the first five.
2. **Answering (`LLMSimulator.generate_response`).** It lower-cases the
   question and tries keyword rules in order. The first rule that matches
   picks a fixed Czech answer template, and the template is filled from the
   statistics row and the derived views. A question that matches no rule
   gets the generic answer.
3. **The agent (`AIAgent`).** `process_query` runs the two steps above. It
   then appends exactly one entry to its in-memory query log.

The three copies have identical aggregation and answer templates, so these
are modelled once:

- module `Aggregation` (aggregation.dfy);
- modules `Format` (`round(x, 2)` and `{x:,.0f}`) and `Simulator` (the templates).

What differs between the copies is kept apart:

- **Rule chains.** `Classifier.StandardRules` is used by the extended and
  web copies. `Classifier.CliRules` is used by python_agent.py, which also
  routes on "elektronika" and "nejdraž".
- **Agent classes.** Each copy has its own class:
  - `AgentExtended.Agent` has a `mode` and an `llm` field. It answers with
    either the simulator or the OpenAI client.
  - `AgentWeb.Agent` returns a record.
  - `AgentCli.Agent` returns the answer text only.

The steps every `process_query` shares (the three `stats_tool` calls, then
the generator) are `Pipeline.Gather` and `Pipeline.Run`.

The code is the same in all three copies at these lines:

| code | python_agent_extended.py | python_agent_web.py | python_agent.py |
|---|---|---|---|
| `calculate_by_category` | 112-133 | 109-130 | 114-139 |
| `find_low_stock` | 136-137 | 133-134 | 142-144 |
| `find_expensive` | 140-141 | 137-138 | 147-149 |
| the answer templates | 148-189 | 145-186 | 156-200 |

The table below cites one copy for each shared member.

The modelling choices:

- **Products.** A product list is a `seq<Product>` with `real` prices.
- **Dicts.** Python's insertion-ordered dict becomes `CategoryTable`, which
  holds a key sequence and a map.
- **Statistics.** The statistics row that the SQL query of `get_statistics`
  returns is the function `Aggregation.StatisticsOf` of the product list.
- **Numbers.** `round(x, 2)` and `{x:,.0f}` are modelled on exact reals,
  with round-half-to-even.
- **Errors.** When the source raises (an average-price question on an empty
  catalogue, where MIN/MAX are NULL and cannot be formatted), the model
  returns `Failure(MissingStatistic(..))` and the log is unchanged.

The extended agent falls back to the simulator only while it is being
created (python_agent_extended.py:254-274). After a client has been created,
a failing OpenAI call returns an error text as the answer
(python_agent_extended.py:247-248), and `mode` stays "openai". The parameter
`remoteReply` stands for that text or for the model's reply. Nothing falls
back to the simulator at that point.

## Model

| member | source | states |
|---|---|---|
| Format.RoundHalfEven | python_agent_extended.py:153 | the integer is within 1/2 of x and is even on a tie, as Python's `round` does |
| Format.RoundHalfEvenUnique | python_agent_extended.py:153 | any integer with those two properties is the rounding, so the rounding is determined |
| Format.Round2 | python_agent_extended.py:129-131 | `round(x, 2)` is a whole number of hundredths within 0.005 of x, with an even number of hundredths on a tie |
| Format.Round2Unique | python_agent_extended.py:129-131 | any whole number of hundredths within 0.005 of x, even on a tie, is `round(x, 2)`, so the rounding is determined |
| Format.IntToString | python_agent_extended.py:152 | `str(n)` of an integer: a minus sign for a negative n, then the decimal digits of its magnitude without leading zeros |
| Format.Money | python_agent_extended.py:153 | `{x:,.0f}`: the sign of x, then x's magnitude rounded half-to-even to an integer, in groups of three digits separated by `,` |
| Format.DigitsRoundTrip | python_agent_extended.py:152 | reading back the decimal digits of n gives n |
| Format.GroupedDigits | python_agent_extended.py:156 | removing the thousands separators of the grouped form gives the plain digits |
| Format.MoneyValue | python_agent_extended.py:156 | `{x:,.0f}` of a non-negative x, without separators, is all digits and reads back as x rounded half-to-even |
| Aggregation.FilterMembers | python_agent_extended.py:137 | a comprehension keeps exactly the elements satisfying its condition |
| Aggregation.FilterAppend | python_agent_extended.py:137 | filtering distributes over concatenation, so the order is kept |
| Aggregation.CategoriesMembers | python_agent_extended.py:114-116 | a category is a key exactly when some product has it |
| Aggregation.CategoriesSnoc | python_agent_extended.py:116-122 | a product adds its category at the end only when it is new |
| Aggregation.CategoriesPrefix | python_agent_extended.py:114-122 | the keys of a prefix of the products are a prefix of the keys, so keys stay in first-occurrence order |
| Aggregation.AccumulatedSnoc | python_agent_extended.py:123-125 | a product raises its own category's count by 1, its value by price·stock and appends its name; other categories are unchanged |
| Aggregation.FirstPassKeys | python_agent_extended.py:114-125 | after the first loop the keys are the distinct categories in first-occurrence order and each has a record |
| Aggregation.FirstPassRecord | python_agent_extended.py:114-125 | after the first loop each category's record holds its members' count, Σ price·stock and names |
| Aggregation.FirstPassComplete | python_agent_extended.py:114-125 | after the first loop, key by key, each category holds its members' count, Σ price·stock and names |
| Aggregation.AccumulateByCategory | python_agent_extended.py:114-125 | the first loop computes the table that the dict updates describe, one product at a time |
| Aggregation.AverageByCategory | python_agent_extended.py:127-131 | the second loop sets each key's average price to the rounded mean price of its products and changes nothing else |
| Aggregation.ByCategory | python_agent_extended.py:112-133 | the table the source builds, stated without loops: the distinct categories in first-occurrence order, each with its members' count, Σ price·stock, rounded mean price and names |
| Aggregation.CalculateByCategory | python_agent_extended.py:112-133 | the two loops produce a valid table equal to `ByCategory`: the distinct categories in order, each with count, Σ price·stock, the rounded mean price and the names of its members |
| Aggregation.MemberSumsPartition | python_agent_extended.py:114-125 | the categories partition the products: member counts add up to the product count and member values to the total stock value |
| Aggregation.CategoryTotals | python_agent_extended.py:112-125 | the table's counts sum to the number of products and its values sum to Σ price·stock of all products |
| Aggregation.CategoryMembers | python_agent_extended.py:123-125 | each record's count equals the length of its name list, which is positive; the list holds exactly the names of the category's products, in input order |
| Aggregation.MeanPriceBetween | python_agent_extended.py:129-131 | the mean price of a non-empty list lies between any bounds of its prices |
| Aggregation.CategoryAverageBetween | python_agent_extended.py:127-131 | a category's avg_price lies within the bounds of its members' prices (up to the rounding) |
| Aggregation.AverageIgnoresStock | python_agent_extended.py:127-131 | the average price ignores stock: changing only the stocks keeps the keys, each category's count and its avg_price |
| Aggregation.FindLowStock | python_agent_extended.py:136-137 | the result holds exactly the products with stock below the threshold |
| Aggregation.FindLowStockAppend | python_agent_extended.py:136-137 | the filter is stable: the result for a concatenation is the concatenation of the results |
| Aggregation.FindLowStockZero | python_agent_extended.py:136-137 | with threshold 0 and no negative stock, nothing is reported |
| Aggregation.InsertSorted | python_agent_extended.py:141 | inserting into a price-descending list keeps it price-descending |
| Aggregation.SortByPriceDesc | python_agent_extended.py:141 | `sorted(…, reverse=True)` by price is a permutation and is non-increasing in price |
| Aggregation.SortStable | python_agent_extended.py:141 | the sort is stable: products of equal price keep their input order |
| Aggregation.SortedSplit | python_agent_extended.py:141 | a price-descending list's first n elements are no cheaper than anything after them |
| Aggregation.Slice | python_agent_extended.py:141 | `[:limit]`: a prefix of length min(limit, n), or Python's shorter prefix for a negative limit |
| Aggregation.FindExpensive | python_agent_extended.py:140-141 | the result has length min(limit, n) (Python's slice for negative limits), is price-descending and drawn from the input; nothing left out is dearer than anything kept; equal prices keep input order |
| Aggregation.FindExpensiveHead | python_agent_extended.py:140-141 | for a non-empty catalogue, the first of the most expensive products is in the catalogue, no product is dearer, and it is the first product of the highest price in catalogue order |
| Aggregation.MinPrice | python_agent_extended.py:88 | MIN(price) is attained by a product and is at most every price |
| Aggregation.MaxPrice | python_agent_extended.py:89 | MAX(price) is attained by a product and is at least every price |
| Aggregation.StatisticsOf | python_agent_extended.py:98-105 | the statistics row of the product list: the count; the average price rounded to cents, or 0 for no products; MIN, MAX and Σ stock, NULL for no products; Σ price·stock rounded to cents, or 0 for no products |
| Aggregation.StatisticsBounds | python_agent_extended.py:84-105 | min and max are present exactly when the table is non-empty, and then the rounded average lies between them |
| Classifier.Lower | python_agent_extended.py:149 | `question.lower()` keeps the length and lower-cases each character |
| Classifier.LowerIdempotent | python_agent_extended.py:149 | lower-casing twice equals lower-casing once |
| Classifier.ContainsOccurs | python_agent_extended.py:151 | the `in` test on strings holds exactly when the keyword occurs at some position |
| Classifier.ContainsTransitive | python_agent_extended.py:155 | a text holding a string holds every substring of that string |
| Classifier.FirstMatch | python_agent_extended.py:151-189 | the chosen rule holds, no earlier rule holds, and no choice means no rule holds |
| Classifier.Classify | python_agent_extended.py:149-189 | the intent of a question: the intent of the first rule that holds on the lower-cased question, or the generic answer when none holds |
| Classifier.ClassifyFirstMatchWins | python_agent_extended.py:151-189 | the first rule whose condition holds on the lower-cased question decides the intent |
| Classifier.ClassifyIgnoresCase | python_agent_extended.py:149 | classifying the lower-cased question gives the same intent |
| Classifier.StandardChain | python_agent_extended.py:151-189 | the rule list is the source's elif chain: kolik∧(produkt∨celkem), průměr∨průměrná cena, kategorie, nízk∧zásob, nejdražší, else generic |
| Classifier.CliChain | python_agent.py:161-199 | this copy's chain, with "elektronika" in the category test and "nejdraž" in the most-expensive test |
| Classifier.AverageKeywordRedundant | python_agent_extended.py:155 | the "průměrná cena" alternative never matters, because it contains "průměr" |
| Classifier.CliExpensiveKeywordRedundant | python_agent.py:187 | "nejdražší" contains "nejdraž", so this copy's most-expensive test is just "nejdraž" |
| Classifier.ChainsAgreeWithoutExtraKeywords | python_agent.py:161-193 | without "elektronika" and "nejdraž" in the lower-cased question, both chains give the same intent |
| Classifier.CountComesFirst | python_agent_extended.py:151 | a question with "kolik" and "produkt" gets the total-count answer in both chains, whatever else it holds (e.g. "podle kategorie") |
| Classifier.AverageBeatsElektronika | python_agent.py:165-170 | with "průměr" and "elektronika" but no "kolik", this copy gives the average-price answer |
| Classifier.CliElektronikaRoutesToCategories | python_agent.py:170 | "elektronika" without an earlier rule's keywords routes to the category breakdown |
| Classifier.CliNejdrazRoutesToMostExpensive | python_agent.py:187 | "nejdraž" without the keywords of earlier rules routes to the most-expensive answer |
| Classifier.NejdrazDiffers | python_agent.py:187 | the question "nejdraž" gets the most-expensive answer in this copy and the generic answer in the other two |
| Simulator.Respond | python_agent_extended.py:148-189 | the six answer templates filled from the statistics row and the data; the average-price answer fails when MIN or MAX is NULL |
| Simulator.CategoryText | python_agent_extended.py:160-166 | the `response +=` loop over the table yields one line per key, in key order |
| Simulator.LowStockText | python_agent_extended.py:172-175 | the `response +=` loop yields one line per listed product, in order |
| Simulator.GenerateResponse | python_agent_extended.py:148-189 | the generator gives the answer template of the intent its rule chain picks, and fails exactly where the source raises |
| Simulator.LowStockLinesRows | python_agent_extended.py:173-174 | the low-stock lines hold exactly one line break per listed product |
| Simulator.CategoryLinesRows | python_agent_extended.py:163-165 | the category lines hold exactly one line break per category |
| Simulator.LowStockAnswerRows | python_agent_extended.py:168-175 | an empty list gives the fixed "dostatek zásob" text; otherwise the header reports the full count and is followed by exactly min(5, n) rows |
| Simulator.LowStockAnswerIgnoresTail | python_agent_extended.py:173 | products after the fifth never reach the answer |
| Simulator.MostExpensiveAnswer | python_agent_extended.py:177-183 | given `find_expensive` of a catalogue, the answer names the first product of the highest price in catalogue order, or is "Nenalezeny žádné produkty." when the catalogue is empty |
| Simulator.RespondBindings | python_agent_extended.py:148-189 | which inputs each answer reads: the count, average and generic answers read only the statistics row, the category answer only the table, the low-stock answer only its list, the most-expensive answer only the first expensive product |
| Simulator.RespondFailsOnlyOnEmptyAverage | python_agent_extended.py:155-158 | on statistics of a product list, only the average-price answer about an empty catalogue fails |
| Pipeline.Gather | python_agent_extended.py:283-285 | the three `stats_tool` calls give the table, the low-stock list and the top five of the catalogue |
| Pipeline.Run | python_agent_extended.py:280-294 | the aggregation followed by the generator gives the simulator's answer for the catalogue |
| Pipeline.AnswerFails | python_agent_extended.py:280-294 | an answer fails exactly when the question asks for the average price and the catalogue is empty |
| Pipeline.LowStockAnswer | python_agent_extended.py:168-175 | for a catalogue, the low-stock answer is the fixed text exactly when no product has fewer than 10 pieces, and otherwise reports their number and lists min(5, n) of them |
| Pipeline.MostExpensiveAnswerOf | python_agent_web.py:174-180 | the most-expensive answer names the catalogue's first product of the highest price, in catalogue order, or has the fixed text for an empty catalogue |
| AgentExtended.SelectMode | python_agent_extended.py:254-274 | the mode is "simulator" or "openai", and it is "openai" exactly when the lower-cased request is "openai", a non-empty key is set and the client is available |
| AgentExtended.SelectModeIgnoresCase | python_agent_extended.py:257 | the letter case of the requested mode does not matter |
| AgentExtended.Reply | python_agent_extended.py:294 | the answer of the agent's `llm`: the OpenAI client's reply text, or the simulator's answer with this copy's rules |
| AgentExtended.ReplyFails | python_agent_extended.py:294 | the OpenAI client's reply never fails; the simulator fails only on the average-price question about an empty catalogue |
| AgentExtended.Agent.constructor | python_agent_extended.py:254-277 | a new agent has the selected mode, the matching client and an empty log |
| AgentExtended.Agent.ProcessQuery | python_agent_extended.py:279-310 | the returned record holds the question, the answer, the timestamp, the statistics and the mode; exactly one matching entry is appended and earlier entries are kept; mode and client never change; on failure the log is unchanged |
| AgentWeb.Agent.constructor | python_agent_web.py:192-196 | a new agent has an empty log |
| AgentWeb.Agent.ProcessQuery | python_agent_web.py:198-227 | the returned record holds the question, the simulator's answer, the timestamp and the statistics; exactly one matching entry is appended; on failure the log is unchanged |
| AgentCli.Agent.constructor | python_agent.py:206-210 | a new agent has an empty log |
| AgentCli.Agent.ProcessQuery | python_agent.py:212-251 | the returned text is the simulator's answer with this copy's rules; exactly one entry holding it is appended; on failure the log is unchanged |

## Left out

- `DatabaseTool` (table creation, seed rows, `query`, the SQL of
  `get_statistics`) is SQLite I/O and is not part of this model. The product
  list is a parameter, and the statistics row is `Aggregation.StatisticsOf`
  of it.
- The HTTP handler, the server, the HTML page, `main`, `run_interactive`
  and the console loops are transport and UI. They are not part of this
  model.
- `save_log` in python_agent.py writes a file and is not part of this model.
- All `print` output of `process_query` and `__init__` is left out.
- The OpenAI client's prompt building and network call are foreign code.
  Their outcome is the parameter `remoteReply`, and the client's `available`
  flag is the parameter `openaiAvailable`.
- `datetime.now().isoformat()` and `os.getenv('OPENAI_API_KEY')` are the
  parameters `timestamp` and `apiKey`.
- The module-level global `agent` instance and its `LLM_MODE` lookup are left
  out; the requested mode is the constructor's parameter.
- The `products` entry of the `data` dict is not modelled: no answer reads it.
- Prices are exact reals. Binary floating-point effects on sums and on
  `round` are not modelled.
- The `products` name lists that are built while the table is accumulated
  are modelled by value (`seq<string>`). Aliasing of the Python lists is not
  modelled.
- Classifier.Lower: differs from Python's `str.lower`. It maps ASCII,
  Latin-1 and the Czech capitals to lower case and leaves every other
  character unchanged. It always keeps the length, while Python can lengthen
  a string (`'İ'.lower()` has two characters).
