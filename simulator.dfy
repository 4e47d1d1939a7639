/** `LLMSimulator.generate_response`: classify the question, then fill in the
    fixed Czech answer template of that kind from the statistics row and the
    derived views. The templates are the same in all three copies; only the
    rule list differs, so it is a parameter. */
module Simulator {
  import opened Catalog
  import opened Format
  import opened Aggregation
  import opened Classifier

  /** The `data` dict handed to the generator: the per-category table, the
      low-stock list and the most expensive products. */
  datatype Data = Data(categoryStats: CategoryTable, lowStock: seq<Product>, expensive: seq<Product>)

  /** Every key of the table has a record, as in any Python dict. */
  predicate HasRecords(t: CategoryTable) {
    forall c :: c in t.keys ==> c in t.stats
  }

  /** How many times the character '\n' occurs in s. */
  function Newlines(s: string): nat {
    if s == [] then 0
    else Newlines(s[..|s| - 1]) + (if s[|s| - 1] == '\n' then 1 else 0)
  }

  // ---------------------------------------------------------------------------
  // Templates
  // ---------------------------------------------------------------------------

  const NoLowStock := "Všechny produkty mají dostatek zásob (10+ kusů)."
  const NoProducts := "Nenalezeny žádné produkty."
  const CategoryHeader := "Produkty podle kategorií:\n"

  /** `f"- {cat}: {info['count']} produktů, průměrná cena {info['avg_price']:,.0f} Kč\n"` */
  function CategoryLine(cat: string, info: CategoryStat): string {
    "- " + cat + ": " + IntToString(info.count) + " produktů, průměrná cena " + Money(info.avgPrice) + " Kč\n"
  }

  /** The category lines in key order. */
  function CategoryLines(keys: seq<string>, stats: map<string, CategoryStat>): string
    requires forall c :: c in keys ==> c in stats
  {
    if keys == [] then ""
    else CategoryLines(keys[..|keys| - 1], stats) + CategoryLine(keys[|keys| - 1], stats[keys[|keys| - 1]])
  }

  /** `f"Produkty s nízkými zásobami ({len(low_stock)} ks):\n"` */
  function LowStockHeader(n: int): string {
    "Produkty s nízkými zásobami (" + IntToString(n) + " ks):\n"
  }

  /** `f"- {p['name']}: {p['stock']} ks\n"` */
  function LowStockLine(p: Product): string {
    "- " + p.name + ": " + IntToString(p.stock) + " ks\n"
  }

  function LowStockLines(items: seq<Product>): string {
    if items == [] then ""
    else LowStockLines(items[..|items| - 1]) + LowStockLine(items[|items| - 1])
  }

  /** The most-expensive answer about the product `top`. */
  function TopSentence(top: Product): string {
    "Nejdražším produktem je " + top.name + " za " + Money(top.price) + " Kč. " +
    "Máme ho " + IntToString(top.stock) + " kusů na skladě."
  }

  /** The answer of each kind. Only the average-price answer can fail: it
      formats MIN and MAX with `:,.0f`, which raises on the NULL of an empty table. */
  function Respond(intent: Intent, data: Data, st: Statistics): Result<string, Fault>
    requires HasRecords(data.categoryStats)
  {
    match intent
    case TotalCount =>
      Success("V databázi máme celkem " + IntToString(st.totalProducts) + " produktů. " +
              "Celková hodnota skladu je " + Money(st.totalValue) + " Kč.")
    case AveragePrice =>
      if st.minPrice.None? then Failure(MissingStatistic("min_price"))
      else if st.maxPrice.None? then Failure(MissingStatistic("max_price"))
      else
        Success("Průměrná cena produktů je " + Money(st.avgPrice) + " Kč. " +
                "Nejlevnější produkt stojí " + Money(st.minPrice.value) + " Kč a " +
                "nejdražší " + Money(st.maxPrice.value) + " Kč.")
    case CategoryBreakdown =>
      Success(CategoryHeader + CategoryLines(data.categoryStats.keys, data.categoryStats.stats))
    case LowStock =>
      if data.lowStock == [] then Success(NoLowStock)
      else Success(LowStockHeader(|data.lowStock|) + LowStockLines(Slice(data.lowStock, 5)))
    case MostExpensive =>
      if data.expensive == [] then Success(NoProducts)
      else Success(TopSentence(data.expensive[0]))
    case General =>
      Success("Mám k dispozici informace o " + IntToString(st.totalProducts) + " produktech. " +
              "Průměrná cena je " + Money(st.avgPrice) + " Kč, " +
              "celková hodnota skladu " + Money(st.totalValue) + " Kč. " +
              "Můžete se zeptat na kategorie, ceny, zásoby nebo konkrétní produkty.")
  }

  // ---------------------------------------------------------------------------
  // The generator
  // ---------------------------------------------------------------------------

  /** The category lines, appended one per `category_stats.items()` entry. */
  method CategoryText(t: CategoryTable) returns (lines: string)
    requires HasRecords(t)
    ensures lines == CategoryLines(t.keys, t.stats)
  {
    lines := "";
    var i := 0;
    while i < |t.keys|
      invariant 0 <= i <= |t.keys|
      invariant lines == CategoryLines(t.keys[..i], t.stats)
    {
      CategoryLinesSnoc(t.keys, t.stats, i);
      lines := lines + CategoryLine(t.keys[i], t.stats[t.keys[i]]);
      i := i + 1;
    }
    assert t.keys[..i] == t.keys;
  }

  lemma CategoryLinesSnoc(keys: seq<string>, stats: map<string, CategoryStat>, i: nat)
    requires forall c :: c in keys ==> c in stats
    requires i < |keys|
    ensures CategoryLines(keys[..i + 1], stats) ==
      CategoryLines(keys[..i], stats) + CategoryLine(keys[i], stats[keys[i]])
  {
    assert keys[..i + 1][..i] == keys[..i];
  }

  /** The low-stock lines, appended one per product of `low_stock[:5]`. */
  method LowStockText(items: seq<Product>) returns (lines: string)
    ensures lines == LowStockLines(items)
  {
    lines := "";
    var i := 0;
    while i < |items|
      invariant 0 <= i <= |items|
      invariant lines == LowStockLines(items[..i])
    {
      assert items[..i + 1][..i] == items[..i];
      lines := lines + LowStockLine(items[i]);
      i := i + 1;
    }
    assert items[..i] == items;
  }

  /** `LLMSimulator.generate_response` with the given rule chain. A `Failure`
      stands for the TypeError the source raises. */
  method GenerateResponse(rules: seq<Rule>, question: string, data: Data, st: Statistics)
    returns (r: Result<string, Fault>)
    requires HasRecords(data.categoryStats)
    ensures r == Respond(Classify(rules, question), data, st)
  {
    var intent := Classify(rules, question);
    if intent == CategoryBreakdown {
      var lines := CategoryText(data.categoryStats);
      r := Success(CategoryHeader + lines);
    } else if intent == LowStock && data.lowStock != [] {
      var lines := LowStockText(Slice(data.lowStock, 5));
      r := Success(LowStockHeader(|data.lowStock|) + lines);
    } else {
      r := Respond(intent, data, st);
    }
  }

  // ---------------------------------------------------------------------------
  // Properties of the answers
  // ---------------------------------------------------------------------------

  lemma {:induction false} NewlinesAppend(a: string, b: string)
    ensures Newlines(a + b) == Newlines(a) + Newlines(b)
  {
    if b == [] {
      assert a + b == a;
    } else {
      assert (a + b)[..|a + b| - 1] == a + b[..|b| - 1];
      assert (a + b)[|a + b| - 1] == b[|b| - 1];
      NewlinesAppend(a, b[..|b| - 1]);
    }
  }

  lemma {:induction false} NoNewlines(s: string)
    requires '\n' !in s
    ensures Newlines(s) == 0
  {
    if s != [] {
      assert '\n' !in s[..|s| - 1];
      NoNewlines(s[..|s| - 1]);
    }
  }

  /** A text without line breaks followed by one: a single row. */
  lemma RowEnd(s: string)
    requires '\n' !in s
    ensures Newlines(s + "\n") == 1
  {
    NoNewlines(s);
    NewlinesAppend(s, "\n");
  }

  lemma IntToStringNoNewline(n: int)
    ensures Newlines(IntToString(n)) == 0
  {
    var d := Digits(if n < 0 then -n else n);
    assert forall i :: 0 <= i < |d| ==> d[i] != '\n';
    NoNewlines(IntToString(n));
  }

  lemma MoneyNoNewline(x: real)
    ensures Newlines(Money(x)) == 0
  {
    var n := RoundHalfEven(if x < 0.0 then -x else x);
    GroupedNoNewline(n);
    NewlinesAppend("-", Grouped(n));
  }

  lemma {:induction false} GroupedNoNewline(n: nat)
    ensures Newlines(Grouped(n)) == 0
  {
    if n < 1000 {
      var d := Digits(n);
      assert forall i :: 0 <= i < |d| ==> d[i] != '\n';
      NoNewlines(d);
    } else {
      GroupedNoNewline(n / 1000);
      var p := Pad3(n % 1000);
      NoNewlines(p);
      NewlinesAppend(Grouped(n / 1000), ",");
      NewlinesAppend(Grouped(n / 1000) + ",", p);
    }
  }

  /** A template line holds exactly its final line break when the values
      put into it hold none. */
  lemma LowStockLineRow(p: Product)
    requires Newlines(p.name) == 0
    ensures Newlines(LowStockLine(p)) == 1
  {
    var stock := IntToString(p.stock);
    IntToStringNoNewline(p.stock);
    NoNewlines("- ");
    NoNewlines(": ");
    RowEnd(" ks");
    assert " ks\n" == " ks" + "\n";
    NewlinesAppend("- ", p.name);
    NewlinesAppend("- " + p.name, ": ");
    NewlinesAppend("- " + p.name + ": ", stock);
    NewlinesAppend("- " + p.name + ": " + stock, " ks\n");
  }

  lemma CategoryLineRow(cat: string, info: CategoryStat)
    requires Newlines(cat) == 0
    ensures Newlines(CategoryLine(cat, info)) == 1
  {
    var count := IntToString(info.count);
    var avg := Money(info.avgPrice);
    IntToStringNoNewline(info.count);
    MoneyNoNewline(info.avgPrice);
    NoNewlines("- ");
    NoNewlines(": ");
    NoNewlines(" produktů, průměrná cena ");
    RowEnd(" Kč");
    assert " Kč\n" == " Kč" + "\n";
    var a := "- " + cat + ": ";
    NewlinesAppend("- ", cat);
    NewlinesAppend("- " + cat, ": ");
    NewlinesAppend(a, count);
    var b := a + count + " produktů, průměrná cena ";
    NewlinesAppend(a + count, " produktů, průměrná cena ");
    NewlinesAppend(b, avg);
    NewlinesAppend(b + avg, " Kč\n");
  }

  /** One row per listed product: the low-stock lines hold exactly one line
      break per item when no name contains a line break. */
  lemma {:induction false} LowStockLinesRows(items: seq<Product>)
    requires forall i :: 0 <= i < |items| ==> Newlines(items[i].name) == 0
    ensures Newlines(LowStockLines(items)) == |items|
  {
    if items != [] {
      var p := items[|items| - 1];
      LowStockLinesRows(items[..|items| - 1]);
      LowStockLineRow(p);
      NewlinesAppend(LowStockLines(items[..|items| - 1]), LowStockLine(p));
    }
  }

  /** One row per category, in key order. */
  lemma {:induction false} CategoryLinesRows(keys: seq<string>, stats: map<string, CategoryStat>)
    requires forall c :: c in keys ==> c in stats
    requires forall i :: 0 <= i < |keys| ==> Newlines(keys[i]) == 0
    ensures Newlines(CategoryLines(keys, stats)) == |keys|
  {
    if keys != [] {
      var c := keys[|keys| - 1];
      CategoryLinesRows(keys[..|keys| - 1], stats);
      CategoryLineRow(c, stats[c]);
      NewlinesAppend(CategoryLines(keys[..|keys| - 1], stats), CategoryLine(c, stats[c]));
    }
  }

  /** The low-stock answer reports the full count but lists at most five
      products: after the header line come exactly min(5, n) rows. An empty
      list gives the fixed "enough stock" sentence. */
  lemma LowStockAnswerRows(data: Data, st: Statistics)
    requires HasRecords(data.categoryStats)
    requires forall i :: 0 <= i < |data.lowStock| ==> Newlines(data.lowStock[i].name) == 0
    ensures var low := data.lowStock;
      && (low == [] ==> Respond(LowStock, data, st) == Success(NoLowStock))
      && (low != [] ==> exists rows ::
            Respond(LowStock, data, st) == Success(LowStockHeader(|low|) + rows) &&
            Newlines(rows) == Min(5, |low|))
  {
    var low := data.lowStock;
    if low != [] {
      var items := Slice(low, 5);
      assert forall i :: 0 <= i < |items| ==> items[i] == low[i];
      LowStockLinesRows(items);
      var rows := LowStockLines(items);
      assert Respond(LowStock, data, st) == Success(LowStockHeader(|low|) + rows);
    }
  }

  /** Products after the fifth low-stock product never reach the answer:
      two lists of the same length that agree on their first five products
      give the same answer. */
  lemma LowStockAnswerIgnoresTail(d1: Data, d2: Data, st: Statistics)
    requires HasRecords(d1.categoryStats) && HasRecords(d2.categoryStats)
    requires |d1.lowStock| == |d2.lowStock|
    requires d1.lowStock[..Min(5, |d1.lowStock|)] == d2.lowStock[..Min(5, |d2.lowStock|)]
    ensures Respond(LowStock, d1, st) == Respond(LowStock, d2, st)
  {
  }

  /** The most-expensive answer, given `find_expensive` of a catalogue, names
      the first product of the catalogue, in catalogue order, among those of
      the highest price; an empty catalogue gives the fixed "no products"
      sentence. */
  lemma MostExpensiveAnswer(ps: seq<Product>, data: Data, st: Statistics)
    requires HasRecords(data.categoryStats)
    requires data.expensive == FindExpensive(ps, DefaultLimit)
    ensures ps == [] ==> Respond(MostExpensive, data, st) == Success(NoProducts)
    ensures ps != [] ==> WithPrice(ps, MaxPrice(ps)) != []
    ensures ps != [] ==>
      Respond(MostExpensive, data, st) == Success(TopSentence(WithPrice(ps, MaxPrice(ps))[0]))
  {
    if ps != [] {
      FindExpensiveHead(ps, DefaultLimit);
      var top := data.expensive[0];
      assert Respond(MostExpensive, data, st) == Success(TopSentence(top));
    }
  }

  /** Which inputs each answer reads: the count and average answers read the
      statistics row only, the category answer the table only, the low-stock
      answer the low-stock list only and the most-expensive answer only the
      first of the expensive products. */
  lemma RespondBindings(i: Intent, d1: Data, d2: Data, s1: Statistics, s2: Statistics)
    requires HasRecords(d1.categoryStats) && HasRecords(d2.categoryStats)
    ensures (i == TotalCount || i == General || i == AveragePrice) && s1 == s2 ==>
      Respond(i, d1, s1) == Respond(i, d2, s2)
    ensures i == CategoryBreakdown && d1.categoryStats == d2.categoryStats ==>
      Respond(i, d1, s1) == Respond(i, d2, s2)
    ensures i == LowStock && d1.lowStock == d2.lowStock ==>
      Respond(i, d1, s1) == Respond(i, d2, s2)
    ensures i == MostExpensive && (d1.expensive == [] <==> d2.expensive == []) &&
      (d1.expensive != [] ==> d1.expensive[0] == d2.expensive[0])
      ==> Respond(i, d1, s1) == Respond(i, d2, s2)
  {
  }

  /** On the statistics of a product list, the only failing answer is the
      average-price answer about an empty catalogue. */
  lemma RespondFailsOnlyOnEmptyAverage(i: Intent, data: Data, ps: seq<Product>)
    requires HasRecords(data.categoryStats)
    ensures Respond(i, data, StatisticsOf(ps)).Failure? <==> i == AveragePrice && ps == []
  {
  }
}
