/** StatisticsTool: the derived views over one snapshot of the product list
    (per-category breakdown, low stock, most expensive), and the statistics row
    that the store's aggregate query computes, as a function of the same list. */
module Aggregation {
  import opened Catalog
  import opened Format

  /** Default `threshold` of `find_low_stock` and `limit` of `find_expensive`. */
  const DefaultThreshold: int := 10
  const DefaultLimit: int := 5

  function Min(a: int, b: int): int { if a <= b then a else b }
  function Max(a: int, b: int): int { if a <= b then b else a }

  // ---------------------------------------------------------------------------
  // Stable filters (Python list comprehensions with an `if`)
  // ---------------------------------------------------------------------------

  /** `[x for x in s if keep(x)]` */
  function Filter<T>(s: seq<T>, keep: T -> bool): (r: seq<T>)
    ensures |r| <= |s|
  {
    if s == [] then []
    else
      assert s == [s[0]] + s[1..];
      (if keep(s[0]) then [s[0]] else []) + Filter(s[1..], keep)
  }

  /** The filter keeps exactly the elements that satisfy keep. */
  lemma {:induction false} FilterMembers<T(!new)>(s: seq<T>, keep: T -> bool)
    ensures forall x :: x in Filter(s, keep) <==> x in s && keep(x)
  {
    if s != [] {
      FilterMembers(s[1..], keep);
      assert s == [s[0]] + s[1..];
    }
  }

  /** Nothing is kept when no element satisfies keep. */
  lemma {:induction false} FilterNone<T>(s: seq<T>, keep: T -> bool)
    requires forall i :: 0 <= i < |s| ==> !keep(s[i])
    ensures Filter(s, keep) == []
  {
    if s != [] {
      FilterNone(s[1..], keep);
    }
  }

  /** Filtering keeps the input order: it distributes over concatenation. */
  lemma {:induction false} FilterAppend<T>(a: seq<T>, b: seq<T>, keep: T -> bool)
    ensures Filter(a + b, keep) == Filter(a, keep) + Filter(b, keep)
  {
    if a == [] {
      assert a + b == b;
    } else {
      assert (a + b)[0] == a[0] && (a + b)[1..] == a[1..] + b;
      FilterAppend(a[1..], b, keep);
      var h := if keep(a[0]) then [a[0]] else [];
      calc {
        Filter(a + b, keep);
        h + Filter(a[1..] + b, keep);
        h + (Filter(a[1..], keep) + Filter(b, keep));
        (h + Filter(a[1..], keep)) + Filter(b, keep);
        Filter(a, keep) + Filter(b, keep);
      }
    }
  }

  function HasCategory(c: string): Product -> bool {
    (p: Product) => p.category == c
  }

  function StockBelow(threshold: int): Product -> bool {
    (p: Product) => p.stock < threshold
  }

  function PriceIs(v: real): Product -> bool {
    (p: Product) => p.price == v
  }

  /** `[p for p in products if p['category'] == c]` */
  function InCategory(ps: seq<Product>, c: string): seq<Product> {
    Filter(ps, HasCategory(c))
  }

  /** The products of ps whose price is exactly v, in input order. */
  function WithPrice(ps: seq<Product>, v: real): seq<Product> {
    Filter(ps, PriceIs(v))
  }

  // ---------------------------------------------------------------------------
  // Sums over a list of products
  // ---------------------------------------------------------------------------

  /** `p['price'] * p['stock']` */
  function Value(p: Product): real {
    p.price * p.stock as real
  }

  /** `sum(p['price'] for p in s)` */
  function SumPrices(s: seq<Product>): real {
    if s == [] then 0.0 else SumPrices(s[..|s| - 1]) + s[|s| - 1].price
  }

  /** Σ price·stock */
  function StockValue(s: seq<Product>): real {
    if s == [] then 0.0 else StockValue(s[..|s| - 1]) + Value(s[|s| - 1])
  }

  /** Σ stock */
  function SumStock(s: seq<Product>): int {
    if s == [] then 0 else SumStock(s[..|s| - 1]) + s[|s| - 1].stock
  }

  /** The `name` of every product, in order. */
  function Names(s: seq<Product>): (r: seq<string>)
    ensures |r| == |s| && forall i :: 0 <= i < |s| ==> r[i] == s[i].name
  {
    seq(|s|, i requires 0 <= i < |s| => s[i].name)
  }

  /** The sum of prices lies between count·lo and count·hi when every price does. */
  lemma {:induction false} SumPricesBetween(s: seq<Product>, lo: real, hi: real)
    requires forall i :: 0 <= i < |s| ==> lo <= s[i].price <= hi
    ensures |s| as real * lo <= SumPrices(s) <= |s| as real * hi
  {
    if s != [] {
      var s' := s[..|s| - 1];
      SumPricesBetween(s', lo, hi);
      assert |s| as real * lo == |s'| as real * lo + lo;
      assert |s| as real * hi == |s'| as real * hi + hi;
    }
  }

  // ---------------------------------------------------------------------------
  // calculate_by_category
  // ---------------------------------------------------------------------------

  ghost predicate Distinct(s: seq<string>) {
    forall i, j :: 0 <= i < j < |s| ==> s[i] != s[j]
  }

  /** The distinct categories of ps in order of first occurrence: the order in
      which the source's dict receives its keys. */
  function Categories(ps: seq<Product>): (r: seq<string>)
    ensures Distinct(r)
  {
    if ps == [] then []
    else
      var prev := Categories(ps[..|ps| - 1]);
      var c := ps[|ps| - 1].category;
      if c in prev then prev else prev + [c]
  }

  /** A category is listed exactly when some product belongs to it. */
  lemma {:induction false} CategoriesMembers(ps: seq<Product>, c: string)
    ensures c in Categories(ps) <==> InCategory(ps, c) != []
  {
    if ps != [] {
      var ps', p := ps[..|ps| - 1], ps[|ps| - 1];
      CategoriesMembers(ps', c);
      InCategorySnoc(ps', p);
      assert ps' + [p] == ps;
    }
  }

  /** Adding one product at the end adds it to its own category only. */
  lemma InCategorySnoc(ps: seq<Product>, p: Product)
    ensures forall c ::
      InCategory(ps + [p], c) == InCategory(ps, c) + (if p.category == c then [p] else [])
  {
    forall c
      ensures InCategory(ps + [p], c) == InCategory(ps, c) + (if p.category == c then [p] else [])
    {
      FilterAppend(ps, [p], HasCategory(c));
      assert [p][1..] == [];
    }
  }

  /** Reading one more product adds its category at the end if it is new. */
  lemma CategoriesSnoc(ps: seq<Product>, p: Product)
    ensures Categories(ps + [p]) ==
      if p.category in Categories(ps) then Categories(ps) else Categories(ps) + [p.category]
  {
    assert (ps + [p])[..|ps|] == ps;
  }

  /** The categories of a prefix are a prefix of the categories: a category
      enters the key order when its first product is read, and stays there. */
  lemma {:induction false} CategoriesPrefix(ps: seq<Product>, k: nat)
    requires k <= |ps|
    ensures Categories(ps[..k]) <= Categories(ps)
    decreases |ps| - k
  {
    if k < |ps| {
      CategoriesPrefix(ps, k + 1);
      assert ps[..k + 1][..k] == ps[..k];
    } else {
      assert ps[..k] == ps;
    }
  }

  /** The per-category record: `count`, `total_value`, `avg_price`, `products`. */
  datatype CategoryStat = CategoryStat(
    count: int,
    totalValue: real,
    avgPrice: real,
    products: seq<string>)

  /** Python's insertion-ordered dict from category to CategoryStat: the key
      order and the key/value map. */
  datatype CategoryTable = CategoryTable(keys: seq<string>, stats: map<string, CategoryStat>) {
    ghost predicate Valid() {
      (forall c :: c in stats <==> c in keys) && Distinct(keys)
    }
  }

  /** What the source computes for category c: the members' count, Σ price·stock,
      the unweighted mean price rounded with `round(…, 2)`, and the names in input order. */
  function CategoryStatOf(ps: seq<Product>, c: string): CategoryStat {
    var m := InCategory(ps, c);
    CategoryStat(
      |m|,
      StockValue(m),
      if m == [] then 0.0 else Round2(SumPrices(m) / |m| as real),
      Names(m))
  }

  /** The dict `calculate_by_category(ps)` returns, as a value. */
  function ByCategory(ps: seq<Product>): CategoryTable {
    var keys := Categories(ps);
    CategoryTable(keys, map c | c in keys :: CategoryStatOf(ps, c))
  }

  /** A category's record after the first pass: everything but the average. */
  function Accumulated(ps: seq<Product>, c: string): CategoryStat {
    CategoryStatOf(ps, c).(avgPrice := 0.0)
  }

  /** A category without members has the record the source starts it with. */
  lemma AccumulatedEmpty(ps: seq<Product>, c: string)
    requires c !in Categories(ps)
    ensures Accumulated(ps, c) == CategoryStat(0, 0.0, 0.0, [])
  {
    CategoriesMembers(ps, c);
    assert Names([]) == [];
  }

  /** One step of the first pass: reading p updates p's own category only. */
  lemma AccumulatedSnoc(ps: seq<Product>, p: Product, c: string)
    ensures var a := Accumulated(ps, c);
      Accumulated(ps + [p], c) ==
        if c == p.category
        then a.(count := a.count + 1, totalValue := a.totalValue + Value(p), products := a.products + [p.name])
        else a
  {
    InCategorySnoc(ps, p);
    var m := InCategory(ps, c);
    if c == p.category {
      assert (m + [p])[..|m|] == m;
      assert Names(m + [p]) == Names(m) + [p.name];
    } else {
      assert m + [] == m;
    }
  }

  /** One iteration of the first loop: create p's category with an empty
      record on first sight, then count p, add its stock value and its name. */
  ghost function FirstPassStep(t: CategoryTable, p: Product): CategoryTable {
    var isNew := p.category !in t.stats;
    var keys := if isNew then t.keys + [p.category] else t.keys;
    var stats := if isNew then t.stats[p.category := CategoryStat(0, 0.0, 0.0, [])] else t.stats;
    var s := stats[p.category];
    CategoryTable(keys, stats[p.category := s.(
      count := s.count + 1,
      totalValue := s.totalValue + Value(p),
      products := s.products + [p.name])])
  }

  /** The dict after the first loop has read ps. */
  ghost function FirstPass(ps: seq<Product>): CategoryTable {
    if ps == [] then CategoryTable([], map[])
    else FirstPassStep(FirstPass(ps[..|ps| - 1]), ps[|ps| - 1])
  }

  /** After the first loop the keys are the categories in order of first
      occurrence, and the dict holds exactly those keys. */
  lemma {:induction false} FirstPassKeys(ps: seq<Product>)
    ensures FirstPass(ps).keys == Categories(ps)
    ensures forall c :: c in FirstPass(ps).stats <==> c in Categories(ps)
  {
    if ps != [] {
      var ps', p := ps[..|ps| - 1], ps[|ps| - 1];
      FirstPassKeys(ps');
      CategoriesSnoc(ps', p);
      assert ps' + [p] == ps;
    }
  }

  /** After the first loop each category holds its accumulated record. */
  lemma {:induction false} FirstPassRecord(ps: seq<Product>, c: string)
    requires c in Categories(ps)
    ensures c in FirstPass(ps).stats && FirstPass(ps).stats[c] == Accumulated(ps, c)
  {
    var ps', p := ps[..|ps| - 1], ps[|ps| - 1];
    assert ps' + [p] == ps;
    FirstPassKeys(ps');
    FirstPassKeys(ps);
    CategoriesSnoc(ps', p);
    AccumulatedSnoc(ps', p, c);
    if c in Categories(ps') {
      FirstPassRecord(ps', c);
    } else {
      AccumulatedEmpty(ps', c);
    }
  }

  /** After the first loop, in key order: the keys are the categories and
      each holds its accumulated record. */
  lemma FirstPassComplete(ps: seq<Product>)
    ensures var t := FirstPass(ps);
      && t.keys == Categories(ps)
      && (forall c :: c in t.stats <==> c in t.keys)
      && forall k :: 0 <= k < |t.keys| ==> t.stats[t.keys[k]] == Accumulated(ps, t.keys[k])
  {
    FirstPassKeys(ps);
    var t := FirstPass(ps);
    forall k | 0 <= k < |t.keys|
      ensures t.stats[t.keys[k]] == Accumulated(ps, t.keys[k])
    {
      FirstPassRecord(ps, t.keys[k]);
    }
  }

  /** The first loop of `calculate_by_category`: create each category on
      first sight, then count the product, add its stock value and its name. */
  method AccumulateByCategory(ps: seq<Product>) returns (keys: seq<string>, stats: map<string, CategoryStat>)
    ensures CategoryTable(keys, stats) == FirstPass(ps)
  {
    keys := [];
    stats := map[];
    var i := 0;
    while i < |ps|
      invariant 0 <= i <= |ps|
      invariant CategoryTable(keys, stats) == FirstPass(ps[..i])
    {
      var p := ps[i];
      if p.category !in stats {
        stats := stats[p.category := CategoryStat(0, 0.0, 0.0, [])];
        keys := keys + [p.category];
      }
      var s := stats[p.category];
      stats := stats[p.category := s.(
        count := s.count + 1,
        totalValue := s.totalValue + Value(p),
        products := s.products + [p.name])];
      assert ps[..i + 1][..i] == ps[..i];
      i := i + 1;
    }
    assert ps[..i] == ps;
  }

  /** The second loop of `calculate_by_category`: each key's average price
      becomes the rounded mean price of its products. */
  method AverageByCategory(ps: seq<Product>, keys: seq<string>, stats: map<string, CategoryStat>)
    returns (result: map<string, CategoryStat>)
    requires Distinct(keys)
    requires forall c :: c in stats <==> c in keys
    requires forall k :: 0 <= k < |keys| ==> InCategory(ps, keys[k]) != []
    requires forall k :: 0 <= k < |keys| ==> stats[keys[k]] == Accumulated(ps, keys[k])
    ensures forall c :: c in result <==> c in keys
    ensures forall k :: 0 <= k < |keys| ==> result[keys[k]] == CategoryStatOf(ps, keys[k])
  {
    result := stats;
    var j := 0;
    while j < |keys|
      invariant 0 <= j <= |keys|
      invariant forall c :: c in result <==> c in keys
      invariant forall k :: 0 <= k < j ==> result[keys[k]] == CategoryStatOf(ps, keys[k])
      invariant forall k :: j <= k < |keys| ==> result[keys[k]] == Accumulated(ps, keys[k])
    {
      var cat := keys[j];
      var members := InCategory(ps, cat);
      result := result[cat := result[cat].(avgPrice := Round2(SumPrices(members) / |members| as real))];
      forall k | 0 <= k < |keys| && k != j
        ensures keys[k] != cat
      {
      }
      j := j + 1;
    }
  }

  /** `StatisticsTool.calculate_by_category`: one pass creating each category on
      first sight and accumulating count, Σ price·stock and the names, then one
      pass over the keys filling in each category's average price. */
  method CalculateByCategory(ps: seq<Product>) returns (table: CategoryTable)
    ensures table.Valid()
    ensures table == ByCategory(ps)
  {
    var keys, stats := AccumulateByCategory(ps);
    FirstPassComplete(ps);
    forall k | 0 <= k < |keys|
      ensures InCategory(ps, keys[k]) != []
    {
      CategoriesMembers(ps, keys[k]);
    }
    stats := AverageByCategory(ps, keys, stats);
    table := CategoryTable(keys, stats);
    FinishedTable(ps, table);
  }

  /** A table whose keys are the categories and whose records are the
      categories' records is the value ByCategory describes. */
  lemma FinishedTable(ps: seq<Product>, t: CategoryTable)
    requires t.keys == Categories(ps)
    requires forall c :: c in t.stats <==> c in t.keys
    requires forall k :: 0 <= k < |t.keys| ==> t.stats[t.keys[k]] == CategoryStatOf(ps, t.keys[k])
    ensures t.Valid() && t == ByCategory(ps)
  {
    assert t.stats == ByCategory(ps).stats;
  }

  /** Σ count over the categories of the table. */
  function SumCounts(keys: seq<string>, stats: map<string, CategoryStat>): int
    requires forall c :: c in keys ==> c in stats
  {
    if keys == [] then 0
    else SumCounts(keys[..|keys| - 1], stats) + stats[keys[|keys| - 1]].count
  }

  /** Σ total_value over the categories of the table. */
  function SumValues(keys: seq<string>, stats: map<string, CategoryStat>): real
    requires forall c :: c in keys ==> c in stats
  {
    if keys == [] then 0.0
    else SumValues(keys[..|keys| - 1], stats) + stats[keys[|keys| - 1]].totalValue
  }

  /** Σ over cs of the member count and the member stock value of ps. */
  function MemberCount(ps: seq<Product>, cs: seq<string>): int {
    if cs == [] then 0 else MemberCount(ps, cs[..|cs| - 1]) + |InCategory(ps, cs[|cs| - 1])|
  }

  function MemberValue(ps: seq<Product>, cs: seq<string>): real {
    if cs == [] then 0.0 else MemberValue(ps, cs[..|cs| - 1]) + StockValue(InCategory(ps, cs[|cs| - 1]))
  }

  /** Appending product p changes the sums over cs by p's share exactly when
      p's category is one of the (distinct) cs. */
  lemma {:induction false} MemberSumsSnoc(ps: seq<Product>, p: Product, cs: seq<string>)
    requires Distinct(cs)
    ensures MemberCount(ps + [p], cs) == MemberCount(ps, cs) + (if p.category in cs then 1 else 0)
    ensures MemberValue(ps + [p], cs) == MemberValue(ps, cs) + (if p.category in cs then Value(p) else 0.0)
  {
    if cs != [] {
      var cs' := cs[..|cs| - 1];
      var c := cs[|cs| - 1];
      MemberSumsSnoc(ps, p, cs');
      InCategorySnoc(ps, p);
      var m := InCategory(ps, c);
      if p.category == c {
        assert (m + [p])[..|m|] == m;
        assert c !in cs';
      } else {
        assert m + [] == m;
      }
      assert p.category in cs <==> p.category in cs' || p.category == c;
    }
  }

  /** Every product lies in exactly one category, so the member counts and values
      over all categories add up to those of the whole list. */
  lemma {:induction false} MemberSumsPartition(ps: seq<Product>)
    ensures MemberCount(ps, Categories(ps)) == |ps|
    ensures MemberValue(ps, Categories(ps)) == StockValue(ps)
  {
    if ps != [] {
      var ps' := ps[..|ps| - 1];
      var p := ps[|ps| - 1];
      assert ps == ps' + [p];
      var cs := Categories(ps');
      MemberSumsPartition(ps');
      MemberSumsSnoc(ps', p, cs);
      if p.category !in cs {
        InCategorySnoc(ps', p);
        CategoriesMembers(ps', p.category);
        assert InCategory(ps, p.category) == [p];
        assert [p][..0] == [];
        assert StockValue([p]) == Value(p);
        assert (cs + [p.category])[..|cs|] == cs;
      }
    }
  }

  /** The table sums agree with the member sums on every prefix of the keys. */
  lemma {:induction false} TableSumsAreMemberSums(ps: seq<Product>, n: nat)
    requires n <= |Categories(ps)|
    ensures var t := ByCategory(ps);
      SumCounts(t.keys[..n], t.stats) == MemberCount(ps, t.keys[..n]) &&
      SumValues(t.keys[..n], t.stats) == MemberValue(ps, t.keys[..n])
  {
    if n > 0 {
      var t := ByCategory(ps);
      TableSumsAreMemberSums(ps, n - 1);
      assert t.keys[..n][..n - 1] == t.keys[..n - 1];
    }
  }

  /** The category counts sum to the number of products, and the category values
      to the value of the whole stock. */
  lemma CategoryTotals(ps: seq<Product>)
    ensures var t := ByCategory(ps);
      SumCounts(t.keys, t.stats) == |ps| && SumValues(t.keys, t.stats) == StockValue(ps)
  {
    var t := ByCategory(ps);
    TableSumsAreMemberSums(ps, |t.keys|);
    assert t.keys[..|t.keys|] == t.keys;
    MemberSumsPartition(ps);
  }

  /** Per category: count equals the length of its name list, and the names are
      those of its members in input order. */
  lemma CategoryMembers(ps: seq<Product>, c: string)
    requires c in ByCategory(ps).stats
    ensures var s := ByCategory(ps).stats[c];
      s.count == |s.products| > 0 &&
      s.products == Names(InCategory(ps, c)) &&
      forall p :: p in InCategory(ps, c) <==> p in ps && p.category == c
  {
    CategoriesMembers(ps, c);
    FilterMembers(ps, HasCategory(c));
  }

  /** A mean of n values each between lo and hi is itself between them. */
  lemma MeanBetween(sum: real, n: real, lo: real, hi: real)
    requires n > 0.0 && n * lo <= sum <= n * hi
    ensures lo <= sum / n <= hi
  {
    var m := sum / n;
    assert n * (m - lo) == sum - n * lo;
    assert n * (hi - m) == n * hi - sum;
  }

  /** The unweighted mean price of a non-empty list lies between any bounds of its prices. */
  lemma MeanPriceBetween(s: seq<Product>, lo: real, hi: real)
    requires s != []
    requires forall i :: 0 <= i < |s| ==> lo <= s[i].price <= hi
    ensures lo <= SumPrices(s) / |s| as real <= hi
  {
    SumPricesBetween(s, lo, hi);
    MeanBetween(SumPrices(s), |s| as real, lo, hi);
  }

  /** The average price of a category lies (up to the rounding to cents)
      between the cheapest and the dearest member. */
  lemma CategoryAverageBetween(ps: seq<Product>, c: string, lo: real, hi: real)
    requires c in ByCategory(ps).stats
    requires forall p :: p in ps && p.category == c ==> lo <= p.price <= hi
    ensures lo - 0.005 <= ByCategory(ps).stats[c].avgPrice <= hi + 0.005
  {
    var m := InCategory(ps, c);
    CategoriesMembers(ps, c);
    FilterMembers(ps, HasCategory(c));
    assert ByCategory(ps).stats[c] == CategoryStatOf(ps, c);
    assert forall i :: 0 <= i < |m| ==> m[i] in m;
    MeanPriceBetween(m, lo, hi);
  }

  /** qs is ps with only the stock of its products changed. */
  ghost predicate Restocked(ps: seq<Product>, qs: seq<Product>) {
    |ps| == |qs| && forall i :: 0 <= i < |ps| ==> qs[i] == ps[i].(stock := qs[i].stock)
  }

  lemma {:induction false} RestockedCategories(ps: seq<Product>, qs: seq<Product>)
    requires Restocked(ps, qs)
    ensures Categories(ps) == Categories(qs)
  {
    if ps != [] {
      RestockedCategories(ps[..|ps| - 1], qs[..|qs| - 1]);
    }
  }

  lemma {:induction false} RestockedMembers(ps: seq<Product>, qs: seq<Product>, c: string)
    requires Restocked(ps, qs)
    ensures Restocked(InCategory(ps, c), InCategory(qs, c))
  {
    if ps != [] {
      var ps', p := ps[..|ps| - 1], ps[|ps| - 1];
      var qs', q := qs[..|qs| - 1], qs[|qs| - 1];
      assert ps' + [p] == ps && qs' + [q] == qs;
      RestockedMembers(ps', qs', c);
      InCategorySnoc(ps', p);
      InCategorySnoc(qs', q);
    }
  }

  lemma {:induction false} RestockedSumPrices(ps: seq<Product>, qs: seq<Product>)
    requires Restocked(ps, qs)
    ensures SumPrices(ps) == SumPrices(qs)
  {
    if ps != [] {
      RestockedSumPrices(ps[..|ps| - 1], qs[..|qs| - 1]);
    }
  }

  /** The average price ignores stock: changing only the stock of products
      keeps the categories, their order, their counts and their average prices. */
  lemma AverageIgnoresStock(ps: seq<Product>, qs: seq<Product>, c: string)
    requires Restocked(ps, qs)
    requires c in ByCategory(ps).stats
    ensures ByCategory(qs).keys == ByCategory(ps).keys
    ensures c in ByCategory(qs).stats
    ensures ByCategory(qs).stats[c].count == ByCategory(ps).stats[c].count
    ensures ByCategory(qs).stats[c].avgPrice == ByCategory(ps).stats[c].avgPrice
  {
    RestockedCategories(ps, qs);
    RestockedMembers(ps, qs, c);
    RestockedSumPrices(InCategory(ps, c), InCategory(qs, c));
  }

  // ---------------------------------------------------------------------------
  // find_low_stock
  // ---------------------------------------------------------------------------

  /** `StatisticsTool.find_low_stock`: the products with stock below the threshold. */
  function FindLowStock(ps: seq<Product>, threshold: int): (r: seq<Product>)
    ensures forall p :: p in r <==> p in ps && p.stock < threshold
  {
    FilterMembers(ps, StockBelow(threshold));
    Filter(ps, StockBelow(threshold))
  }

  /** The low-stock list keeps input order: it distributes over concatenation. */
  lemma FindLowStockAppend(a: seq<Product>, b: seq<Product>, threshold: int)
    ensures FindLowStock(a + b, threshold) == FindLowStock(a, threshold) + FindLowStock(b, threshold)
  {
    FilterAppend(a, b, StockBelow(threshold));
  }

  /** With threshold 0 and no negative stock, nothing is low. */
  lemma FindLowStockZero(ps: seq<Product>)
    requires forall p :: p in ps ==> p.stock >= 0
    ensures FindLowStock(ps, 0) == []
  {
    assert forall i :: 0 <= i < |ps| ==> ps[i] in ps;
    FilterNone(ps, StockBelow(0));
  }

  // ---------------------------------------------------------------------------
  // find_expensive
  // ---------------------------------------------------------------------------

  ghost predicate SortedByPriceDesc(s: seq<Product>) {
    forall i, j :: 0 <= i < j < |s| ==> s[i].price >= s[j].price
  }

  /** Insert x before the first element that is not dearer than x. */
  function Insert(x: Product, s: seq<Product>): (r: seq<Product>)
    ensures multiset(r) == multiset(s) + multiset{x}
  {
    if s == [] || s[0].price <= x.price then [x] + s
    else
      assert s == [s[0]] + s[1..];
      [s[0]] + Insert(x, s[1..])
  }

  /** A price bound that holds for x and for every element of s holds for Insert(x, s). */
  lemma {:induction false} InsertBound(x: Product, s: seq<Product>, b: real)
    requires x.price <= b && forall i :: 0 <= i < |s| ==> s[i].price <= b
    ensures forall i :: 0 <= i < |Insert(x, s)| ==> Insert(x, s)[i].price <= b
  {
    if s != [] && s[0].price > x.price {
      var t := s[1..];
      assert forall i :: 0 <= i < |t| ==> t[i] == s[i + 1];
      InsertBound(x, t, b);
      var r' := Insert(x, t);
      var r := [s[0]] + r';
      assert Insert(x, s) == r;
      assert forall i :: 1 <= i < |r| ==> r[i] == r'[i - 1];
    }
  }

  /** Inserting into a price-sorted list keeps it sorted. */
  lemma {:induction false} InsertSorted(x: Product, s: seq<Product>)
    requires SortedByPriceDesc(s)
    ensures SortedByPriceDesc(Insert(x, s))
  {
    if s != [] && s[0].price > x.price {
      var t := s[1..];
      var r' := Insert(x, t);
      InsertSorted(x, t);
      assert forall i :: 0 <= i < |t| ==> t[i] == s[i + 1];
      InsertBound(x, t, s[0].price);
      var r := [s[0]] + r';
      assert Insert(x, s) == r;
      forall i, j | 0 <= i < j < |r|
        ensures r[i].price >= r[j].price
      {
        if i == 0 {
          assert r[j] == r'[j - 1];
        } else {
          assert r[i] == r'[i - 1] && r[j] == r'[j - 1];
        }
      }
    }
  }

  /** `sorted(s, key=price, reverse=True)`: a stable insertion sort. */
  function SortByPriceDesc(s: seq<Product>): (r: seq<Product>)
    ensures multiset(r) == multiset(s)
    ensures SortedByPriceDesc(r)
  {
    if s == [] then []
    else
      assert s == [s[0]] + s[1..];
      InsertSorted(s[0], SortByPriceDesc(s[1..]));
      Insert(s[0], SortByPriceDesc(s[1..]))
  }

  /** Inserting x puts it before all elements of its own price. */
  lemma {:induction false} InsertStable(x: Product, s: seq<Product>, v: real)
    ensures WithPrice(Insert(x, s), v) == WithPrice([x] + s, v)
  {
    if s != [] && s[0].price > x.price {
      var t := s[1..];
      assert s == [s[0]] + t;
      InsertStable(x, t, v);
      FilterAppend([s[0]], Insert(x, t), PriceIs(v));
      FilterAppend([x], t, PriceIs(v));
      FilterAppend([s[0]], t, PriceIs(v));
      FilterAppend([x], s, PriceIs(v));
      var hs, hx, wt := WithPrice([s[0]], v), WithPrice([x], v), WithPrice(t, v);
      // s[0] and x have different prices, so at most one of them has price v
      assert hs == [] || hx == [];
      calc {
        WithPrice(Insert(x, s), v);
        WithPrice([s[0]] + Insert(x, t), v);
        hs + WithPrice(Insert(x, t), v);
        hs + (hx + wt);
        hx + (hs + wt);
        hx + WithPrice(s, v);
        WithPrice([x] + s, v);
      }
    }
  }

  /** The sort is stable: products of equal price keep their input order. */
  lemma {:induction false} SortStable(s: seq<Product>, v: real)
    ensures WithPrice(SortByPriceDesc(s), v) == WithPrice(s, v)
  {
    if s != [] {
      SortStable(s[1..], v);
      InsertStable(s[0], SortByPriceDesc(s[1..]), v);
      FilterAppend([s[0]], SortByPriceDesc(s[1..]), PriceIs(v));
      assert s == [s[0]] + s[1..];
      FilterAppend([s[0]], s[1..], PriceIs(v));
    }
  }

  /** Python's `s[:k]`, including the negative k that counts from the end. */
  function Slice<T>(s: seq<T>, k: int): (r: seq<T>)
    ensures r <= s
    ensures |r| == if k >= 0 then Min(k, |s|) else Max(0, |s| + k)
  {
    if k >= 0 then s[..Min(k, |s|)] else s[..Max(0, |s| + k)]
  }

  /** Splitting a price-sorted list, nothing in the tail is dearer than anything in the head. */
  lemma SortedSplit(s: seq<Product>, n: nat)
    requires SortedByPriceDesc(s) && n <= |s|
    ensures forall p, q :: p in multiset(s) - multiset(s[..n]) && q in s[..n] ==> p.price <= q.price
  {
    assert s == s[..n] + s[n..];
    assert multiset(s) - multiset(s[..n]) == multiset(s[n..]);
    forall p, q | p in multiset(s) - multiset(s[..n]) && q in s[..n]
      ensures p.price <= q.price
    {
      assert p in s[n..];
      var i :| 0 <= i < |s[n..]| && s[n..][i] == p;
      var j :| 0 <= j < n && s[j] == q;
      assert s[n + i] == p;
    }
  }

  /** A prefix of a list keeps, of each price, a prefix of the products of that price. */
  lemma WithPricePrefix(s: seq<Product>, n: nat, v: real)
    requires n <= |s|
    ensures WithPrice(s[..n], v) <= WithPrice(s, v)
  {
    assert s == s[..n] + s[n..];
    FilterAppend(s[..n], s[n..], PriceIs(v));
  }

  /** `StatisticsTool.find_expensive`: the `limit` dearest products, dearest first,
      ties in input order. */
  function FindExpensive(ps: seq<Product>, limit: int): (r: seq<Product>)
    ensures |r| == if limit >= 0 then Min(limit, |ps|) else Max(0, |ps| + limit)
    ensures SortedByPriceDesc(r)
    ensures multiset(r) <= multiset(ps)
    ensures forall p, q :: p in multiset(ps) - multiset(r) && q in r ==> p.price <= q.price
    ensures forall v :: WithPrice(r, v) <= WithPrice(ps, v)
  {
    var sorted := SortByPriceDesc(ps);
    var r := Slice(sorted, limit);
    assert sorted == r + sorted[|r|..];
    assert r == sorted[..|r|];
    SortedSplit(sorted, |r|);
    assert forall v :: WithPrice(r, v) <= WithPrice(ps, v) by {
      forall v ensures WithPrice(r, v) <= WithPrice(ps, v) {
        WithPricePrefix(sorted, |r|, v);
        SortStable(ps, v);
      }
    }
    r
  }

  /** The first of the most expensive products comes from the list and no
      product of the list is dearer. */
  lemma FindExpensiveHead(ps: seq<Product>, limit: int)
    requires ps != [] && limit >= 1
    ensures FindExpensive(ps, limit) != []
    ensures FindExpensive(ps, limit)[0] in ps
    ensures forall q :: q in ps ==> q.price <= FindExpensive(ps, limit)[0].price
    ensures WithPrice(ps, MaxPrice(ps)) != []
    ensures FindExpensive(ps, limit)[0] == WithPrice(ps, MaxPrice(ps))[0]
  {
    var r := FindExpensive(ps, limit);
    HeadOfSelectionIsMax(ps, r);
    var m := MaxPrice(ps);
    var i :| 0 <= i < |ps| && ps[i].price == m;
    assert ps[i] in ps;
    assert r[0].price == m;
    HeadOfFilter(r, m);
    PrefixHead(WithPrice(r, m), WithPrice(ps, m));
  }

  /** A list that starts with a product of price v keeps it first when
      filtered on price v. */
  lemma HeadOfFilter(r: seq<Product>, v: real)
    requires r != [] && r[0].price == v
    ensures WithPrice(r, v) != [] && WithPrice(r, v)[0] == r[0]
  {
    assert r == [r[0]] + r[1..];
  }

  /** A list with a non-empty prefix starts with the prefix's first element. */
  lemma PrefixHead<T>(a: seq<T>, b: seq<T>)
    requires a != [] && a <= b
    ensures b != [] && b[0] == a[0]
  {
  }

  /** A sorted selection from ps that is no cheaper than what it leaves out
      starts with a product of the highest price in ps. */
  lemma HeadOfSelectionIsMax(ps: seq<Product>, r: seq<Product>)
    requires r != []
    requires SortedByPriceDesc(r)
    requires multiset(r) <= multiset(ps)
    requires forall p, q :: p in multiset(ps) - multiset(r) && q in r ==> p.price <= q.price
    ensures r[0] in ps
    ensures forall q :: q in ps ==> q.price <= r[0].price
  {
    var top := r[0];
    assert top in r;
    assert top in multiset(ps);
    forall q | q in ps
      ensures q.price <= top.price
    {
      assert q in multiset(ps);
      if q !in multiset(ps) - multiset(r) {
        assert q in multiset(r);
        var j :| 0 <= j < |r| && r[j] == q;
      }
    }
  }

  // ---------------------------------------------------------------------------
  // get_statistics (as a function of the product list)
  // ---------------------------------------------------------------------------

  function MinPrice(s: seq<Product>): (m: real)
    requires s != []
    ensures exists i :: 0 <= i < |s| && s[i].price == m
    ensures forall i :: 0 <= i < |s| ==> m <= s[i].price
  {
    if |s| == 1 then s[0].price
    else
      var rest := MinPrice(s[1..]);
      assert forall i :: 1 <= i < |s| ==> s[i] == s[1..][i - 1];
      if s[0].price <= rest then s[0].price else rest
  }

  function MaxPrice(s: seq<Product>): (m: real)
    requires s != []
    ensures exists i :: 0 <= i < |s| && s[i].price == m
    ensures forall i :: 0 <= i < |s| ==> s[i].price <= m
  {
    if |s| == 1 then s[0].price
    else
      var rest := MaxPrice(s[1..]);
      assert forall i :: 1 <= i < |s| ==> s[i] == s[1..][i - 1];
      if s[0].price >= rest then s[0].price else rest
  }

  /** The row of `get_statistics`: COUNT, AVG, MIN, MAX, SUM(stock),
      SUM(price·stock) over the table, with AVG and the value rounded to cents
      and a NULL (or zero) AVG or value reported as 0. */
  function StatisticsOf(ps: seq<Product>): Statistics {
    Statistics(
      |ps|,
      if ps == [] then 0.0 else Round2(SumPrices(ps) / |ps| as real),
      if ps == [] then None else Some(MinPrice(ps)),
      if ps == [] then None else Some(MaxPrice(ps)),
      if ps == [] then None else Some(SumStock(ps)),
      if ps == [] then 0.0 else Round2(StockValue(ps)))
  }

  /** The statistics row is NULL-free exactly when the table is not empty, and
      its average then lies between its minimum and maximum (up to cents). */
  lemma StatisticsBounds(ps: seq<Product>)
    ensures var st := StatisticsOf(ps);
      (st.minPrice.Some? <==> ps != []) && (st.maxPrice.Some? <==> ps != []) &&
      (ps != [] ==> st.minPrice.value - 0.005 <= st.avgPrice <= st.maxPrice.value + 0.005)
  {
    if ps != [] {
      var lo, hi := MinPrice(ps), MaxPrice(ps);
      MeanPriceBetween(ps, lo, hi);
    }
  }
}
