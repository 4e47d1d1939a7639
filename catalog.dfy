/** The records the agent works on: a product row, the statistics row that the
    store's aggregate query returns, and the failure-compatible wrappers used for
    the error paths of the pipeline. */
module Catalog {

  datatype Option<+T> = None | Some(value: T)

  datatype Result<+T, +E> = Success(value: T) | Failure(error: E)

  /** One row of the `products` table. Prices are exact reals; `stock` is the
      integer column (the store does not enforce that it is non-negative). */
  datatype Product = Product(
    id: int,
    name: string,
    category: string,
    price: real,
    stock: int,
    description: string)

  /** The dictionary built by `get_statistics`. The SQL aggregates MIN, MAX and
      SUM(stock) are NULL on an empty table, which is why they are optional here;
      `avgPrice` and `totalValue` are replaced by 0 when NULL. */
  datatype Statistics = Statistics(
    totalProducts: int,
    avgPrice: real,
    minPrice: Option<real>,
    maxPrice: Option<real>,
    totalStock: Option<int>,
    totalValue: real)

  /** Why generating an answer can raise: formatting a NULL statistic with
      `:,.0f` is a `TypeError` in Python. */
  datatype Fault = MissingStatistic(field: string)
}
