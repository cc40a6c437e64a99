/**
 * The `currency_rates` table: one record per quote of a target currency in
 * terms of a base currency, keyed by a store-assigned integer id.
 */
module Currency {
  import opened Wrappers

  /** A clock reading; the caller supplies "now". */
  type Time = int

  /** Column default of `base_currency`. */
  const DefaultBase: string := "USD"

  /**
   * One row. `rate` is a nullable float column; `created_at` is set on insert;
   * `updated_at` has no insert default, so a new row has none.
   */
  datatype CurrencyRate = CurrencyRate(
    id: int,
    baseCurrency: string,
    targetCurrency: string,
    rate: Option<real>,
    createdAt: Time,
    updatedAt: Option<Time>)

  /** The table's rows by primary key. */
  type Rows = map<int, CurrencyRate>

  /** Every row is stored under its own id. */
  ghost predicate KeyedById(rows: Rows) {
    forall id :: id in rows ==> rows[id].id == id
  }

  /** Rows are keyed by id and every id is below the next one the store assigns. */
  ghost predicate WellFormed(rows: Rows, nextId: int) {
    KeyedById(rows) && forall id :: id in rows ==> id < nextId
  }

  predicate Matches(rec: CurrencyRate, base: string, target: string) {
    rec.baseCurrency == base && rec.targetCurrency == target
  }

  /** At most one row per (base, target) pair. The store does not enforce this. */
  ghost predicate UniquePairs(rows: Rows) {
    forall i, j :: i in rows && j in rows && i != j ==>
      !Matches(rows[j], rows[i].baseCurrency, rows[i].targetCurrency)
  }
}
