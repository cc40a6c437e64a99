/**
 * Store operations on the `currency_rates` table: lookups are functions of the
 * rows; create, update and delete change a `RateTable` and commit at once.
 */
module CurrencyService {
  import opened Wrappers
  import opened Currency

  /** The outcome of a query that expects at most one row (`scalar_one_or_none`). */
  datatype PairLookup = NoMatch | Found(record: CurrencyRate) | MultipleResultsFound

  /** `get_all`: every row of the table. */
  function GetAll(rows: Rows): (all: set<CurrencyRate>)
    ensures forall id :: id in rows ==> rows[id] in all
    ensures KeyedById(rows) ==> forall rec :: rec in all <==> GetById(rows, rec.id) == Some(rec)
  {
    set id | id in rows :: rows[id]
  }

  /** `get_by_id`: the row with that id, or none. */
  function GetById(rows: Rows, id: int): (r: Option<CurrencyRate>)
    ensures r.Some? <==> id in rows
    ensures r.Some? ==> r.value in rows.Values
    ensures r.Some? && KeyedById(rows) ==> r.value.id == id
  {
    if id in rows then Some(rows[id]) else None
  }

  /** The ids of the rows quoting `target` against `base`. */
  function PairIds(rows: Rows, base: string, target: string): set<int> {
    set id | id in rows && Matches(rows[id], base, target)
  }

  /**
   * `get_by_currency`: the row whose base and target both match, none when no
   * row does; a second match makes the query raise.
   */
  function GetByCurrency(rows: Rows, base: string, target: string): (r: PairLookup)
    ensures r.NoMatch? <==> forall id :: id in rows ==> !Matches(rows[id], base, target)
    ensures r.MultipleResultsFound? <==>
      exists i, j :: i in rows && j in rows && i != j && Matches(rows[i], base, target) && Matches(rows[j], base, target)
    ensures r.Found? ==> Matches(r.record, base, target)
    ensures r.Found? ==> exists id :: id in rows && rows[id] == r.record
    ensures r.Found? ==> forall id :: id in rows && Matches(rows[id], base, target) ==> rows[id] == r.record
    ensures r.Found? && KeyedById(rows) ==> r.record.id in rows && rows[r.record.id] == r.record
    ensures UniquePairs(rows) ==> !r.MultipleResultsFound?
  {
    var ids := PairIds(rows, base, target);
    if ids == {} then
      assert forall id :: id in rows ==> id !in ids;
      NoMatch
    else
      assert exists id :: id in ids by { SetNonEmpty(ids); }
      var id :| id in ids;
      assert forall i :: i in rows && Matches(rows[i], base, target) ==> i in ids;
      if ids == {id} then Found(rows[id])
      else
        assert exists other :: other in ids && other != id by { SetNonEmpty(ids - {id}); }
        MultipleResultsFound
  }

  /** A set that is not empty has a member. */
  lemma SetNonEmpty(s: set<int>)
    requires s != {}
    ensures exists x :: x in s
  {
    if forall x :: x !in s {
      assert false;
    }
  }

  /**
   * `update` applied to one row: a present rate replaces `rate` and stamps
   * `updated_at`; an absent one leaves the row as it was.
   */
  function WithRate(rec: CurrencyRate, rate: Option<real>, now: Time): (r: CurrencyRate)
    ensures r.id == rec.id && r.createdAt == rec.createdAt
    ensures Matches(r, rec.baseCurrency, rec.targetCurrency)
    ensures rate.None? ==> r == rec
    ensures rate.Some? ==> r.rate == rate && r.updatedAt == Some(now)
  {
    if rate.Some? then rec.(rate := rate, updatedAt := Some(now)) else rec
  }

  /** A freshly inserted row: `created_at` is the insert time, `updated_at` is unset. */
  function NewRecord(id: int, base: string, target: string, rate: Option<real>, now: Time): (r: CurrencyRate)
    ensures r.id == id && Matches(r, base, target) && r.rate == rate
    ensures r.createdAt == now && r.updatedAt == None
  {
    CurrencyRate(id, base, target, rate, now, None)
  }

  /** The table as the database holds it. */
  class RateTable {
    var rows: Rows
    var nextId: int

    ghost predicate Valid()
      reads this
    {
      WellFormed(rows, nextId)
    }

    constructor ()
      ensures Valid() && rows == map[]
    {
      rows := map[];
      nextId := 1;
    }
  }

  /**
   * `create`: inserts one row carrying the supplied base (the column default
   * when none is given), target and rate, and returns it.
   */
  method Create(table: RateTable, base: Option<string>, target: string, rate: real, now: Time)
    returns (rec: CurrencyRate)
    requires table.Valid()
    modifies table
    ensures table.Valid()
    ensures rec.id !in old(table.rows) && table.rows == old(table.rows)[rec.id := rec]
    ensures rec == NewRecord(rec.id, base.GetOr(DefaultBase), target, Some(rate), now)
    ensures GetById(table.rows, rec.id) == Some(rec)
  {
    rec := NewRecord(table.nextId, base.GetOr(DefaultBase), target, Some(rate), now);
    table.rows := table.rows[rec.id := rec];
    table.nextId := table.nextId + 1;
  }

  /** `update`: rewrites the given row by `WithRate`; no other row changes. */
  method Update(table: RateTable, id: int, rate: Option<real>, now: Time) returns (rec: CurrencyRate)
    requires table.Valid() && id in table.rows
    modifies table
    ensures table.Valid() && table.nextId == old(table.nextId)
    ensures rec == WithRate(old(table.rows)[id], rate, now)
    ensures table.rows == old(table.rows)[id := rec]
  {
    rec := WithRate(table.rows[id], rate, now);
    table.rows := table.rows[id := rec];
  }

  /** `delete`: removes exactly the given row. */
  method Delete(table: RateTable, id: int)
    requires table.Valid() && id in table.rows
    modifies table
    ensures table.Valid() && table.nextId == old(table.nextId)
    ensures table.rows == old(table.rows) - {id}
    ensures GetById(table.rows, id) == None
  {
    table.rows := table.rows - {id};
  }
}
