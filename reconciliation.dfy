/**
 * `save_rates_to_db` before its commit: every item of the fetched rates dict is
 * reconciled against the rows the session sees, in dict order. New rows become
 * visible to the following lookups, as the session flushes before each query.
 */
module Reconciliation {
  import opened Wrappers
  import opened Dicts
  import opened Currency
  import opened CurrencyService

  datatype Counts = Counts(createdCount: nat, updatedCount: nat, unchangedCount: nat)

  const NoCounts: Counts := Counts(0, 0, 0)

  function Total(c: Counts): nat {
    c.createdCount + c.updatedCount + c.unchangedCount
  }

  /** The session's uncommitted state: its rows, the next id it hands out, the three counters. */
  datatype Pending = Pending(rows: Rows, nextId: int, counts: Counts)

  /**
   * One item `(target, rate)`. A self-pair is skipped; a lookup that raises
   * skips the item; a matching row takes a present, different rate (updated)
   * or is left alone (unchanged); no matching row means a new row (created).
   */
  function Step(p: Pending, base: string, item: (string, Option<real>), now: Time): (r: Pending)
    ensures WellFormed(p.rows, p.nextId) ==> WellFormed(r.rows, r.nextId)
    ensures p.rows.Keys <= r.rows.Keys && p.nextId <= r.nextId
  {
    var (target, rate) := item;
    if target == base then p
    else match GetByCurrency(p.rows, base, target)
      case MultipleResultsFound => p
      case Found(existing) =>
        if rate.Some? && existing.rate != rate then
          p.(rows := p.rows[existing.id := WithRate(existing, rate, now)],
             counts := p.counts.(updatedCount := p.counts.updatedCount + 1))
        else
          p.(counts := p.counts.(unchangedCount := p.counts.unchangedCount + 1))
      case NoMatch =>
        p.(rows := p.rows[p.nextId := NewRecord(p.nextId, base, target, rate, now)],
           nextId := p.nextId + 1,
           counts := p.counts.(createdCount := p.counts.createdCount + 1))
  }

  /** All items of `rates`, in order. Rows are never removed. */
  function Reconcile(p: Pending, base: string, rates: Dict<Option<real>>, now: Time): (r: Pending)
    ensures WellFormed(p.rows, p.nextId) ==> WellFormed(r.rows, r.nextId)
    ensures p.rows.Keys <= r.rows.Keys && p.nextId <= r.nextId
    decreases |rates|
  {
    if |rates| == 0 then p
    else Step(Reconcile(p, base, rates[..|rates| - 1], now), base, rates[|rates| - 1], now)
  }

  /** The number of items whose target differs from the base. */
  function NonSelfItems(base: string, rates: Dict<Option<real>>): nat
    decreases |rates|
  {
    if |rates| == 0 then 0
    else NonSelfItems(base, rates[..|rates| - 1]) + if rates[|rates| - 1].0 == base then 0 else 1
  }

  /** A row the reconciliation may write: base matches, target differs from it and occurs in the snapshot. */
  predicate SnapshotPair(rec: CurrencyRate, base: string, rates: Dict<Option<real>>) {
    rec.baseCurrency == base && rec.targetCurrency != base && HasKey(rates, rec.targetCurrency)
  }

  /** Some row quotes `target` against `base`, at `rate` when one is given. */
  ghost predicate HoldsQuote(rows: Rows, base: string, target: string, rate: Option<real>) {
    exists id :: id in rows && Matches(rows[id], base, target) && (rate.Some? ==> rows[id].rate == rate)
  }

  /** A step touches only rows of its own pair, and only when the target is not the base. */
  lemma StepFrame(p: Pending, base: string, item: (string, Option<real>), now: Time)
    requires WellFormed(p.rows, p.nextId)
    ensures var r := Step(p, base, item, now);
      forall id :: id in r.rows && (id !in p.rows || r.rows[id] != p.rows[id]) ==>
        item.0 != base && Matches(r.rows[id], base, item.0)
  {
  }

  /**
   * What one item does. A self-pair or a lookup that raises leaves everything
   * as it was. A matching row with a present, different rate takes that rate
   * and `updated_at = now`, every other row stays, and `updated` grows by one.
   * A matching row otherwise stays as it is and `unchanged` grows by one. With
   * no matching row a new row for the pair is added under the next id, at the
   * fetched rate, created now and never updated, and `created` grows by one.
   */
  lemma StepOutcome(p: Pending, base: string, item: (string, Option<real>), now: Time)
    requires WellFormed(p.rows, p.nextId)
    ensures var r := Step(p, base, item, now);
      var (target, rate) := item;
      var look := GetByCurrency(p.rows, base, target);
      && (target == base || look.MultipleResultsFound? ==> r == p)
      && (target != base && look.Found? && rate.Some? && look.record.rate != rate ==>
            var id := look.record.id;
            && id in p.rows && r.rows.Keys == p.rows.Keys && r.nextId == p.nextId
            && r.rows[id] == p.rows[id].(rate := rate, updatedAt := Some(now))
            && (forall other :: other in p.rows && other != id ==> r.rows[other] == p.rows[other])
            && r.counts == p.counts.(updatedCount := p.counts.updatedCount + 1))
      && (target != base && look.Found? && (rate.None? || look.record.rate == rate) ==>
            && r.rows == p.rows && r.nextId == p.nextId
            && r.counts == p.counts.(unchangedCount := p.counts.unchangedCount + 1))
      && (target != base && look.NoMatch? ==>
            && p.nextId !in p.rows && r.rows.Keys == p.rows.Keys + {p.nextId}
            && r.rows[p.nextId] == CurrencyRate(p.nextId, base, target, rate, now, None)
            && (forall other :: other in p.rows ==> r.rows[other] == p.rows[other])
            && r.nextId == p.nextId + 1
            && r.counts == p.counts.(createdCount := p.counts.createdCount + 1))
  {
  }

  /** A step never changes a stored row's id, pair or creation time. */
  lemma StepKeepsIdentity(p: Pending, base: string, item: (string, Option<real>), now: Time)
    requires WellFormed(p.rows, p.nextId)
    ensures var r := Step(p, base, item, now);
      forall id :: id in p.rows ==>
        && r.rows[id].id == p.rows[id].id
        && Matches(r.rows[id], p.rows[id].baseCurrency, p.rows[id].targetCurrency)
        && r.rows[id].createdAt == p.rows[id].createdAt
  {
  }

  /** Reconciliation never changes a stored row's id, pair or creation time. */
  lemma {:induction false} ReconcileKeepsIdentity(p: Pending, base: string, rates: Dict<Option<real>>, now: Time)
    requires WellFormed(p.rows, p.nextId)
    ensures var r := Reconcile(p, base, rates, now);
      forall id :: id in p.rows ==>
        && r.rows[id].id == p.rows[id].id
        && Matches(r.rows[id], p.rows[id].baseCurrency, p.rows[id].targetCurrency)
        && r.rows[id].createdAt == p.rows[id].createdAt
    decreases |rates|
  {
    if |rates| > 0 {
      var init := rates[..|rates| - 1];
      ReconcileKeepsIdentity(p, base, init, now);
      StepKeepsIdentity(Reconcile(p, base, init, now), base, rates[|rates| - 1], now);
    }
  }

  /**
   * A stored row whose pair is not a non-self pair of the snapshot with the
   * fetched base comes out of reconciliation exactly as it went in.
   */
  lemma {:induction false} ReconcileLeavesOtherRows(p: Pending, base: string, rates: Dict<Option<real>>, now: Time)
    requires WellFormed(p.rows, p.nextId)
    ensures var r := Reconcile(p, base, rates, now);
      forall id :: id in p.rows && !SnapshotPair(p.rows[id], base, rates) ==> r.rows[id] == p.rows[id]
    decreases |rates|
  {
    if |rates| > 0 {
      var n := |rates|;
      var init := rates[..n - 1];
      var mid := Reconcile(p, base, init, now);
      var r := Reconcile(p, base, rates, now);
      ReconcileLeavesOtherRows(p, base, init, now);
      StepFrame(mid, base, rates[n - 1], now);
      forall id | id in p.rows && !SnapshotPair(p.rows[id], base, rates)
        ensures r.rows[id] == p.rows[id]
      {
        var rec := p.rows[id];
        if HasKey(init, rec.targetCurrency) {
          var k :| 0 <= k < |init| && init[k].0 == rec.targetCurrency;
          assert rates[k].0 == rec.targetCurrency;
        }
        assert mid.rows[id] == rec;
        if rates[n - 1].0 == rec.targetCurrency {
          assert HasKey(rates, rec.targetCurrency);
        }
      }
    }
  }

  /** A step keeps one row per pair. */
  lemma StepKeepsPairsUnique(p: Pending, base: string, item: (string, Option<real>), now: Time)
    requires WellFormed(p.rows, p.nextId) && UniquePairs(p.rows)
    ensures UniquePairs(Step(p, base, item, now).rows)
  {
    var r := Step(p, base, item, now);
    StepFrame(p, base, item, now);
    forall i, j | i in r.rows && j in r.rows && i != j
      ensures !Matches(r.rows[j], r.rows[i].baseCurrency, r.rows[i].targetCurrency)
    {
    }
  }

  /**
   * Every row that reconciliation changes or adds has the fetched base and a
   * non-self key of the snapshot as its target: self-pairs are never written.
   */
  lemma {:induction false} ReconcileOnlyWritesSnapshotPairs(p: Pending, base: string, rates: Dict<Option<real>>, now: Time)
    requires WellFormed(p.rows, p.nextId)
    ensures var r := Reconcile(p, base, rates, now);
      forall id :: id in r.rows && (id !in p.rows || r.rows[id] != p.rows[id]) ==>
        SnapshotPair(r.rows[id], base, rates)
    decreases |rates|
  {
    if |rates| > 0 {
      var n := |rates|;
      var init := rates[..n - 1];
      var mid := Reconcile(p, base, init, now);
      var r := Reconcile(p, base, rates, now);
      ReconcileOnlyWritesSnapshotPairs(p, base, init, now);
      StepFrame(mid, base, rates[n - 1], now);
      forall id | id in r.rows && (id !in p.rows || r.rows[id] != p.rows[id])
        ensures SnapshotPair(r.rows[id], base, rates)
      {
        if id in mid.rows && r.rows[id] == mid.rows[id] {
          var t := r.rows[id].targetCurrency;
          var k :| 0 <= k < |init| && init[k].0 == t;
          assert rates[k].0 == t;
        } else {
          assert rates[n - 1].0 == r.rows[id].targetCurrency;
        }
      }
    }
  }

  /** With one row per pair at the start, there is still one row per pair at the end. */
  lemma {:induction false} ReconcileKeepsPairsUnique(p: Pending, base: string, rates: Dict<Option<real>>, now: Time)
    requires WellFormed(p.rows, p.nextId) && UniquePairs(p.rows)
    ensures UniquePairs(Reconcile(p, base, rates, now).rows)
    decreases |rates|
  {
    if |rates| > 0 {
      var init := rates[..|rates| - 1];
      ReconcileKeepsPairsUnique(p, base, init, now);
      StepKeepsPairsUnique(Reconcile(p, base, init, now), base, rates[|rates| - 1], now);
    }
  }

  /** After the step for `(target, rate)`, a row quotes that pair, at that rate when one was fetched. */
  lemma StepEstablishesQuote(p: Pending, base: string, item: (string, Option<real>), now: Time)
    requires WellFormed(p.rows, p.nextId) && UniquePairs(p.rows) && item.0 != base
    ensures HoldsQuote(Step(p, base, item, now).rows, base, item.0, item.1)
  {
    var r := Step(p, base, item, now);
    match GetByCurrency(p.rows, base, item.0)
    case Found(existing) =>
      assert existing.id in r.rows;
    case NoMatch =>
      assert p.nextId in r.rows;
  }

  /** A row of another pair that quotes at a rate keeps doing so after a step. */
  lemma StepKeepsOtherQuote(p: Pending, base: string, item: (string, Option<real>), now: Time,
                            target: string, rate: Option<real>)
    requires WellFormed(p.rows, p.nextId) && target != item.0
    requires HoldsQuote(p.rows, base, target, rate)
    ensures HoldsQuote(Step(p, base, item, now).rows, base, target, rate)
  {
    var id :| id in p.rows && Matches(p.rows[id], base, target) && (rate.Some? ==> p.rows[id].rate == rate);
    StepFrame(p, base, item, now);
    assert id in Step(p, base, item, now).rows;
  }

  /**
   * After reconciling a snapshot into rows that held one row per pair, every
   * non-self pair of the snapshot is held by exactly one row, whose rate is the
   * fetched one whenever a rate was fetched (a `None` rate leaves a matching
   * row's rate as it was).
   */
  lemma {:induction false} ReconcileQuotes(p: Pending, base: string, rates: Dict<Option<real>>, now: Time)
    requires WellFormed(p.rows, p.nextId) && UniquePairs(p.rows) && DistinctKeys(rates)
    ensures var r := Reconcile(p, base, rates, now);
      UniquePairs(r.rows) &&
      forall k :: 0 <= k < |rates| && rates[k].0 != base ==> HoldsQuote(r.rows, base, rates[k].0, rates[k].1)
    decreases |rates|
  {
    ReconcileKeepsPairsUnique(p, base, rates, now);
    if |rates| > 0 {
      var n := |rates|;
      var init := rates[..n - 1];
      var mid := Reconcile(p, base, init, now);
      assert DistinctKeys(init);
      ReconcileQuotes(p, base, init, now);
      forall k | 0 <= k < n && rates[k].0 != base
        ensures HoldsQuote(Reconcile(p, base, rates, now).rows, base, rates[k].0, rates[k].1)
      {
        if k == n - 1 {
          StepEstablishesQuote(mid, base, rates[k], now);
        } else {
          assert init[k] == rates[k];
          StepKeepsOtherQuote(mid, base, rates[n - 1], now, rates[k].0, rates[k].1);
        }
      }
    }
  }

  /** Where a row holds a quote and pairs are unique, the pair lookup finds that row. */
  lemma LookupFindsQuote(rows: Rows, base: string, target: string, rate: Option<real>)
    requires UniquePairs(rows) && HoldsQuote(rows, base, target, rate)
    ensures var r := GetByCurrency(rows, base, target);
      r.Found? && (rate.Some? ==> r.record.rate == rate)
  {
    var id :| id in rows && Matches(rows[id], base, target) && (rate.Some? ==> rows[id].rate == rate);
  }

  /**
   * With one row per pair at the start, every non-self item is counted exactly
   * once, and the table grows by the number of created rows, each taking the
   * next id.
   */
  lemma {:induction false} ReconcileCounts(p: Pending, base: string, rates: Dict<Option<real>>, now: Time)
    requires WellFormed(p.rows, p.nextId) && UniquePairs(p.rows)
    ensures var r := Reconcile(p, base, rates, now);
      && Total(r.counts) == Total(p.counts) + NonSelfItems(base, rates)
      && r.counts.createdCount >= p.counts.createdCount
      && |r.rows| == |p.rows| + (r.counts.createdCount - p.counts.createdCount)
      && r.nextId == p.nextId + (r.counts.createdCount - p.counts.createdCount)
    decreases |rates|
  {
    if |rates| > 0 {
      var init := rates[..|rates| - 1];
      var mid := Reconcile(p, base, init, now);
      ReconcileCounts(p, base, init, now);
      ReconcileKeepsPairsUnique(p, base, init, now);
      var item := rates[|rates| - 1];
      if item.0 != base {
        match GetByCurrency(mid.rows, base, item.0)
        case Found(existing) =>
          assert existing.id in mid.rows;
        case NoMatch =>
          assert mid.nextId !in mid.rows;
      }
    }
  }

  /**
   * When every non-self pair of the snapshot is already stored at the fetched
   * rate (or the fetched rate is `None`), nothing is written and every such
   * item counts as unchanged.
   */
  lemma {:induction false} ReconcileIdleWhenCurrent(p: Pending, base: string, rates: Dict<Option<real>>, now: Time)
    requires WellFormed(p.rows, p.nextId) && UniquePairs(p.rows)
    requires forall k :: 0 <= k < |rates| && rates[k].0 != base ==> HoldsQuote(p.rows, base, rates[k].0, rates[k].1)
    ensures var r := Reconcile(p, base, rates, now);
      && r.rows == p.rows && r.nextId == p.nextId
      && r.counts == p.counts.(unchangedCount := p.counts.unchangedCount + NonSelfItems(base, rates))
    decreases |rates|
  {
    if |rates| > 0 {
      var n := |rates|;
      var init := rates[..n - 1];
      assert forall k :: 0 <= k < |init| ==> init[k] == rates[k];
      ReconcileIdleWhenCurrent(p, base, init, now);
      var item := rates[n - 1];
      if item.0 != base {
        LookupFindsQuote(p.rows, base, item.0, item.1);
      }
    }
  }

  /**
   * The loop of `save_rates_to_db`: one lookup per item, three counters, new
   * and changed rows kept in the session until the commit.
   */
  method ReconcileInSession(rows: Rows, nextId: int, base: string, rates: Dict<Option<real>>, now: Time)
    returns (p: Pending)
    ensures p == Reconcile(Pending(rows, nextId, NoCounts), base, rates, now)
  {
    var sessionRows, next := rows, nextId;
    var createdCount, updatedCount, unchangedCount := 0, 0, 0;
    var i := 0;
    while i < |rates|
      invariant 0 <= i <= |rates|
      invariant Pending(sessionRows, next, Counts(createdCount, updatedCount, unchangedCount))
        == Reconcile(Pending(rows, nextId, NoCounts), base, rates[..i], now)
    {
      var (targetCurrency, rate) := rates[i];
      assert rates[..i + 1][..i] == rates[..i];
      if targetCurrency != base {
        var existing := GetByCurrency(sessionRows, base, targetCurrency);
        match existing {
          case MultipleResultsFound =>
            // the lookup raised: the item is skipped
          case Found(rec) =>
            if rate.Some? && rec.rate != rate {
              sessionRows := sessionRows[rec.id := WithRate(rec, rate, now)];
              updatedCount := updatedCount + 1;
            } else {
              unchangedCount := unchangedCount + 1;
            }
          case NoMatch =>
            sessionRows := sessionRows[next := NewRecord(next, base, targetCurrency, rate, now)];
            next := next + 1;
            createdCount := createdCount + 1;
        }
      }
      i := i + 1;
    }
    assert rates[..i] == rates;
    p := Pending(sessionRows, next, Counts(createdCount, updatedCount, unchangedCount));
  }
}
