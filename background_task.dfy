/**
 * The refresh cycle: fetch a snapshot, reconcile it into the table in one
 * transaction, then announce the completed refresh on the message bus and to
 * every WebSocket subscriber.
 */
module BackgroundTasks {
  import opened Wrappers
  import opened Dicts
  import opened Currency
  import opened CurrencyService
  import opened Events
  import opened WsManager
  import opened RateSources
  import opened Reconciliation

  datatype SaveResult = Saved(counts: Counts) | CommitFailed

  /** What one cycle takes from outside: the HTTP replies, whether the commit succeeds, which sends fail, the clock. */
  datatype CycleInput = CycleInput(replies: Replies, commitSucceeds: bool, failing: set<Handle>, now: Time)

  /** `published` is the notice handed to the bus publish, which is attempted once and whose failure is swallowed. */
  datatype Outcome =
    | Skipped
    | SaveFailed
    | Announced(counts: Counts, published: Event, sends: seq<Delivery<Event>>)

  datatype CycleReport = CycleReport(fetched: Fetched, outcome: Outcome)

  /** `if base_currency and rates`: a non-empty base code and a non-empty rates dict. */
  predicate Announceable(f: Fetched) {
    f.base.Some? && f.base.value != "" && |f.rates| > 0
  }

  /** The table after reconciling `rates` into it. */
  function Reconciled(rows: Rows, nextId: int, base: string, rates: Dict<Option<real>>, now: Time): Pending {
    Reconcile(Pending(rows, nextId, NoCounts), base, rates, now)
  }

  /** What the cycles change: the table's rows, the next id it assigns, and the WebSocket registry. */
  datatype World = World(rows: Rows, nextId: int, connections: seq<Handle>)

  /**
   * The effect of one `run_task` cycle: only an announceable snapshot whose
   * commit succeeds changes anything; it installs the reconciled rows and
   * leaves the registry with the handles whose send succeeded.
   */
  function AfterCycle(w: World, apiType: string, input: CycleInput): World {
    var f := Dispatch(apiType, input.replies);
    if Announceable(f) && input.commitSucceeds then
      var p := Reconciled(w.rows, w.nextId, f.base.value, f.rates, input.now);
      World(p.rows, p.nextId, Survivors(w.connections, input.failing))
    else w
  }

  /**
   * The report of one `run_task` cycle in world `w`: a snapshot without a base
   * or rates is skipped, a failed commit is reported, and otherwise the
   * reconciled counts are kept and the completion notice is published and sent
   * to every registered handle in list order.
   */
  function CycleOutcome(w: World, apiType: string, input: CycleInput): CycleReport {
    var f := Dispatch(apiType, input.replies);
    if !Announceable(f) then CycleReport(f, Skipped)
    else if !input.commitSucceeds then CycleReport(f, SaveFailed)
    else
      var base, rates := f.base.value, f.rates;
      var notice := BackgroundTaskCompleted(base, |rates|, input.now);
      var sends := seq(|w.connections|, k requires 0 <= k < |w.connections| => Delivery(w.connections[k], notice));
      CycleReport(f, Announced(Reconciled(w.rows, w.nextId, base, rates, input.now).counts, notice, sends))
  }

  /**
   * What a cycle does. A skipped cycle or a failed save writes nothing and
   * sends nothing. An announced cycle installs the reconciled rows, publishes
   * the completion notice for the whole snapshot, sends it once to every
   * registered handle in list order, and leaves exactly the handles whose send
   * succeeded. No row is ever removed, and one row per pair stays one row per pair.
   */
  lemma CycleEffect(w: World, apiType: string, input: CycleInput)
    requires WellFormed(w.rows, w.nextId)
    ensures var r, after := CycleOutcome(w, apiType, input), AfterCycle(w, apiType, input);
      && r.fetched == Dispatch(apiType, input.replies)
      && (r.outcome.Skipped? <==> !Announceable(r.fetched))
      && (r.outcome.SaveFailed? <==> Announceable(r.fetched) && !input.commitSucceeds)
      && (!r.outcome.Announced? ==> after == w)
      && (r.outcome.Announced? ==>
            var base, rates := r.fetched.base.value, r.fetched.rates;
            var p := Reconciled(w.rows, w.nextId, base, rates, input.now);
            && after.rows == p.rows && after.nextId == p.nextId && r.outcome.counts == p.counts
            && r.outcome.published == BackgroundTaskCompleted(base, |rates|, input.now)
            && |r.outcome.sends| == |w.connections|
            && (forall k :: 0 <= k < |r.outcome.sends| ==>
                  r.outcome.sends[k] == Delivery(w.connections[k], r.outcome.published))
            && after.connections == Survivors(w.connections, input.failing))
      && WellFormed(after.rows, after.nextId) && w.rows.Keys <= after.rows.Keys
      && (UniquePairs(w.rows) ==> UniquePairs(after.rows))
  {
    var f := Dispatch(apiType, input.replies);
    if Announceable(f) && input.commitSucceeds && UniquePairs(w.rows) {
      ReconcileKeepsPairsUnique(Pending(w.rows, w.nextId, NoCounts), f.base.value, f.rates, input.now);
    }
  }

  /** One cycle as a step of a run: the world it leaves and its report. */
  function CycleStep(apiType: string): (World, CycleInput) -> (World, CycleReport) {
    (w: World, input: CycleInput) => (AfterCycle(w, apiType, input), CycleOutcome(w, apiType, input))
  }

  /** Applies `step` to the inputs in order: the final state and one report per input. */
  function Fold<S, I, R>(s: S, step: (S, I) -> (S, R), inputs: seq<I>): (S, seq<R>)
    decreases |inputs|
  {
    if |inputs| == 0 then (s, [])
    else
      var (mid, reports) := Fold(s, step, inputs[..|inputs| - 1]);
      var (next, report) := step(mid, inputs[|inputs| - 1]);
      (next, reports + [report])
  }

  /** A fold reports once per input. */
  lemma {:induction false} FoldLength<S, I, R>(s: S, step: (S, I) -> (S, R), inputs: seq<I>)
    ensures |Fold(s, step, inputs).1| == |inputs|
    decreases |inputs|
  {
    if |inputs| > 0 {
      FoldLength(s, step, inputs[..|inputs| - 1]);
    }
  }

  /** The report for input `k` is the step's report in the state the inputs before it left. */
  lemma {:induction false} FoldReportAt<S, I, R>(s: S, step: (S, I) -> (S, R), inputs: seq<I>, k: nat)
    requires k < |inputs|
    ensures |Fold(s, step, inputs).1| == |inputs|
    ensures Fold(s, step, inputs).1[k] == step(Fold(s, step, inputs[..k]).0, inputs[k]).1
    decreases |inputs|
  {
    var n := |inputs|;
    var init := inputs[..n - 1];
    FoldLength(s, step, init);
    FoldLength(s, step, inputs);
    if k < n - 1 {
      FoldReportAt(s, step, init, k);
      assert init[..k] == inputs[..k];
    } else {
      assert inputs[..k] == init;
    }
  }

  /** The effect of running the cycles one after another. */
  function AfterCycles(w: World, apiType: string, cycles: seq<CycleInput>): World {
    Fold(w, CycleStep(apiType), cycles).0
  }

  /**
   * `save_rates_to_db`: reconcile in a fresh session and commit once. A failed
   * commit is rolled back, so the table is as it was, and the failure is
   * reported to the caller.
   */
  method SaveRatesToDb(table: RateTable, base: string, rates: Dict<Option<real>>, now: Time, commitSucceeds: bool)
    returns (result: SaveResult)
    requires table.Valid()
    modifies table
    ensures table.Valid()
    ensures var p := Reconciled(old(table.rows), old(table.nextId), base, rates, now);
      if commitSucceeds then result == Saved(p.counts) && table.rows == p.rows && table.nextId == p.nextId
      else result == CommitFailed && table.rows == old(table.rows) && table.nextId == old(table.nextId)
  {
    var p := ReconcileInSession(table.rows, table.nextId, base, rates, now);
    if commitSucceeds {
      table.rows, table.nextId := p.rows, p.nextId;
      result := Saved(p.counts);
    } else {
      result := CommitFailed;
    }
  }

  class BackgroundTask {
    var isRunning: bool
    /** The configured source: "crypto", "mock", or anything else for fiat. */
    const apiType: string

    constructor (apiType: string)
      ensures !isRunning && this.apiType == apiType
    {
      this.apiType := apiType;
      isRunning := false;
    }

    /**
     * `run_task`: a snapshot with a base and rates is saved and then announced;
     * any other snapshot, or a failed save, writes nothing and announces nothing.
     */
    method RunTask(table: RateTable, ws: ConnectionManager, input: CycleInput) returns (report: CycleReport)
      requires table.Valid()
      modifies table, ws
      ensures table.Valid()
      ensures report.fetched == Dispatch(apiType, input.replies)
      ensures report.outcome.Skipped? <==> !Announceable(report.fetched)
      ensures report.outcome.SaveFailed? <==> Announceable(report.fetched) && !input.commitSucceeds
      ensures report == CycleOutcome(World(old(table.rows), old(table.nextId), old(ws.activeConnections)), apiType, input)
      ensures World(table.rows, table.nextId, ws.activeConnections)
        == AfterCycle(World(old(table.rows), old(table.nextId), old(ws.activeConnections)), apiType, input)
      ensures old(table.rows).Keys <= table.rows.Keys
      ensures UniquePairs(old(table.rows)) ==> UniquePairs(table.rows)
    {
      ghost var w := World(table.rows, table.nextId, ws.activeConnections);
      var fetched := FetchExchangeRates(apiType, input.replies);
      if !Announceable(fetched) {
        return CycleReport(fetched, Skipped);
      }
      var base, rates := fetched.base.value, fetched.rates;
      if UniquePairs(table.rows) {
        ReconcileKeepsPairsUnique(Pending(table.rows, table.nextId, NoCounts), base, rates, input.now);
      }
      var saved := SaveRatesToDb(table, base, rates, input.now, input.commitSucceeds);
      if saved.CommitFailed? {
        return CycleReport(fetched, SaveFailed);
      }
      var notice := BackgroundTaskCompleted(base, |rates|, input.now);
      var sends := ws.Broadcast(notice, input.failing);
      assert sends == seq(|w.connections|, k requires 0 <= k < |w.connections| => Delivery(w.connections[k], notice));
      report := CycleReport(fetched, Announced(saved.counts, notice, sends));
    }

    /**
     * `start_periodic`: marks the task running and runs one cycle per interval
     * while it stays running; here, one cycle per supplied input. Across the
     * cycles no row is ever removed and one row per pair is kept.
     */
    method StartPeriodic(table: RateTable, ws: ConnectionManager, cycles: seq<CycleInput>)
      returns (reports: seq<CycleReport>)
      requires table.Valid()
      modifies this, table, ws
      ensures isRunning && table.Valid()
      ensures |reports| == |cycles|
      ensures forall k :: 0 <= k < |cycles| ==> reports[k].fetched == Dispatch(apiType, cycles[k].replies)
      ensures forall k :: 0 <= k < |cycles| ==>
        && (reports[k].outcome.Skipped? <==> !Announceable(reports[k].fetched))
        && (reports[k].outcome.SaveFailed? <==> Announceable(reports[k].fetched) && !cycles[k].commitSucceeds)
      ensures forall k :: 0 <= k < |cycles| ==>
        reports[k] == CycleOutcome(AfterCycles(World(old(table.rows), old(table.nextId), old(ws.activeConnections)),
                                               apiType, cycles[..k]), apiType, cycles[k])
      ensures World(table.rows, table.nextId, ws.activeConnections)
        == AfterCycles(World(old(table.rows), old(table.nextId), old(ws.activeConnections)), apiType, cycles)
      ensures old(table.rows).Keys <= table.rows.Keys
      ensures UniquePairs(old(table.rows)) ==> UniquePairs(table.rows)
    {
      ghost var start := World(table.rows, table.nextId, ws.activeConnections);
      isRunning := true;
      reports := [];
      var i := 0;
      while i < |cycles| && isRunning
        invariant 0 <= i <= |cycles|
        invariant isRunning && table.Valid()
        invariant (World(table.rows, table.nextId, ws.activeConnections), reports)
          == Fold(start, CycleStep(apiType), cycles[..i])
        invariant old(table.rows).Keys <= table.rows.Keys
        invariant UniquePairs(old(table.rows)) ==> UniquePairs(table.rows)
      {
        ghost var before := World(table.rows, table.nextId, ws.activeConnections);
        assert cycles[..i + 1][..i] == cycles[..i];
        var report := RunTask(table, ws, cycles[i]);
        reports := reports + [report];
        i := i + 1;
      }
      assert cycles[..i] == cycles;
      FoldLength(start, CycleStep(apiType), cycles);
      forall k | 0 <= k < |cycles|
        ensures reports[k] == CycleOutcome(AfterCycles(start, apiType, cycles[..k]), apiType, cycles[k])
      {
        FoldReportAt(start, CycleStep(apiType), cycles, k);
      }
      forall k | 0 <= k < |cycles|
        ensures reports[k].fetched == Dispatch(apiType, cycles[k].replies)
        ensures reports[k].outcome.Skipped? <==> !Announceable(reports[k].fetched)
        ensures reports[k].outcome.SaveFailed? <==> Announceable(reports[k].fetched) && !cycles[k].commitSucceeds
      {
      }
    }

    /** `stop`: clears the running flag, which the periodic loop checks before each cycle. */
    method Stop()
      modifies this
      ensures !isRunning
    {
      isRunning := false;
    }
  }
}
