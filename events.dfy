/** Messages the refresh cycle announces on the message bus and over WebSocket. */
module Events {
  import opened Currency

  /** The `background_task_completed` notice: base currency, number of fetched rates, emission time. */
  datatype Event = BackgroundTaskCompleted(baseCurrency: string, ratesCount: nat, timestamp: Time)
}
