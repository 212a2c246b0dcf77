/** How a call to the database or to the cache may end, as its caller sees it and as the store does. */
module StoreCalls {

  /** A database transaction: committed, rolled back, or committed with the confirmation lost. */
  datatype Commit = Committed | Aborted | ConfirmationLost

  /** A cache command: answered, or failed with or without having been executed. */
  datatype CacheOutcome = Worked | Failed(executed: bool)
}
