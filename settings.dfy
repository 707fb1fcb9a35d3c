/** The extension's fixed settings, in milliseconds or attempts. */
module Settings {

  /** Period of the keep-alive tick. */
  const PyngInterval: nat := 2 * 60 * 1000
  /** Inactivity after which the notebook counts as idle. */
  const IdleTimeout: nat := 30 * 60 * 1000
  /** Number of keep-alive attempts per tick. */
  const RetryAttempts: nat := 6
  /** Pause between two keep-alive attempts. */
  const RetryInterval: nat := 15 * 1000
  /** Coalescing window of the activity handler. */
  const DebounceWait: nat := 500
}
