/** Build-time tuning of the flasher. */
module Config {
  /** Start bytes sent before the handshake gives up. */
  const AckTimeoutCount: nat := 5000
  /** Bytes per Read Memory request issued by a dump. */
  const PageSize: nat := 128
  /** A progress mark is logged after every RefreshRate-th chunk. */
  const RefreshRate: nat := 10
  /** Failed reads of one chunk that are reported as a retrain. */
  const NRetry: nat := 3
}
