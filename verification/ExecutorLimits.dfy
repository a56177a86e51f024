/** The limits of a connection record (src/ExecutorData.h). */
module ExecutorLimits {

  const REQUEST_BUFFER_SIZE: nat := 10000
  const MAX_TIME_TO_LIVE_MILLIS: int := 1000 * 60 * 30
  const MAX_RETRY_COUNTER: int := 1000
}
