/**
 The Kinetic observation policy, its validation bounds and its defaults.
 */
module KineticConfig {

  const MAX_SAMPLES_PER_SOURCE := 32
  const MIN_BURST_WINDOW_SECONDS := 2
  const MAX_BURST_WINDOW_SECONDS := 300
  const MIN_EVENTS := 3
  const MAX_EVENTS := MAX_SAMPLES_PER_SOURCE
  const MIN_DISTINCT_PORTS := 2
  const MAX_DISTINCT_PORTS := 16
  const MIN_AUTO_DISARM_SECONDS := 300
  const MAX_AUTO_DISARM_SECONDS := 604800
  const AUTO_DISARM_DISABLED := 0

  /** Times and durations are nanoseconds; time zero is the unset time. */
  const SECOND := 1000000000

  datatype Config = Config(burstWindowSeconds: int, minEvents: int, minDistinctPorts: int, autoDisarmSeconds: int) {
    predicate Valid() {
      && MIN_BURST_WINDOW_SECONDS <= burstWindowSeconds <= MAX_BURST_WINDOW_SECONDS
      && MIN_EVENTS <= minEvents <= MAX_EVENTS
      && MIN_DISTINCT_PORTS <= minDistinctPorts <= MAX_DISTINCT_PORTS
      && minDistinctPorts <= minEvents
      && (autoDisarmSeconds == AUTO_DISARM_DISABLED
          || MIN_AUTO_DISARM_SECONDS <= autoDisarmSeconds <= MAX_AUTO_DISARM_SECONDS)
    }

    function Window(): int {
      burstWindowSeconds * SECOND
    }

    function AutoDisarm(): int {
      autoDisarmSeconds * SECOND
    }
  }

  const DEFAULT_CONFIG := Config(10, 12, 3, AUTO_DISARM_DISABLED)
  const ZERO_CONFIG := Config(0, 0, 0, 0)
}
