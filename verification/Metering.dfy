/** Token counts: what a provider reports, and what a request is estimated at. */
module Metering {
  datatype TokenUsage = TokenUsage(input: int, output: int, cacheWrite: int, cacheRead: int, reasoning: int) {
    /** Reasoning is part of output and is not added again. */
    function Total(): int {
      input + output + cacheRead + cacheWrite
    }

    predicate NonNegative() {
      input >= 0 && output >= 0 && cacheWrite >= 0 && cacheRead >= 0
    }
  }

  function NoUsage(): TokenUsage { TokenUsage(0, 0, 0, 0, 0) }
}
