/** What the limiters know of their callers. */
module Arrivals {
  /** Client addresses; only their equality matters. */
  type Key = nat

  /** Each arrival is no earlier than the one before. */
  predicate ClockIsMonotone<T>(arrivals: seq<T>, at: T -> int) {
    var n := |arrivals|;
    n <= 1 || (at(arrivals[n - 2]) <= at(arrivals[n - 1]) && ClockIsMonotone(arrivals[..n - 1], at))
  }
}
