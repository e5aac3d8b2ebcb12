/**
 * Half-open index ranges `start..<end`, the model of Swift's `Range<Int>`.
 * A Swift range always has `start <= end`; `Valid` states that invariant.
 */
module Spans {

  datatype Span = Span(start: int, end: int) {

    predicate Valid() {
      start <= end
    }

    /** Number of positions in the range (`count`). */
    function Length(): int {
      end - start
    }

    predicate Contains(p: int) {
      start <= p < end
    }
  }
}
