/**
 * Translation of a sub-range of one index domain into the corresponding
 * sub-range of a second domain (`Range.range(in:for:)`).
 */
module RangeMapping {

  import opened Options
  import opened Spans

  /**
   * Last position of `base` that still has a counterpart in `other` when
   * both are walked in lockstep from their starts.
   */
  function Reach(base: Span, other: Span): int {
    base.start + (if base.Length() <= other.Length() then base.Length() else other.Length())
  }

  /**
   * Closed form of the translation: it exists exactly when `sub` starts
   * inside `base` and ends no later than `Reach`, and then it keeps the
   * offsets of `sub` relative to `base`, shifted onto the start of `other`.
   */
  function MappedRange(base: Span, other: Span, sub: Span): Option<Span> {
    if base.start <= sub.start && sub.end <= Reach(base, other)
    then Some(Span(other.start + (sub.start - base.start), other.start + (sub.end - base.start)))
    else None
  }

  /**
   * The lockstep walk: `i` runs over `base.start...base.end` (closed), the
   * cursor `successor` over `other`; the walk stops with no result once the
   * cursor passes `other.end`, and returns as soon as both bounds of `sub`
   * have been met.
   */
  method RangeIn(base: Span, other: Span, sub: Span) returns (r: Option<Span>)
    requires base.Valid() && other.Valid() && sub.Valid()
    ensures r == MappedRange(base, other, sub)
  {
    var foundStart: Option<int> := None;
    var foundEnd: Option<int> := None;
    var successor := other.start;
    var i := base.start;
    while i <= base.end
      invariant base.start <= i <= base.end + 1
      invariant successor == other.start + (i - base.start)
      invariant i - base.start <= other.Length() + 1
      invariant foundStart == if base.start <= sub.start < i then Some(other.start + (sub.start - base.start)) else None
      invariant foundEnd == if base.start <= sub.end < i then Some(other.start + (sub.end - base.start)) else None
      invariant !(foundStart.Some? && foundEnd.Some?)
    {
      if 0 > other.end - successor {
        break;
      }
      if i == sub.start {
        foundStart := Some(successor);
      }
      if i == sub.end {
        foundEnd := Some(successor);
      }
      if foundStart.Some? && foundEnd.Some? {
        return Some(Span(foundStart.value, foundEnd.value));
      }
      successor := successor + 1;
      i := i + 1;
    }
    return None;
  }

  /** On success the translated range has the length of `sub`; empty maps to empty. */
  lemma MappedRangeKeepsLength(base: Span, other: Span, sub: Span)
    requires sub.Valid()
    ensures MappedRange(base, other, sub).Some? ==>
              MappedRange(base, other, sub).value.Valid()
              && MappedRange(base, other, sub).value.Length() == sub.Length()
              && MappedRange(base, other, sub).value.start - other.start == sub.start - base.start
  {
  }

  /** Two domains of equal cardinality: the whole of one maps onto the whole of the other. */
  lemma MappedRangeFullDomain(base: Span, other: Span)
    requires base.Valid() && base.Length() == other.Length()
    ensures MappedRange(base, other, base) == Some(other)
  {
  }

  /** A sub-range sticking out of `base`, or past the end of `other`, has no counterpart. */
  lemma MappedRangeOutside(base: Span, other: Span, sub: Span)
    requires base.Valid() && other.Valid() && sub.Valid()
    ensures (sub.start < base.start || sub.end > base.end || sub.end - base.start > other.Length())
              ==> MappedRange(base, other, sub) == None
  {
  }

  /** The expected results written beside the source's sample calls. */
  lemma MappedRangeVectors()
    ensures MappedRange(Span(0, 100), Span(0, 100), Span(1000, 1001)) == None
    ensures MappedRange(Span(0, 100), Span(-99, -60), Span(-9, 20)) == None
    ensures MappedRange(Span(0, 100), Span(-99, -60), Span(87, 90)) == None
    ensures MappedRange(Span(0, 100), Span(-99, -60), Span(23, 30)) == Some(Span(-76, -69))
    ensures MappedRange(Span(0, 0), Span(0, 0), Span(0, 0)) == Some(Span(0, 0))
    ensures MappedRange(Span(50, 1000), Span(50, 1000), Span(150, 150)) == Some(Span(150, 150))
    ensures MappedRange(Span(50, 1000), Span(50, 1000), Span(0, 0)) == None
  {
  }
}
