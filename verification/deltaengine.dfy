/**
 * Element-wise deltas between two sequences (`deltas(from:for:)`): entry `k`
 * is `target[k] - source[k]` over the requested range of `target`'s indices.
 */
module DeltaEngine {

  import opened Options
  import opened Spans
  import opened RangeMapping

  /** Position-by-position difference of two sequences of equal length. */
  function Difference(target: seq<int>, source: seq<int>): seq<int>
    requires |target| == |source|
  {
    seq(|target|, i requires 0 <= i < |target| => target[i] - source[i])
  }

  /**
   * The deltas of `target` from `source` over `range` (the whole of
   * `target`'s indices when absent). No result when the counts differ or the
   * range cannot be translated into `source`'s indices.
   */
  function DeltasOf(target: seq<int>, source: seq<int>, range: Option<Span>): (r: Option<seq<int>>)
    requires range.Some? ==> range.value.Valid()
    ensures r.None? <==>
              |target| != |source|
              || (range.Some? && (range.value.start < 0 || range.value.end > |target|))
    ensures r.Some? ==>
              var sub := if range.Some? then range.value else Span(0, |target|);
              |r.value| == sub.Length()
              && forall k :: 0 <= k < |r.value| ==>
                   r.value[k] == target[sub.start + k] - source[sub.start + k]
  {
    if |target| != |source| then None
    else
      var whole := Span(0, |target|);
      var sub := if range.Some? then range.value else whole;
      match MappedRange(whole, Span(0, |source|), sub)
      case None => None
      case Some(fromRange) =>
        Some(seq(sub.Length(), k requires 0 <= k < sub.Length() =>
               target[sub.start + k] - source[fromRange.start + k]))
  }

  /** Over the whole domain the deltas are the position-by-position difference. */
  lemma DeltasOfWhole(target: seq<int>, source: seq<int>)
    requires |target| == |source|
    ensures DeltasOf(target, source, None) == Some(Difference(target, source))
  {
    var r := DeltasOf(target, source, None).value;
    assert |r| == |target|;
    assert forall k :: 0 <= k < |r| ==> r[k] == Difference(target, source)[k];
    assert r == Difference(target, source);
  }

  /**
   * The loop of the source: translate the range, slice both sequences and
   * append `selfElement - fromElement` while the generator over the slice of
   * `source` still yields elements.
   */
  method Deltas(target: seq<int>, source: seq<int>, range: Option<Span>) returns (out: Option<seq<int>>)
    requires range.Some? ==> range.value.Valid()
    ensures out == DeltasOf(target, source, range)
  {
    if |target| != |source| {
      return None;
    }
    var selfRange := if range.Some? then range.value else Span(0, |target|);
    var rangeInFrom := RangeIn(Span(0, |target|), Span(0, |source|), selfRange);
    if rangeInFrom.None? {
      return None;
    }
    var selfElements := target[selfRange.start..selfRange.end];
    var fromElements := source[rangeInFrom.value.start..rangeInFrom.value.end];
    var next := 0;
    var deltas: seq<int> := [];
    for k := 0 to |selfElements|
      invariant next == k
      invariant |deltas| == k
      invariant forall j :: 0 <= j < k ==> deltas[j] == selfElements[j] - fromElements[j]
    {
      if next < |fromElements| {
        deltas := deltas + [selfElements[k] - fromElements[next]];
        next := next + 1;
      }
    }
    var expected := DeltasOf(target, source, range).value;
    assert |deltas| == |expected|;
    assert forall j :: 0 <= j < |deltas| ==> deltas[j] == expected[j];
    assert deltas == expected;
    return Some(deltas);
  }

  /** The expected results written beside the source's sample calls. */
  lemma DeltasVectors()
    ensures DeltasOf([3, 12, 32, 15], [32, 152, 68, 8], None) == Some([-29, -140, -36, 7])
    ensures DeltasOf([3, 12, 32, 15], [32, 152, 68, 8], Some(Span(0, 0))) == Some([])
    ensures DeltasOf([3, 12, 32, 15], [32, 152, 68, 8], Some(Span(0, 10))) == None
    ensures DeltasOf([3, 12, 32, 15], [1], Some(Span(0, 1))) == None
  {
    var r := DeltasOf([3, 12, 32, 15], [32, 152, 68, 8], None).value;
    assert |r| == 4;
    assert r[0] == -29 && r[1] == -140 && r[2] == -36 && r[3] == 7;
    assert r == [-29, -140, -36, 7];
  }
}
