/**
 * Adding one delta to a sub-range of a sequence, giving a new sequence
 * (`apply(_:to:)`).
 */
module SequenceApplier {

  import opened Options
  import opened Spans

  /** `s` with `delta` added at every position of `range`; none when `range` leaves `s`. */
  function Applied(s: seq<int>, delta: int, range: Span): Option<seq<int>>
    requires range.Valid()
  {
    if range.start < 0 || range.end > |s| then None
    else Some(seq(|s|, i requires 0 <= i < |s| => if range.Contains(i) then s[i] + delta else s[i]))
  }

  /**
   * The source builds a per-position offset sequence (zeros, then `delta`
   * over the range, then zeros) and adds it to `s` element by element.
   */
  method Apply(s: seq<int>, delta: int, range: Span) returns (out: Option<seq<int>>)
    requires range.Valid()
    ensures out.None? <==> range.start < 0 || range.end > |s|
    ensures out.Some? ==>
              |out.value| == |s|
              && (forall i :: range.start <= i < range.end ==> out.value[i] == s[i] + delta)
              && (forall i :: 0 <= i < |s| && !range.Contains(i) ==> out.value[i] == s[i])
    ensures out == Applied(s, delta, range)
  {
    if range.start - 0 < 0 || range.end - |s| > 0 {
      return None;
    }
    var zero := delta - delta;
    var deltas := seq(range.start, _ => zero)
                + seq(range.end - range.start, _ => delta)
                + seq(|s| - range.end, _ => zero);
    var newNumbers: seq<int> := [];
    var next := 0;
    for i := 0 to |s|
      invariant next == i && |newNumbers| == i
      invariant forall j :: 0 <= j < i ==> newNumbers[j] == if range.Contains(j) then s[j] + delta else s[j]
    {
      newNumbers := newNumbers + [s[i] + deltas[next]];
      next := next + 1;
    }
    assert newNumbers == Applied(s, delta, range).value;
    return Some(newNumbers);
  }

  /** Applying the negated delta to the same range undoes an application. */
  lemma ApplyInverse(s: seq<int>, delta: int, range: Span)
    requires range.Valid()
    ensures Applied(s, delta, range).Some? ==>
              Applied(Applied(s, delta, range).value, -delta, range) == Some(s)
  {
    if Applied(s, delta, range).Some? {
      var t := Applied(s, delta, range).value;
      assert Applied(t, -delta, range).value == s;
    }
  }

  /** The expected results of the sample calls. */
  lemma ApplyVectors()
    ensures Applied([1, 32, 152, 44, 68, 8, 2], 50, Span(1, 4)) == Some([1, 82, 202, 94, 68, 8, 2])
    ensures Applied([1, 32, 152, 44, 68, 8, 2], 50, Span(10, 40)) == None
    ensures Applied([1, 32, 152, 44, 68, 8, 2], 50, Span(2, 8)) == None
    ensures Applied([1, 32, 152, 44, 68, 8, 2], 50, Span(2, 7)) == Some([1, 32, 202, 94, 118, 58, 52])
    ensures Applied([1, 32, 152, 44, 68, 8, 2], 50, Span(-1, 7)) == None
  {
    assert Applied([1, 32, 152, 44, 68, 8, 2], 50, Span(1, 4)).value == [1, 82, 202, 94, 68, 8, 2];
    assert Applied([1, 32, 152, 44, 68, 8, 2], 50, Span(2, 7)).value == [1, 32, 202, 94, 118, 58, 52];
  }
}
