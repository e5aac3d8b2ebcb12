/**
 * Segmentation of a delta sequence into maximal runs of same-signed non-zero
 * deltas, each tagged with its delta closest to zero
 * (`nonZeroMaxDeltaRangesAndDeltas(from:)`).
 */
module Segmentation {

  import opened Options
  import opened Spans
  import opened Comparison
  import opened DeltaEngine

  /** One entry of the result: a range of positions and its representative delta. */
  datatype Run = Run(span: Span, delta: int)

  function Sign(x: int): int {
    if x > 0 then 1 else if x < 0 then -1 else 0
  }

  function Abs(x: int): int {
    if x < 0 then -x else x
  }

  /**
   * How the representative of an open run absorbs the next delta: the
   * policy `min` for a positive delta, the policy `max` otherwise.
   */
  function Closer(extremal: int, delta: int): int {
    if IsGreater(delta, 0) then Min(extremal, delta) else Max(extremal, delta)
  }

  /** The representative of a run, folded from left to right with `Closer`. */
  function Extremal(s: seq<int>): int
    requires |s| > 0
  {
    if |s| == 1 then s[0] else Closer(Extremal(s[..|s| - 1]), s[|s| - 1])
  }

  /** First position at or after `j` whose delta does not have sign `sign`. */
  function RunEnd(d: seq<int>, sign: int, j: nat): (e: nat)
    requires j <= |d|
    ensures j <= e <= |d|
    decreases |d| - j
  {
    if j == |d| || Sign(d[j]) != sign then j else RunEnd(d, sign, j + 1)
  }

  /** Reference definition of the runs of `d` that start at or after `i`. */
  function RunsFrom(d: seq<int>, i: nat): seq<Run>
    requires i <= |d|
    decreases |d| - i
  {
    if i == |d| then []
    else if d[i] == 0 then RunsFrom(d, i + 1)
    else
      var e := RunEnd(d, Sign(d[i]), i + 1);
      [Run(Span(i, e), Extremal(d[i..e]))] + RunsFrom(d, e)
  }

  function Segments(d: seq<int>): seq<Run> {
    RunsFrom(d, 0)
  }

  /** The runs of `target` from `source`; no result exactly when the deltas have none. */
  function SegmentsOf(target: seq<int>, source: seq<int>): Option<seq<Run>> {
    match DeltasOf(target, source, None)
    case None => None
    case Some(d) => Some(Segments(d))
  }

  // ---------------------------------------------------------------------
  // What a correct segmentation is

  /** `x` is a member of `s` and no member of `s` is closer to zero. */
  ghost predicate ClosestToZero(s: seq<int>, x: int) {
    x in s && forall y :: y in s ==> Abs(x) <= Abs(y)
  }

  /**
   * A run is non-empty and inside `d`, all its deltas share the non-zero sign
   * of its representative, it cannot be extended on either side, and its
   * representative is its delta closest to zero.
   */
  ghost predicate RunOk(d: seq<int>, run: Run) {
    0 <= run.span.start < run.span.end <= |d|
    && Sign(run.delta) != 0
    && (forall p :: run.span.start <= p < run.span.end ==> Sign(d[p]) == Sign(run.delta))
    && (run.span.start == 0 || Sign(d[run.span.start - 1]) != Sign(run.delta))
    && (run.span.end == |d| || Sign(d[run.span.end]) != Sign(run.delta))
    && ClosestToZero(d[run.span.start..run.span.end], run.delta)
  }

  /** Runs appear in increasing order of position and do not overlap. */
  ghost predicate Ordered(runs: seq<Run>) {
    forall j, k :: 0 <= j < k < |runs| ==> runs[j].span.end <= runs[k].span.start
  }

  /** Some run contains position `p`. */
  ghost predicate Covered(runs: seq<Run>, p: int)
    decreases |runs|
  {
    |runs| > 0 && (runs[0].span.Contains(p) || Covered(runs[1..], p))
  }

  /** `runs` is a maximal partition of the non-zero positions of `d`. */
  ghost predicate IsSegmentation(d: seq<int>, runs: seq<Run>) {
    (forall k :: 0 <= k < |runs| ==> RunOk(d, runs[k]))
    && Ordered(runs)
    && (forall p :: 0 <= p < |d| ==> (Covered(runs, p) <==> d[p] != 0))
  }

  // ---------------------------------------------------------------------
  // Proofs about the reference definition

  lemma {:induction false} CoveredAt(runs: seq<Run>, p: int)
    ensures Covered(runs, p) <==> exists k :: 0 <= k < |runs| && runs[k].span.Contains(p)
    decreases |runs|
  {
    if |runs| > 0 {
      CoveredAt(runs[1..], p);
      if Covered(runs[1..], p) {
        var k :| 0 <= k < |runs[1..]| && runs[1..][k].span.Contains(p);
        assert runs[k + 1].span.Contains(p);
      }
      if exists k :: 0 <= k < |runs| && runs[k].span.Contains(p) {
        var k :| 0 <= k < |runs| && runs[k].span.Contains(p);
        if k > 0 {
          assert runs[1..][k - 1].span.Contains(p);
        }
      }
    }
  }

  /** The left-to-right fold keeps the representative a closest-to-zero member. */
  lemma {:induction false} ExtremalClosest(s: seq<int>)
    requires |s| > 0
    requires Sign(s[0]) != 0
    requires forall p :: 0 <= p < |s| ==> Sign(s[p]) == Sign(s[0])
    ensures ClosestToZero(s, Extremal(s))
    ensures Sign(Extremal(s)) == Sign(s[0])
    decreases |s|
  {
    if |s| > 1 {
      var init := s[..|s| - 1];
      var last := s[|s| - 1];
      ExtremalClosest(init);
      assert s == init + [last];
      assert Sign(last) == Sign(s[0]);
      forall y | y in s
        ensures Abs(Extremal(s)) <= Abs(y)
      {
        if y in init {
        } else {
          assert y == last;
        }
      }
    }
  }

  lemma {:induction false} RunEndFacts(d: seq<int>, sign: int, j: nat)
    requires j <= |d|
    ensures forall p :: j <= p < RunEnd(d, sign, j) ==> Sign(d[p]) == sign
    ensures RunEnd(d, sign, j) == |d| || Sign(d[RunEnd(d, sign, j)]) != sign
    decreases |d| - j
  {
    if j < |d| && Sign(d[j]) == sign {
      RunEndFacts(d, sign, j + 1);
    }
  }

  lemma {:induction false} NotCoveredBefore(runs: seq<Run>, p: int)
    requires forall k :: 0 <= k < |runs| ==> p < runs[k].span.start
    ensures !Covered(runs, p)
    decreases |runs|
  {
    if |runs| > 0 {
      NotCoveredBefore(runs[1..], p);
    }
  }

  /** The run the reference definition opens at a non-zero position `i`. */
  lemma HeadRunOk(d: seq<int>, i: nat)
    requires i < |d| && d[i] != 0
    requires i == 0 || Sign(d[i - 1]) != Sign(d[i])
    ensures var e := RunEnd(d, Sign(d[i]), i + 1);
              RunOk(d, Run(Span(i, e), Extremal(d[i..e])))
  {
    var sign := Sign(d[i]);
    var e := RunEnd(d, sign, i + 1);
    RunEndFacts(d, sign, i + 1);
    var s := d[i..e];
    assert forall p :: 0 <= p < |s| ==> s[p] == d[i + p];
    ExtremalClosest(s);
  }

  lemma {:induction false} RunsFromRunsOk(d: seq<int>, i: nat)
    requires i <= |d|
    requires i == 0 || i == |d| || d[i] == 0 || Sign(d[i - 1]) != Sign(d[i])
    ensures forall k :: 0 <= k < |RunsFrom(d, i)| ==>
              RunOk(d, RunsFrom(d, i)[k]) && i <= RunsFrom(d, i)[k].span.start
    decreases |d| - i
  {
    if i == |d| {
    } else if d[i] == 0 {
      RunsFromRunsOk(d, i + 1);
    } else {
      var e := RunEnd(d, Sign(d[i]), i + 1);
      RunEndFacts(d, Sign(d[i]), i + 1);
      HeadRunOk(d, i);
      RunsFromRunsOk(d, e);
    }
  }

  lemma {:induction false} RunsFromOrdered(d: seq<int>, i: nat)
    requires i <= |d|
    ensures forall k :: 0 <= k < |RunsFrom(d, i)| ==>
              i <= RunsFrom(d, i)[k].span.start < RunsFrom(d, i)[k].span.end
    ensures Ordered(RunsFrom(d, i))
    decreases |d| - i
  {
    if i == |d| {
    } else if d[i] == 0 {
      RunsFromOrdered(d, i + 1);
    } else {
      var e := RunEnd(d, Sign(d[i]), i + 1);
      RunsFromOrdered(d, e);
    }
  }

  lemma {:induction false} RunsFromCovers(d: seq<int>, i: nat)
    requires i <= |d|
    ensures forall p :: i <= p < |d| ==> (Covered(RunsFrom(d, i), p) <==> d[p] != 0)
    decreases |d| - i
  {
    if i == |d| {
    } else if d[i] == 0 {
      RunsFromCovers(d, i + 1);
      RunsFromOrdered(d, i + 1);
      NotCoveredBefore(RunsFrom(d, i + 1), i);
    } else {
      var e := RunEnd(d, Sign(d[i]), i + 1);
      RunEndFacts(d, Sign(d[i]), i + 1);
      RunsFromCovers(d, e);
      var run := Run(Span(i, e), Extremal(d[i..e]));
      var rest := RunsFrom(d, e);
      assert RunsFrom(d, i) == [run] + rest;
      assert ([run] + rest)[1..] == rest;
      forall p | i <= p < |d|
        ensures Covered(RunsFrom(d, i), p) <==> d[p] != 0
      {
        if p >= e {
          assert Covered(RunsFrom(d, i), p) == Covered(rest, p);
        }
      }
    }
  }

  /** The reference definition is a maximal partition of the non-zero deltas. */
  lemma SegmentsCorrect(d: seq<int>)
    ensures IsSegmentation(d, Segments(d))
  {
    RunsFromRunsOk(d, 0);
    RunsFromOrdered(d, 0);
    RunsFromCovers(d, 0);
  }

  /** No runs exactly when every delta is zero. */
  lemma SegmentsEmptyIffAllZero(d: seq<int>)
    ensures Segments(d) == [] <==> forall p :: 0 <= p < |d| ==> d[p] == 0
  {
    SegmentsCorrect(d);
    var runs := Segments(d);
    if runs != [] {
      assert RunOk(d, runs[0]);
      assert d[runs[0].span.start] != 0;
    }
  }

  lemma GapIsZero(d: seq<int>, runs: seq<Run>, k: int, p: int)
    requires IsSegmentation(d, runs)
    requires 0 < k < |runs| && 0 <= p < |d|
    requires runs[k - 1].span.end <= p < runs[k].span.start
    ensures d[p] == 0
  {
    forall j | 0 <= j < |runs|
      ensures !runs[j].span.Contains(p)
    {
      if j < k - 1 {
        assert runs[j].span.end <= runs[k - 1].span.start;
      } else if j > k {
        assert runs[k].span.end <= runs[j].span.start;
      }
    }
    CoveredAt(runs, p);
  }

  /**
   * Maximality: two runs that touch have opposite signs, and the positions
   * between two runs that do not touch are all zero.
   */
  lemma SegmentsMaximal(d: seq<int>)
    ensures var runs := Segments(d);
      forall k :: 0 < k < |runs| ==>
        (runs[k - 1].span.end == runs[k].span.start ==> Sign(runs[k - 1].delta) == -Sign(runs[k].delta))
        && (forall p :: 0 <= p < |d| && runs[k - 1].span.end <= p < runs[k].span.start ==> d[p] == 0)
  {
    SegmentsCorrect(d);
    var runs := Segments(d);
    forall k | 0 < k < |runs|
      ensures runs[k - 1].span.end == runs[k].span.start ==> Sign(runs[k - 1].delta) == -Sign(runs[k].delta)
      ensures forall p :: 0 <= p < |d| && runs[k - 1].span.end <= p < runs[k].span.start ==> d[p] == 0
    {
      assert RunOk(d, runs[k - 1]) && RunOk(d, runs[k]);
      forall p | 0 <= p < |d| && runs[k - 1].span.end <= p < runs[k].span.start {
        GapIsZero(d, runs, k, p);
      }
    }
  }

  /** `min` for positive runs and `max` for negative ones pick the delta closest to zero. */
  lemma RepresentativeClosestToZero(d: seq<int>, run: Run)
    requires run in Segments(d)
    ensures 0 <= run.span.start < run.span.end <= |d|
    ensures run.delta != 0
    ensures run.delta in d[run.span.start..run.span.end]
    ensures forall p :: run.span.start <= p < run.span.end ==>
              Sign(d[p]) == Sign(run.delta) && Abs(run.delta) <= Abs(d[p])
  {
    SegmentsCorrect(d);
    var s := d[run.span.start..run.span.end];
    forall p | run.span.start <= p < run.span.end
      ensures Abs(run.delta) <= Abs(d[p])
    {
      assert d[p] == s[p - run.span.start];
    }
  }

  /** Only mismatching counts make the segmentation fail; otherwise it is a maximal partition. */
  lemma SegmentsOfCorrect(target: seq<int>, source: seq<int>)
    ensures SegmentsOf(target, source).None? <==> |target| != |source|
    ensures SegmentsOf(target, source).Some? ==>
              IsSegmentation(Difference(target, source), SegmentsOf(target, source).value)
  {
    if |target| == |source| {
      DeltasOfWhole(target, source);
      SegmentsCorrect(Difference(target, source));
    }
  }

  /** A non-zero `a` times a non-zero `b` is negative exactly when their signs differ. */
  lemma ProductSign(a: int, b: int)
    requires a != 0 && b != 0
    ensures a * b < 0 <==> Sign(a) != Sign(b)
  {
    if a > 0 && b > 0 {
      assert a * b > 0;
    } else if a < 0 && b < 0 {
      assert a * b == (-a) * (-b);
    } else if a > 0 {
      assert a * b == -(a * (-b));
    } else {
      assert a * b == -((-a) * b);
    }
  }

  // ---------------------------------------------------------------------
  // Steps of the scan, stated on the reference definition

  /** A zero delta belongs to no run. */
  lemma SkipZero(d: seq<int>, i: nat)
    requires i < |d| && d[i] == 0
    ensures RunsFrom(d, i) == RunsFrom(d, i + 1)
  {
  }

  /** Leading zero deltas belong to no run. */
  lemma {:induction false} LeadingZeros(d: seq<int>, i: nat)
    requires i <= |d|
    requires forall p :: 0 <= p < i ==> d[p] == 0
    ensures Segments(d) == RunsFrom(d, i)
  {
    if i > 0 {
      LeadingZeros(d, i - 1);
      SkipZero(d, i - 1);
    }
  }

  /**
   * Scan state with no run open before position `i`: the runs emitted so far
   * followed by the reference runs from `i` on are the segmentation.
   */
  ghost predicate ClosedAt(d: seq<int>, i: nat, results: seq<Run>) {
    i <= |d| && results + RunsFrom(d, i) == Segments(d)
  }

  /**
   * Scan state with a run open at `h` before position `i`: the positions
   * `h..<i` share a non-zero sign, `rep` is their representative (of that
   * sign), and the run
   * that starts at `h` is the next one of the reference definition.
   */
  ghost predicate OpenAt(d: seq<int>, h: nat, rep: int, i: nat, results: seq<Run>) {
    h < i <= |d| && Sign(d[h]) != 0
    && (forall p :: h <= p < i ==> Sign(d[p]) == Sign(d[h]))
    && rep == Extremal(d[h..i]) && Sign(rep) == Sign(d[h])
    && var e := RunEnd(d, Sign(d[h]), i);
       results + [Run(Span(h, e), Extremal(d[h..e]))] + RunsFrom(d, e) == Segments(d)
  }

  /** A non-zero delta with no run open starts the next run of the reference definition. */
  lemma OpenRun(d: seq<int>, i: nat, results: seq<Run>)
    requires i < |d| && d[i] != 0
    requires ClosedAt(d, i, results)
    ensures OpenAt(d, i, d[i], i + 1, results)
  {
    var e := RunEnd(d, Sign(d[i]), i + 1);
    assert RunsFrom(d, i) == [Run(Span(i, e), Extremal(d[i..e]))] + RunsFrom(d, e);
    assert d[i..i + 1] == [d[i]];
  }

  /** A delta of the open run's sign extends it and updates its representative with `Closer`. */
  lemma ExtendOpenRun(d: seq<int>, h: nat, rep: int, i: nat, results: seq<Run>)
    requires OpenAt(d, h, rep, i, results)
    requires i < |d| && Sign(d[i]) == Sign(d[h])
    ensures OpenAt(d, h, Closer(rep, d[i]), i + 1, results)
  {
    assert d[h..i + 1][..i - h] == d[h..i];
    assert RunEnd(d, Sign(d[h]), i) == RunEnd(d, Sign(d[h]), i + 1);
  }

  /** A zero, a sign flip or the end index closes the open run, which is then emitted. */
  lemma CloseRun(d: seq<int>, h: nat, rep: int, i: nat, results: seq<Run>)
    requires OpenAt(d, h, rep, i, results)
    requires i == |d| || Sign(d[i]) != Sign(d[h])
    ensures ClosedAt(d, i, results + [Run(Span(h, i), rep)])
  {
    assert RunEnd(d, Sign(d[h]), i) == i;
  }

  /** A closed state at the end index has emitted the whole segmentation. */
  lemma ClosedAtEnd(d: seq<int>, results: seq<Run>)
    requires ClosedAt(d, |d|, results)
    ensures results == Segments(d)
  {
    assert results + [] == results;
  }

  // ---------------------------------------------------------------------
  // The scan

  /**
   * The single left-to-right scan with a sentinel step at the end index.
   * `head` is the start of the open run and `deltaForRange` its
   * representative. Contents.swift:215 tests `isEqual(to: zero)` for the
   * branch that extends a run; the documented behaviour (and every expected
   * output in the file) needs that test negated, which is what this scan
   * does: a non-zero delta extends or opens a run, a zero closes it, and a
   * sign flip closes it and opens a new one at the same position. The code
   * as written is `ScanAsWritten` below.
   */
  method NonZeroMaxDeltaRangesAndDeltas(target: seq<int>, source: seq<int>) returns (out: Option<seq<Run>>)
    ensures out == SegmentsOf(target, source)
  {
    var ds := Deltas(target, source, None);
    if ds.None? {
      return None;
    }
    if |ds.value| == 0 {
      return Some([]);
    }
    var results := ScanRuns(ds.value);
    return Some(results);
  }

  /** The loop of the scan over the positions `0...n` of a non-empty delta sequence. */
  method ScanRuns(deltas: seq<int>) returns (results: seq<Run>)
    requires |deltas| > 0
    ensures results == Segments(deltas)
  {
    results := [];
    var zero := deltas[0] - deltas[0];
    var n := |deltas|;
    var head: Option<nat> := None;
    var deltaForRange: Option<int> := None;
    var i := 0;
    while i <= n
      invariant 0 <= i <= n + 1 && |deltas| == n
      invariant head.Some? <==> deltaForRange.Some?
      invariant i == n + 1 ==> head.None? && results == Segments(deltas)
      invariant i <= n && head.None? ==> ClosedAt(deltas, i, results)
      invariant head.Some? ==> OpenAt(deltas, head.value, deltaForRange.value, i, results)
    {
      var tail := i;
      var newPieceReady := false;
      var delta: Option<int> := if i < n then Some(deltas[i]) else None;
      if i == n && head.Some? {
        newPieceReady := true;
        CloseRun(deltas, head.value, deltaForRange.value, i, results);
      }
      if i != n {
        var deltaAtPosition := deltas[i];
        if !IsEqual(deltaAtPosition, zero) {
          if head.Some? && deltaForRange.Some? {
            ProductSign(deltaForRange.value, deltaAtPosition);
            if IsLess(deltaForRange.value * deltaAtPosition, zero) {
              newPieceReady := true;
              CloseRun(deltas, head.value, deltaForRange.value, i, results);
            } else {
              ExtendOpenRun(deltas, head.value, deltaForRange.value, i, results);
            }
          } else {
            head := Some(i);
            OpenRun(deltas, i, results);
          }
          if !newPieceReady {
            deltaForRange :=
              if deltaForRange.None? then Some(deltaAtPosition)
              else if IsGreater(deltaAtPosition, zero) then Some(Min(deltaForRange.value, deltaAtPosition))
              else Some(Max(deltaForRange.value, deltaAtPosition));
          }
        } else {
          newPieceReady := true;
          if head.Some? {
            CloseRun(deltas, head.value, deltaForRange.value, i, results);
          }
        }
      }
      if newPieceReady {
        if head.Some? && deltaForRange.Some? {
          results := results + [Run(Span(head.value, tail), deltaForRange.value)];
        }
        head := None;
        deltaForRange := None;
        if delta.Some? && !IsEqual(delta.value, zero) {
          head := Some(i);
          deltaForRange := delta;
          OpenRun(deltas, i, results);
        } else if i < n {
          SkipZero(deltas, i);
        } else {
          ClosedAtEnd(deltas, results);
        }
      }
      i := i + 1;
    }
  }

  // ---------------------------------------------------------------------
  // The scan as Contents.swift writes it

  /** State carried between positions: open run start, its representative, runs emitted. */
  datatype ScanState = ScanState(head: Option<int>, extremal: Option<int>, results: seq<Run>)

  /** The open run and the flush flag after classifying one position. */
  datatype Classified = Classified(head: Option<int>, extremal: Option<int>, ready: bool)

  /**
   * Classification of position `i` with the test at Contents.swift:215 as
   * written: the run-extending branch is taken when the delta EQUALS zero.
   * `delta` is absent at the sentinel end position.
   */
  function ClassifyAsWritten(st: ScanState, i: int, delta: Option<int>): Classified {
    match delta
    case None => Classified(st.head, st.extremal, st.head.Some?)
    case Some(x) =>
      if IsEqual(x, 0) then
        var open := st.head.Some? && st.extremal.Some?;
        var ready := open && IsLess(st.extremal.value * x, 0);
        var extremal :=
          if ready then st.extremal
          else if st.extremal.None? then Some(x)
          else Some(Closer(st.extremal.value, x));
        Classified(if open then st.head else Some(i), extremal, ready)
      else
        Classified(st.head, st.extremal, true)
  }

  function StepAsWritten(st: ScanState, i: int, delta: Option<int>): ScanState {
    var c := ClassifyAsWritten(st, i, delta);
    if !c.ready then ScanState(c.head, c.extremal, st.results)
    else
      var emitted :=
        if c.head.Some? && c.extremal.Some? then st.results + [Run(Span(c.head.value, i), c.extremal.value)]
        else st.results;
      if delta.Some? && !IsEqual(delta.value, 0) then ScanState(Some(i), delta, emitted)
      else ScanState(None, None, emitted)
  }

  function ScanAsWrittenFrom(d: seq<int>, i: nat, st: ScanState): seq<Run>
    requires i <= |d| + 1
    decreases |d| + 1 - i
  {
    if i == |d| + 1 then st.results
    else ScanAsWrittenFrom(d, i + 1, StepAsWritten(st, i, if i < |d| then Some(d[i]) else None))
  }

  /** The segmentation of a delta sequence as the code is written. */
  function ScanAsWritten(d: seq<int>): seq<Run> {
    if |d| == 0 then [] else ScanAsWrittenFrom(d, 0, ScanState(None, None, []))
  }

  /** One run per position, each represented by its own delta. */
  function Singletons(d: seq<int>): seq<Run> {
    seq(|d|, p requires 0 <= p < |d| => Run(Span(p, p + 1), d[p]))
  }

  lemma {:induction false} AsWrittenNonZeroFrom(d: seq<int>, i: nat)
    requires 1 <= i <= |d|
    requires forall p :: 0 <= p < |d| ==> d[p] != 0
    ensures ScanAsWrittenFrom(d, i, ScanState(Some(i - 1), Some(d[i - 1]), Singletons(d[..i - 1]))) == Singletons(d)
    decreases |d| - i
  {
    var emitted := Singletons(d[..i - 1]) + [Run(Span(i - 1, i), d[i - 1])];
    if i == |d| {
      assert emitted == Singletons(d);
    } else {
      assert emitted == Singletons(d[..i]);
      AsWrittenNonZeroFrom(d, i + 1);
    }
  }

  /**
   * As written, a delta sequence without zeros is cut at every position:
   * each non-zero delta flushes the open run and opens a new one, whatever
   * the signs.
   */
  lemma AsWrittenAllNonZero(d: seq<int>)
    requires forall p :: 0 <= p < |d| ==> d[p] != 0
    ensures ScanAsWritten(d) == Singletons(d)
  {
    if |d| > 0 {
      assert d[..0] == [];
      AsWrittenNonZeroFrom(d, 1);
    }
  }

  lemma {:induction false} AsWrittenZeroFrom(d: seq<int>, i: nat)
    requires 1 <= i <= |d|
    requires forall p :: 0 <= p < |d| ==> d[p] == 0
    ensures ScanAsWrittenFrom(d, i, ScanState(Some(0), Some(0), [])) == [Run(Span(0, |d|), 0)]
    decreases |d| - i
  {
    if i < |d| {
      AsWrittenZeroFrom(d, i + 1);
    }
  }

  /**
   * As written, a non-empty all-zero delta sequence yields one run over the
   * whole range with representative zero, where the corrected scan yields
   * no run at all.
   */
  lemma AsWrittenAllZero(d: seq<int>)
    requires |d| > 0
    requires forall p :: 0 <= p < |d| ==> d[p] == 0
    ensures ScanAsWritten(d) == [Run(Span(0, |d|), 0)]
    ensures Segments(d) == []
  {
    AsWrittenZeroFrom(d, 1);
    SegmentsEmptyIffAllZero(d);
  }

  /**
   * As written, every non-zero delta closes the run before it: the deltas of
   * `[3, 12, 32, 15]` from `[32, 152, 68, 8]` come out as four one-position
   * runs instead of the documented `(0..<3, -29), (3..<4, 7)`, which is what
   * the corrected scan yields.
   */
  lemma AsWrittenSplitsEveryNonZeroDelta()
    ensures ScanAsWritten([-29, -140, -36, 7])
         == [Run(Span(0, 1), -29), Run(Span(1, 2), -140), Run(Span(2, 3), -36), Run(Span(3, 4), 7)]
    ensures Segments([-29, -140, -36, 7]) == [Run(Span(0, 3), -29), Run(Span(3, 4), 7)]
  {
    SampleSegmentsNoGapNegated();
  }

  /** As written, zero deltas form runs whose representative is zero, which no correct run has. */
  lemma AsWrittenEmitsZeroRun()
    ensures ScanAsWritten([0, 5]) == [Run(Span(0, 1), 0), Run(Span(1, 2), 5)]
    ensures !RunOk([0, 5], ScanAsWritten([0, 5])[0])
    ensures Segments([0, 5]) == [Run(Span(1, 2), 5)]
  {
    assert [0, 5][1..2] == [5];
  }

  /** A sample pair whose deltas are `d` segments as `d` does. */
  lemma SegmentsOfSample(target: seq<int>, source: seq<int>, d: seq<int>, runs: seq<Run>)
    requires |target| == |source| == |d|
    requires forall p :: 0 <= p < |d| ==> d[p] == target[p] - source[p]
    requires Segments(d) == runs
    ensures SegmentsOf(target, source) == Some(runs)
  {
    DeltasOfWhole(target, source);
    assert Difference(target, source) == d;
  }

  /** Segmentations of the deltas of the sample pairs. */
  lemma SampleSegmentsNoGap()
    ensures Segments([29, 140, 36, -7]) == [Run(Span(0, 3), 29), Run(Span(3, 4), -7)]
  {
    assert [29, 140, 36, -7][0..3] == [29, 140, 36];
    assert [29, 140, 36][..2] == [29, 140];
    assert [29, 140][..1] == [29];
    assert [29, 140, 36, -7][3..4] == [-7];
  }

  lemma SampleSegmentsNoGapNegated()
    ensures Segments([-29, -140, -36, 7]) == [Run(Span(0, 3), -29), Run(Span(3, 4), 7)]
  {
    assert [-29, -140, -36, 7][0..3] == [-29, -140, -36];
    assert [-29, -140, -36][..2] == [-29, -140];
    assert [-29, -140][..1] == [-29];
    assert [-29, -140, -36, 7][3..4] == [7];
  }

  lemma SampleSegmentsInnerGap()
    ensures Segments([-29, -140, 0, -36, 7]) == [Run(Span(0, 2), -29), Run(Span(3, 4), -36), Run(Span(4, 5), 7)]
    ensures Segments([29, 140, 0, 36, -7]) == [Run(Span(0, 2), 29), Run(Span(3, 4), 36), Run(Span(4, 5), -7)]
  {
    assert [-29, -140, 0, -36, 7][0..2] == [-29, -140];
    assert [-29, -140][..1] == [-29];
    assert [-29, -140, 0, -36, 7][3..4] == [-36];
    assert [-29, -140, 0, -36, 7][4..5] == [7];
    assert [29, 140, 0, 36, -7][0..2] == [29, 140];
    assert [29, 140][..1] == [29];
    assert [29, 140, 0, 36, -7][3..4] == [36];
    assert [29, 140, 0, 36, -7][4..5] == [-7];
  }

  lemma SampleSegmentsOuterGaps()
    ensures Segments([0, -29, -140, 0, -36, 7, 0]) == [Run(Span(1, 3), -29), Run(Span(4, 5), -36), Run(Span(5, 6), 7)]
    ensures Segments([0, 29, 140, 0, 36, -7, 0]) == [Run(Span(1, 3), 29), Run(Span(4, 5), 36), Run(Span(5, 6), -7)]
  {
    assert [0, -29, -140, 0, -36, 7, 0][1..3] == [-29, -140];
    assert [-29, -140][..1] == [-29];
    assert [0, -29, -140, 0, -36, 7, 0][4..5] == [-36];
    assert [0, -29, -140, 0, -36, 7, 0][5..6] == [7];
    assert [0, 29, 140, 0, 36, -7, 0][1..3] == [29, 140];
    assert [29, 140][..1] == [29];
    assert [0, 29, 140, 0, 36, -7, 0][4..5] == [36];
    assert [0, 29, 140, 0, 36, -7, 0][5..6] == [-7];
  }

  lemma SampleSegmentsAlternating()
    ensures Segments([1, -2, 1, -65]) == [Run(Span(0, 1), 1), Run(Span(1, 2), -2), Run(Span(2, 3), 1), Run(Span(3, 4), -65)]
  {
  }

  /** Expected results of the sample calls options0, options1 and options7. */
  lemma SegmentsVectorsAB()
    ensures SegmentsOf([3, 12, 32, 15], [32, 152, 68, 8]) == Some([Run(Span(0, 3), -29), Run(Span(3, 4), 7)])
    ensures SegmentsOf([32, 152, 68, 8], [3, 12, 32, 15]) == Some([Run(Span(0, 3), 29), Run(Span(3, 4), -7)])
    ensures SegmentsOf([3, 12, 32, 15], [1]) == None
  {
    SampleSegmentsNoGapNegated();
    SampleSegmentsNoGap();
    SegmentsOfSample([3, 12, 32, 15], [32, 152, 68, 8], [-29, -140, -36, 7],
      [Run(Span(0, 3), -29), Run(Span(3, 4), 7)]);
    SegmentsOfSample([32, 152, 68, 8], [3, 12, 32, 15], [29, 140, 36, -7],
      [Run(Span(0, 3), 29), Run(Span(3, 4), -7)]);
  }

  /** Expected results of the sample calls options2 and options3. */
  lemma SegmentsVectorsEF()
    ensures SegmentsOf([3, 12, 44, 32, 15], [32, 152, 44, 68, 8])
         == Some([Run(Span(0, 2), -29), Run(Span(3, 4), -36), Run(Span(4, 5), 7)])
    ensures SegmentsOf([32, 152, 44, 68, 8], [3, 12, 44, 32, 15])
         == Some([Run(Span(0, 2), 29), Run(Span(3, 4), 36), Run(Span(4, 5), -7)])
  {
    SampleSegmentsInnerGap();
    SegmentsOfSample([3, 12, 44, 32, 15], [32, 152, 44, 68, 8], [-29, -140, 0, -36, 7],
      [Run(Span(0, 2), -29), Run(Span(3, 4), -36), Run(Span(4, 5), 7)]);
    SegmentsOfSample([32, 152, 44, 68, 8], [3, 12, 44, 32, 15], [29, 140, 0, 36, -7],
      [Run(Span(0, 2), 29), Run(Span(3, 4), 36), Run(Span(4, 5), -7)]);
  }

  /** Expected results of the sample calls options4 and options5. */
  lemma SegmentsVectorsGH()
    ensures SegmentsOf([1, 3, 12, 44, 32, 15, 2], [1, 32, 152, 44, 68, 8, 2])
         == Some([Run(Span(1, 3), -29), Run(Span(4, 5), -36), Run(Span(5, 6), 7)])
    ensures SegmentsOf([1, 32, 152, 44, 68, 8, 2], [1, 3, 12, 44, 32, 15, 2])
         == Some([Run(Span(1, 3), 29), Run(Span(4, 5), 36), Run(Span(5, 6), -7)])
  {
    SampleSegmentsOuterGaps();
    SegmentsOfSample([1, 3, 12, 44, 32, 15, 2], [1, 32, 152, 44, 68, 8, 2], [0, -29, -140, 0, -36, 7, 0],
      [Run(Span(1, 3), -29), Run(Span(4, 5), -36), Run(Span(5, 6), 7)]);
    SegmentsOfSample([1, 32, 152, 44, 68, 8, 2], [1, 3, 12, 44, 32, 15, 2], [0, 29, 140, 0, 36, -7, 0],
      [Run(Span(1, 3), 29), Run(Span(4, 5), 36), Run(Span(5, 6), -7)]);
  }

  /**
   * The sample call options6: every delta flips sign, so every position is
   * its own run; the documented third run `2..<4` overlaps the fourth, and
   * the scan gives `2..<3`.
   */
  lemma SegmentsVectorsAD()
    ensures SegmentsOf([3, 12, 32, 15], [2, 14, 31, 80])
         == Some([Run(Span(0, 1), 1), Run(Span(1, 2), -2), Run(Span(2, 3), 1), Run(Span(3, 4), -65)])
  {
    SampleSegmentsAlternating();
    SegmentsOfSample([3, 12, 32, 15], [2, 14, 31, 80], [1, -2, 1, -65],
      [Run(Span(0, 1), 1), Run(Span(1, 2), -2), Run(Span(2, 3), 1), Run(Span(3, 4), -65)]);
  }
}
