/**
 * The convergence loop (`deltasAndRangesWithNewArrays(from:deltaPicker:)`):
 * segment the deltas of the target from the current array, let the caller's
 * picker choose a run, apply it, record the step, until no run is left.
 */
module Convergence {

  import opened Options
  import opened Spans
  import opened DeltaEngine
  import opened Segmentation
  import opened SequenceApplier

  /** Per applied step: the delta, the range, and the array after the step. */
  datatype Trace = Trace(deltas: seq<int>, ranges: seq<Span>, newArrays: seq<seq<int>>)

  /**
   * The picker answers a non-empty list of runs with one of those runs, or
   * with none. The source's force-unwrap of `apply` crashes for a range out
   * of bounds, and a picker that offers other runs can keep the loop going
   * for ever; this is what rules both out.
   */
  ghost predicate PicksOffered(picker: seq<Run> -> Option<Run>) {
    forall options: seq<Run> :: |options| > 0 && picker(options).Some? ==> picker(options).value in options
  }

  /** Positions whose delta is not zero. */
  ghost function NonZeroPositions(d: seq<int>): set<int> {
    set p | 0 <= p < |d| && d[p] != 0
  }

  // ---------------------------------------------------------------------
  // One step

  /**
   * Applying an offered run zeroes at least one of its positions, moves every
   * other one of its positions toward zero without changing sign, and leaves
   * the positions outside it alone.
   */
  lemma ApplyOfferedRun(target: seq<int>, current: seq<int>, run: Run)
    requires |target| == |current|
    requires run in Segments(Difference(target, current))
    ensures 0 <= run.span.start < run.span.end <= |current|
    ensures Applied(current, run.delta, run.span).Some?
    ensures var d := Difference(target, current);
            var after := Difference(target, Applied(current, run.delta, run.span).value);
            |after| == |d|
            && (forall p :: 0 <= p < |d| && !run.span.Contains(p) ==> after[p] == d[p])
            && (forall p :: run.span.Contains(p) ==>
                  (after[p] == 0 || Sign(after[p]) == Sign(d[p])) && Abs(after[p]) < Abs(d[p]))
            && (exists p :: run.span.Contains(p) && after[p] == 0)
  {
    var d := Difference(target, current);
    RepresentativeClosestToZero(d, run);
    var next := Applied(current, run.delta, run.span).value;
    var after := Difference(target, next);
    assert |after| == |d|;
    forall p | 0 <= p < |d| && !run.span.Contains(p)
      ensures after[p] == d[p]
    {
      assert next[p] == current[p];
    }
    forall p | run.span.Contains(p)
      ensures (after[p] == 0 || Sign(after[p]) == Sign(d[p])) && Abs(after[p]) < Abs(d[p])
    {
      assert next[p] == current[p] + run.delta;
      assert after[p] == d[p] - run.delta;
    }
    var s := d[run.span.start..run.span.end];
    var k :| 0 <= k < |s| && s[k] == run.delta;
    assert next[run.span.start + k] == current[run.span.start + k] + run.delta;
    assert after[run.span.start + k] == 0;
  }

  /** An applied offered run strictly shrinks the set of non-zero positions. */
  lemma ApplyOfferedRunShrinks(target: seq<int>, current: seq<int>, run: Run)
    requires |target| == |current|
    requires run in Segments(Difference(target, current))
    ensures run.span.Valid() && Applied(current, run.delta, run.span).Some?
    ensures |Applied(current, run.delta, run.span).value| == |target|
    ensures NonZeroPositions(Difference(target, Applied(current, run.delta, run.span).value))
          < NonZeroPositions(Difference(target, current))
    ensures |NonZeroPositions(Difference(target, Applied(current, run.delta, run.span).value))|
          < |NonZeroPositions(Difference(target, current))|
  {
    ApplyOfferedRun(target, current, run);
    var d := Difference(target, current);
    var after := Difference(target, Applied(current, run.delta, run.span).value);
    var q :| run.span.Contains(q) && after[q] == 0;
    assert q in NonZeroPositions(d) - NonZeroPositions(after);
    SubsetCardinality(NonZeroPositions(after), NonZeroPositions(d));
  }

  // ---------------------------------------------------------------------
  // Reference definition of the loop

  function Prefixed(steps: Trace, rest: Option<Trace>): Option<Trace> {
    match rest
    case None => None
    case Some(r) => Some(Trace(steps.deltas + r.deltas, steps.ranges + r.ranges, steps.newArrays + r.newArrays))
  }

  /** The steps taken from `current` until no run is left, or none if the picker declines. */
  function ConvergeFrom(target: seq<int>, current: seq<int>, picker: seq<Run> -> Option<Run>): Option<Trace>
    requires |target| == |current|
    requires PicksOffered(picker)
    decreases |NonZeroPositions(Difference(target, current))|
  {
    var options := Segments(Difference(target, current));
    if |options| == 0 then Some(Trace([], [], []))
    else
      match picker(options)
      case None => None
      case Some(pick) =>
        ApplyOfferedRunShrinks(target, current, pick);
        var next := Applied(current, pick.delta, pick.span).value;
        Prefixed(Trace([pick.delta], [pick.span], [next]), ConvergeFrom(target, next, picker))
  }

  function Converged(target: seq<int>, source: seq<int>, picker: seq<Run> -> Option<Run>): Option<Trace>
    requires PicksOffered(picker)
  {
    if |target| != |source| then None else ConvergeFrom(target, source, picker)
  }

  // ---------------------------------------------------------------------
  // The loop

  /** A round with runs left and a picked run: one step, then the rest from the new array. */
  lemma ConvergeFromStep(target: seq<int>, current: seq<int>, picker: seq<Run> -> Option<Run>, pick: Run)
    requires |target| == |current| && PicksOffered(picker)
    requires |Segments(Difference(target, current))| > 0
    requires picker(Segments(Difference(target, current))) == Some(pick)
    ensures pick.span.Valid() && Applied(current, pick.delta, pick.span).Some?
    ensures |Applied(current, pick.delta, pick.span).value| == |target|
    ensures ConvergeFrom(target, current, picker)
         == Prefixed(Trace([pick.delta], [pick.span], [Applied(current, pick.delta, pick.span).value]),
                     ConvergeFrom(target, Applied(current, pick.delta, pick.span).value, picker))
  {
    ApplyOfferedRunShrinks(target, current, pick);
  }

  /** A round whose picker declines: the whole loop has no result. */
  lemma ConvergeFromDeclined(target: seq<int>, current: seq<int>, picker: seq<Run> -> Option<Run>)
    requires |target| == |current| && PicksOffered(picker)
    requires |Segments(Difference(target, current))| > 0
    requires picker(Segments(Difference(target, current))).None?
    ensures ConvergeFrom(target, current, picker).None?
  {
  }

  /**
   * Step `i` of `t`, started from `start`, applied the run that `picker`
   * chose among the runs offered for the array before it.
   */
  ghost predicate ChosenAt(target: seq<int>, start: seq<int>, picker: seq<Run> -> Option<Run>, t: Trace, i: nat)
    requires |t.deltas| == |t.newArrays| && |t.ranges| == |t.newArrays| && i < |t.newArrays|
  {
    var before := Before(start, t, i);
    |before| == |target|
    && |Segments(Difference(target, before))| > 0
    && picker(Segments(Difference(target, before))) == Some(Run(t.ranges[i], t.deltas[i]))
    && t.ranges[i].Valid()
    && Applied(before, t.deltas[i], t.ranges[i]) == Some(t.newArrays[i])
  }

  /** Every recorded step of `t` is the picker's choice: the loop's rounds so far. */
  ghost predicate Follows(target: seq<int>, start: seq<int>, picker: seq<Run> -> Option<Run>, t: Trace) {
    |t.deltas| == |t.newArrays| && |t.ranges| == |t.newArrays|
    && forall i :: 0 <= i < |t.newArrays| ==> ChosenAt(target, start, picker, t, i)
  }

  /** The steps after the first of a trace of the picker's choices follow from its first array. */
  lemma FollowsTail(target: seq<int>, start: seq<int>, picker: seq<Run> -> Option<Run>, t: Trace)
    requires Follows(target, start, picker, t) && |t.newArrays| > 0
    ensures var rest := Trace(t.deltas[1..], t.ranges[1..], t.newArrays[1..]);
            Follows(target, t.newArrays[0], picker, rest)
            && Before(t.newArrays[0], rest, |rest.newArrays|) == Before(start, t, |t.newArrays|)
            && t == Trace([t.deltas[0]] + rest.deltas, [t.ranges[0]] + rest.ranges, [t.newArrays[0]] + rest.newArrays)
  {
    var next := t.newArrays[0];
    var rest := Trace(t.deltas[1..], t.ranges[1..], t.newArrays[1..]);
    forall i | 0 <= i < |rest.newArrays|
      ensures ChosenAt(target, next, picker, rest, i)
    {
      assert ChosenAt(target, start, picker, t, i + 1);
      assert Before(next, rest, i) == Before(start, t, i + 1);
    }
    assert t.deltas == [t.deltas[0]] + rest.deltas;
    assert t.ranges == [t.ranges[0]] + rest.ranges;
    assert t.newArrays == [next] + rest.newArrays;
  }

  /** One step followed by `rest` and then `tail` is the step and `rest` joined, followed by `tail`. */
  lemma PrefixedCons(delta: int, range: Span, next: seq<int>, rest: Trace, tail: Option<Trace>)
    ensures Prefixed(Trace([delta], [range], [next]), Prefixed(rest, tail))
         == Prefixed(Trace([delta] + rest.deltas, [range] + rest.ranges, [next] + rest.newArrays), tail)
  {
    if tail.Some? {
      var r := tail.value;
      assert [delta] + (rest.deltas + r.deltas) == [delta] + rest.deltas + r.deltas;
      assert [range] + (rest.ranges + r.ranges) == [range] + rest.ranges + r.ranges;
      assert [next] + (rest.newArrays + r.newArrays) == [next] + rest.newArrays + r.newArrays;
    }
  }

  /** A trace of the picker's choices is a prefix of the loop's result. */
  lemma {:induction false} ConvergeFromFollowed(target: seq<int>, start: seq<int>, picker: seq<Run> -> Option<Run>, t: Trace)
    requires |target| == |start| && PicksOffered(picker)
    requires Follows(target, start, picker, t)
    ensures |Before(start, t, |t.newArrays|)| == |target|
    ensures ConvergeFrom(target, start, picker)
         == Prefixed(t, ConvergeFrom(target, Before(start, t, |t.newArrays|), picker))
    decreases |t.newArrays|
  {
    if |t.newArrays| == 0 {
      assert t == Trace([], [], []);
      PrefixedNothing(t, ConvergeFrom(target, start, picker));
    } else {
      assert ChosenAt(target, start, picker, t, 0);
      var next := t.newArrays[0];
      var rest := Trace(t.deltas[1..], t.ranges[1..], t.newArrays[1..]);
      ConvergeFromStep(target, start, picker, Run(t.ranges[0], t.deltas[0]));
      FollowsTail(target, start, picker, t);
      ConvergeFromFollowed(target, next, picker, rest);
      PrefixedCons(t.deltas[0], t.ranges[0], next, rest, ConvergeFrom(target, Before(start, t, |t.newArrays|), picker));
    }
  }

  /**
   * A round that applies the picked run extends the picker's trace by one
   * step, and the number of positions left to fix drops.
   */
  lemma AdvanceRound(target: seq<int>, start: seq<int>, picker: seq<Run> -> Option<Run>, t: Trace,
                     current: seq<int>, pick: Run)
    requires |target| == |current| && PicksOffered(picker)
    requires Follows(target, start, picker, t) && current == Before(start, t, |t.newArrays|)
    requires |Segments(Difference(target, current))| > 0
    requires picker(Segments(Difference(target, current))) == Some(pick)
    ensures pick.span.Valid() && Applied(current, pick.delta, pick.span).Some?
    ensures var next := Applied(current, pick.delta, pick.span).value;
            |next| == |target|
            && Follows(target, start, picker, Trace(t.deltas + [pick.delta], t.ranges + [pick.span], t.newArrays + [next]))
            && |NonZeroPositions(Difference(target, next))| < |NonZeroPositions(Difference(target, current))|
  {
    ApplyOfferedRunShrinks(target, current, pick);
    var next := Applied(current, pick.delta, pick.span).value;
    var t2 := Trace(t.deltas + [pick.delta], t.ranges + [pick.span], t.newArrays + [next]);
    forall i | 0 <= i < |t2.newArrays|
      ensures ChosenAt(target, start, picker, t2, i)
    {
      if i < |t.newArrays| {
        assert ChosenAt(target, start, picker, t, i);
        assert Before(start, t2, i) == Before(start, t, i);
      } else {
        assert Before(start, t2, i) == current;
      }
    }
  }

  /** The loop stops with no run left: its result is the picker's trace. */
  lemma FollowedDone(target: seq<int>, start: seq<int>, picker: seq<Run> -> Option<Run>, t: Trace)
    requires |target| == |start| && PicksOffered(picker)
    requires Follows(target, start, picker, t)
    requires |Before(start, t, |t.newArrays|)| == |target|
    requires Segments(Difference(target, Before(start, t, |t.newArrays|))) == []
    ensures Converged(target, start, picker) == Some(t)
  {
    ConvergeFromFollowed(target, start, picker, t);
    ConvergeFromDone(target, Before(start, t, |t.newArrays|), picker);
    PrefixedNothing(t, None);
  }

  /** The picker declines a non-empty list: the loop has no result. */
  lemma FollowedDeclined(target: seq<int>, start: seq<int>, picker: seq<Run> -> Option<Run>, t: Trace)
    requires |target| == |start| && PicksOffered(picker)
    requires Follows(target, start, picker, t)
    requires |Before(start, t, |t.newArrays|)| == |target|
    requires |Segments(Difference(target, Before(start, t, |t.newArrays|)))| > 0
    requires picker(Segments(Difference(target, Before(start, t, |t.newArrays|)))).None?
    ensures Converged(target, start, picker).None?
  {
    ConvergeFromFollowed(target, start, picker, t);
    ConvergeFromDeclined(target, Before(start, t, |t.newArrays|), picker);
  }

  /** No run left: the loop stops with nothing more to record. */
  lemma ConvergeFromDone(target: seq<int>, current: seq<int>, picker: seq<Run> -> Option<Run>)
    requires |target| == |current| && PicksOffered(picker)
    requires Segments(Difference(target, current)) == []
    ensures ConvergeFrom(target, current, picker) == Some(Trace([], [], []))
  {
  }

  /** Nothing recorded yet, and nothing left to record. */
  lemma PrefixedNothing(steps: Trace, rest: Option<Trace>)
    ensures Prefixed(Trace([], [], []), rest) == rest
    ensures Prefixed(steps, Some(Trace([], [], []))) == Some(steps)
  {
    if rest.Some? {
      assert [] + rest.value.deltas == rest.value.deltas;
      assert [] + rest.value.ranges == rest.value.ranges;
      assert [] + rest.value.newArrays == rest.value.newArrays;
    }
    assert steps.deltas + [] == steps.deltas;
    assert steps.ranges + [] == steps.ranges;
    assert steps.newArrays + [] == steps.newArrays;
  }

  /**
   * The source's loop: `numberOfOptions` starts as the number of runs of the
   * initial deltas; every round segments the current array again, stops when
   * no run is left, fails when the picker declines, and otherwise applies the
   * picked run to the last recorded array and records the step.
   */
  method DeltasAndRangesWithNewArrays(target: seq<int>, source: seq<int>, picker: seq<Run> -> Option<Run>)
    returns (out: Option<Trace>)
    requires PicksOffered(picker)
    ensures out == Converged(target, source, picker)
  {
    if |target| != |source| {
      return None;
    }
    var deltas: seq<int> := [];
    var ranges: seq<Span> := [];
    var newArrays: seq<seq<int>> := [];
    var newCollection := source;
    DeltasOfWhole(target, source);
    var initial := NonZeroMaxDeltaRangesAndDeltas(target, source);
    var numberOfOptions := if initial.Some? then |initial.value| else 0;
    while numberOfOptions > 0
      invariant |newCollection| == |target| && numberOfOptions >= 0
      invariant newCollection == Before(source, Trace(deltas, ranges, newArrays), |newArrays|)
      invariant Follows(target, source, picker, Trace(deltas, ranges, newArrays))
      invariant numberOfOptions == 0 ==> Segments(Difference(target, newCollection)) == []
      decreases |NonZeroPositions(Difference(target, newCollection))|, numberOfOptions
    {
      // Once the counts agree the segmentation always has a result, so the
      // source's `return nil` for a failed segmentation cannot be reached here.
      var options := NonZeroMaxDeltaRangesAndDeltas(target, newCollection);
      assert options == Some(Segments(Difference(target, newCollection))) by {
        DeltasOfWhole(target, newCollection);
      }
      numberOfOptions := |options.value|;
      if numberOfOptions > 0 {
        var pick := picker(options.value);
        if pick.None? {
          FollowedDeclined(target, source, picker, Trace(deltas, ranges, newArrays));
          return None;
        }
        AdvanceRound(target, source, picker, Trace(deltas, ranges, newArrays), newCollection, pick.value);
        var last := if |newArrays| > 0 then newArrays[|newArrays| - 1] else source;
        var applied := Apply(last, pick.value.delta, pick.value.span);
        deltas := deltas + [pick.value.delta];
        ranges := ranges + [pick.value.span];
        newCollection := applied.value;
        newArrays := newArrays + [newCollection];
      }
    }
    FollowedDone(target, source, picker, Trace(deltas, ranges, newArrays));
    return Some(Trace(deltas, ranges, newArrays));
  }

  // ---------------------------------------------------------------------
  // What the loop promises

  /** The array that step `i` of a trace started from. */
  function Before(start: seq<int>, t: Trace, i: nat): seq<int>
    requires i <= |t.newArrays|
  {
    if i == 0 then start else t.newArrays[i - 1]
  }

  /** A recorded step applied one of the runs offered for `before` and gave `after`. */
  ghost predicate StepOk(target: seq<int>, before: seq<int>, delta: int, range: Span, after: seq<int>) {
    |before| == |target|
    && Run(range, delta) in Segments(Difference(target, before))
    && range.Valid()
    && Applied(before, delta, range) == Some(after)
  }

  /** Step `i` of `t`, started from `start`, is a valid step. */
  ghost predicate StepAt(target: seq<int>, start: seq<int>, t: Trace, i: nat)
    requires |t.deltas| == |t.newArrays| && |t.ranges| == |t.newArrays| && i < |t.newArrays|
  {
    StepOk(target, Before(start, t, i), t.deltas[i], t.ranges[i], t.newArrays[i])
  }

  /**
   * The three recorded sequences are parallel, every step is an offered run
   * applied to the array before it, the last array is the target, and
   * nothing is recorded exactly when `start` already is the target.
   */
  ghost predicate IsTraceFrom(target: seq<int>, start: seq<int>, t: Trace) {
    |t.deltas| == |t.newArrays| && |t.ranges| == |t.newArrays|
    && (forall i :: 0 <= i < |t.newArrays| ==> StepAt(target, start, t, i))
    && (|t.newArrays| == 0 <==> start == target)
    && (|t.newArrays| > 0 ==> t.newArrays[|t.newArrays| - 1] == target)
  }

  /** No run is left exactly when the current array is the target. */
  lemma NoRunsIffEqual(target: seq<int>, current: seq<int>)
    requires |target| == |current|
    ensures Segments(Difference(target, current)) == [] <==> current == target
  {
    var d := Difference(target, current);
    SegmentsEmptyIffAllZero(d);
    if forall p :: 0 <= p < |d| ==> d[p] == 0 {
      forall p | 0 <= p < |d|
        ensures current[p] == target[p]
      {
        assert d[p] == target[p] - current[p];
      }
      assert current == target;
    }
  }

  /** A valid step in front of a valid trace from the array it produced is a valid trace. */
  lemma TraceCons(target: seq<int>, current: seq<int>, delta: int, range: Span, next: seq<int>, rest: Trace)
    requires current != target
    requires StepOk(target, current, delta, range, next)
    requires IsTraceFrom(target, next, rest)
    ensures IsTraceFrom(target, current, Trace([delta] + rest.deltas, [range] + rest.ranges, [next] + rest.newArrays))
  {
    var t := Trace([delta] + rest.deltas, [range] + rest.ranges, [next] + rest.newArrays);
    forall i | 0 <= i < |t.newArrays|
      ensures StepAt(target, current, t, i)
    {
      if i > 0 {
        assert StepAt(target, next, rest, i - 1);
        assert Before(current, t, i) == Before(next, rest, i - 1);
      }
    }
  }

  lemma {:induction false} ConvergeFromTrace(target: seq<int>, current: seq<int>, picker: seq<Run> -> Option<Run>)
    requires |target| == |current| && PicksOffered(picker)
    ensures ConvergeFrom(target, current, picker).Some? ==>
              IsTraceFrom(target, current, ConvergeFrom(target, current, picker).value)
              && |ConvergeFrom(target, current, picker).value.newArrays|
                 <= |NonZeroPositions(Difference(target, current))|
    decreases |NonZeroPositions(Difference(target, current))|
  {
    var options := Segments(Difference(target, current));
    NoRunsIffEqual(target, current);
    if |options| > 0 && picker(options).Some? {
      var pick := picker(options).value;
      ConvergeFromStep(target, current, picker, pick);
      ApplyOfferedRunShrinks(target, current, pick);
      var next := Applied(current, pick.delta, pick.span).value;
      ConvergeFromTrace(target, next, picker);
      if ConvergeFrom(target, next, picker).Some? {
        TraceCons(target, current, pick.delta, pick.span, next, ConvergeFrom(target, next, picker).value);
      }
    }
  }

  lemma SubsetCardinality(a: set<int>, b: set<int>)
    requires a <= b
    ensures |a| <= |b|
    ensures a < b ==> |a| < |b|
  {
    var extra := b - a;
    assert b == a + extra;
    assert a * extra == {};
  }

  /** There are no more non-zero positions than positions. */
  lemma {:induction false} NonZeroPositionsBound(d: seq<int>)
    ensures |NonZeroPositions(d)| <= |d|
    decreases |d|
  {
    if |d| > 0 {
      var init := d[..|d| - 1];
      NonZeroPositionsBound(init);
      assert NonZeroPositions(d) <= NonZeroPositions(init) + {|d| - 1};
      SubsetCardinality(NonZeroPositions(d), NonZeroPositions(init) + {|d| - 1});
    }
  }

  /**
   * The loop fails on mismatching counts; on success its trace is a valid
   * sequence of offered runs ending at the target, and it has at most one
   * step per position whose delta was initially non-zero.
   */
  lemma ConvergedCorrect(target: seq<int>, source: seq<int>, picker: seq<Run> -> Option<Run>)
    requires PicksOffered(picker)
    ensures |target| != |source| ==> Converged(target, source, picker).None?
    ensures Converged(target, source, picker).Some? ==>
              IsTraceFrom(target, source, Converged(target, source, picker).value)
              && |Converged(target, source, picker).value.newArrays| <= |target|
  {
    if |target| == |source| {
      ConvergeFromTrace(target, source, picker);
      NonZeroPositionsBound(Difference(target, source));
    }
  }

  /** A picker that never declines a non-empty list always reaches the target. */
  lemma {:induction false} ConvergeFromTotal(target: seq<int>, current: seq<int>, picker: seq<Run> -> Option<Run>)
    requires |target| == |current| && PicksOffered(picker)
    requires forall options: seq<Run> :: |options| > 0 ==> picker(options).Some?
    ensures ConvergeFrom(target, current, picker).Some?
    decreases |NonZeroPositions(Difference(target, current))|
  {
    var options := Segments(Difference(target, current));
    if |options| > 0 {
      var pick := picker(options).value;
      ConvergeFromStep(target, current, picker, pick);
      ApplyOfferedRunShrinks(target, current, pick);
      ConvergeFromTotal(target, Applied(current, pick.delta, pick.span).value, picker);
    }
  }

  /** The picker of the sample calls: the first offered run. */
  function First(options: seq<Run>): Option<Run> {
    if |options| > 0 then Some(options[0]) else None
  }

  lemma FirstPicksOffered()
    ensures PicksOffered(First)
    ensures forall options: seq<Run> :: |options| > 0 ==> First(options).Some?
  {
  }


  /** The picker of the sample call toTarget2: it never picks. */
  function Decline(options: seq<Run>): Option<Run> {
    None
  }

  /** The sample calls toTarget0 to toTarget2 have no result: the counts differ. */
  lemma ConvergedMismatchVectors()
    ensures PicksOffered(First) && PicksOffered(Decline)
    ensures Converged([42, 321, 53, 532, 12, 8, 2123, 2, 12341, 653, 1, 4], [1], First) == None
    ensures Converged([42, 321, 53, 532, 12, 8, 2123, 2, 12341, 653, 1, 4], seq(15, _ => 55), First) == None
    ensures Converged([42, 321, 53, 532, 12, 8, 2123, 2, 12341, 653, 1, 4], seq(15, _ => 55), Decline) == None
  {
    FirstPicksOffered();
  }

  // ---------------------------------------------------------------------
  // The sample call toTarget3: nine rounds with the first offered run

  /** One round of a run with `First` as the picker, given the deltas `d` before it. */
  lemma FirstRound(target: seq<int>, current: seq<int>, d: seq<int>, pick: Run, next: seq<int>)
    requires |target| == |current| == |d|
    requires forall p :: 0 <= p < |d| ==> d[p] == target[p] - current[p]
    requires |Segments(d)| > 0 && Segments(d)[0] == pick
    requires pick.span.Valid() && Applied(current, pick.delta, pick.span) == Some(next)
    ensures PicksOffered(First)
    ensures ConvergeFrom(target, current, First)
         == Prefixed(Trace([pick.delta], [pick.span], [next]), ConvergeFrom(target, next, First))
  {
    FirstPicksOffered();
    assert Difference(target, current) == d;
    ConvergeFromStep(target, current, First, pick);
  }

  /** The runs from position 8 on, shared by rounds 0 to 6 of toTarget3. */
  lemma RoundsTail8(d: seq<int>)
    requires |d| == 12 && d[8] == 11107 && d[9] == 610 && d[10] == 0 && d[11] == 1
    ensures RunsFrom(d, 8) == [Run(Span(8, 10), 610), Run(Span(11, 12), 1)]
  {
    assert RunEnd(d, 1, 12) == 12;
    assert d[11..12] == [1];
    assert RunsFrom(d, 11) == [Run(Span(11, 12), 1)];
    SkipZero(d, 10);
    assert RunEnd(d, 1, 9) == 10;
    assert d[8..10] == [11107, 610];
    assert [11107, 610][..1] == [11107];
  }

  /** The runs from position 6 on, shared by rounds 0 to 4 of toTarget3. */
  lemma RoundsTail6(d: seq<int>)
    requires |d| == 12 && d[6] == 1892 && d[7] == -21
    requires d[8] == 11107 && d[9] == 610 && d[10] == 0 && d[11] == 1
    ensures RunsFrom(d, 6) == [Run(Span(6, 7), 1892), Run(Span(7, 8), -21), Run(Span(8, 10), 610), Run(Span(11, 12), 1)]
  {
    RoundsTail8(d);
    assert RunEnd(d, -1, 8) == 8;
    assert d[7..8] == [-21];
    assert RunsFrom(d, 7) == [Run(Span(7, 8), -21), Run(Span(8, 10), 610), Run(Span(11, 12), 1)];
    assert RunEnd(d, 1, 7) == 7;
    assert d[6..7] == [1892];
  }

  /** The runs from position 3 on, shared by rounds 0 to 2 of toTarget3. */
  lemma RoundsTail3(d: seq<int>)
    requires |d| == 12 && d[3] == 409 && d[4] == -400 && d[5] == 0
    requires d[6] == 1892 && d[7] == -21
    requires d[8] == 11107 && d[9] == 610 && d[10] == 0 && d[11] == 1
    ensures RunsFrom(d, 3) == [Run(Span(3, 4), 409), Run(Span(4, 5), -400), Run(Span(6, 7), 1892), Run(Span(7, 8), -21), Run(Span(8, 10), 610), Run(Span(11, 12), 1)]
  {
    RoundsTail6(d);
    SkipZero(d, 5);
    assert RunEnd(d, -1, 5) == 5;
    assert d[4..5] == [-400];
    assert RunsFrom(d, 4) == [Run(Span(4, 5), -400), Run(Span(6, 7), 1892), Run(Span(7, 8), -21), Run(Span(8, 10), 610), Run(Span(11, 12), 1)];
    assert RunEnd(d, 1, 4) == 4;
    assert d[3..4] == [409];
  }

  /**
   * The option lists offered in the nine rounds of toTarget3: the whole
   * segmentation of the deltas before each round, in order, and the runs
   * the segmentation of the target against that round's array gives.
   */
  lemma SampleOptions0(d: seq<int>)
    requires d == [41, 298, 0, 409, -400, 0, 1892, -21, 11107, 610, 0, 1]
    ensures Segments(d) == [Run(Span(0, 2), 41), Run(Span(3, 4), 409), Run(Span(4, 5), -400), Run(Span(6, 7), 1892), Run(Span(7, 8), -21), Run(Span(8, 10), 610), Run(Span(11, 12), 1)]
    ensures SegmentsOf([42, 321, 53, 532, 12, 8, 2123, 2, 12341, 653, 1, 4], [1, 23, 53, 123, 412, 8, 231, 23, 1234, 43, 1, 3])
         == Some([Run(Span(0, 2), 41), Run(Span(3, 4), 409), Run(Span(4, 5), -400), Run(Span(6, 7), 1892), Run(Span(7, 8), -21), Run(Span(8, 10), 610), Run(Span(11, 12), 1)])
  {
    RoundsTail3(d);
    SkipZero(d, 2);
    assert RunEnd(d, 1, 1) == 2;
    assert d[0..2] == [41, 298];
    assert [41, 298][..1] == [41];
    assert RunsFrom(d, 0) == [Run(Span(0, 2), 41), Run(Span(3, 4), 409), Run(Span(4, 5), -400), Run(Span(6, 7), 1892), Run(Span(7, 8), -21), Run(Span(8, 10), 610), Run(Span(11, 12), 1)];
    LeadingZeros(d, 0);
    SegmentsOfSample([42, 321, 53, 532, 12, 8, 2123, 2, 12341, 653, 1, 4], [1, 23, 53, 123, 412, 8, 231, 23, 1234, 43, 1, 3], d, [Run(Span(0, 2), 41), Run(Span(3, 4), 409), Run(Span(4, 5), -400), Run(Span(6, 7), 1892), Run(Span(7, 8), -21), Run(Span(8, 10), 610), Run(Span(11, 12), 1)]);
  }

  lemma SampleOptions1(d: seq<int>)
    requires d == [0, 257, 0, 409, -400, 0, 1892, -21, 11107, 610, 0, 1]
    ensures Segments(d) == [Run(Span(1, 2), 257), Run(Span(3, 4), 409), Run(Span(4, 5), -400), Run(Span(6, 7), 1892), Run(Span(7, 8), -21), Run(Span(8, 10), 610), Run(Span(11, 12), 1)]
    ensures SegmentsOf([42, 321, 53, 532, 12, 8, 2123, 2, 12341, 653, 1, 4], [42, 64, 53, 123, 412, 8, 231, 23, 1234, 43, 1, 3])
         == Some([Run(Span(1, 2), 257), Run(Span(3, 4), 409), Run(Span(4, 5), -400), Run(Span(6, 7), 1892), Run(Span(7, 8), -21), Run(Span(8, 10), 610), Run(Span(11, 12), 1)])
  {
    RoundsTail3(d);
    SkipZero(d, 2);
    assert RunEnd(d, 1, 2) == 2;
    assert d[1..2] == [257];
    assert RunsFrom(d, 1) == [Run(Span(1, 2), 257), Run(Span(3, 4), 409), Run(Span(4, 5), -400), Run(Span(6, 7), 1892), Run(Span(7, 8), -21), Run(Span(8, 10), 610), Run(Span(11, 12), 1)];
    LeadingZeros(d, 1);
    SegmentsOfSample([42, 321, 53, 532, 12, 8, 2123, 2, 12341, 653, 1, 4], [42, 64, 53, 123, 412, 8, 231, 23, 1234, 43, 1, 3], d, [Run(Span(1, 2), 257), Run(Span(3, 4), 409), Run(Span(4, 5), -400), Run(Span(6, 7), 1892), Run(Span(7, 8), -21), Run(Span(8, 10), 610), Run(Span(11, 12), 1)]);
  }

  lemma SampleOptions2(d: seq<int>)
    requires d == [0, 0, 0, 409, -400, 0, 1892, -21, 11107, 610, 0, 1]
    ensures Segments(d) == [Run(Span(3, 4), 409), Run(Span(4, 5), -400), Run(Span(6, 7), 1892), Run(Span(7, 8), -21), Run(Span(8, 10), 610), Run(Span(11, 12), 1)]
    ensures SegmentsOf([42, 321, 53, 532, 12, 8, 2123, 2, 12341, 653, 1, 4], [42, 321, 53, 123, 412, 8, 231, 23, 1234, 43, 1, 3])
         == Some([Run(Span(3, 4), 409), Run(Span(4, 5), -400), Run(Span(6, 7), 1892), Run(Span(7, 8), -21), Run(Span(8, 10), 610), Run(Span(11, 12), 1)])
  {
    RoundsTail3(d);
    LeadingZeros(d, 3);
    SegmentsOfSample([42, 321, 53, 532, 12, 8, 2123, 2, 12341, 653, 1, 4], [42, 321, 53, 123, 412, 8, 231, 23, 1234, 43, 1, 3], d, [Run(Span(3, 4), 409), Run(Span(4, 5), -400), Run(Span(6, 7), 1892), Run(Span(7, 8), -21), Run(Span(8, 10), 610), Run(Span(11, 12), 1)]);
  }

  lemma SampleOptions3(d: seq<int>)
    requires d == [0, 0, 0, 0, -400, 0, 1892, -21, 11107, 610, 0, 1]
    ensures Segments(d) == [Run(Span(4, 5), -400), Run(Span(6, 7), 1892), Run(Span(7, 8), -21), Run(Span(8, 10), 610), Run(Span(11, 12), 1)]
    ensures SegmentsOf([42, 321, 53, 532, 12, 8, 2123, 2, 12341, 653, 1, 4], [42, 321, 53, 532, 412, 8, 231, 23, 1234, 43, 1, 3])
         == Some([Run(Span(4, 5), -400), Run(Span(6, 7), 1892), Run(Span(7, 8), -21), Run(Span(8, 10), 610), Run(Span(11, 12), 1)])
  {
    RoundsTail6(d);
    SkipZero(d, 5);
    assert RunEnd(d, -1, 5) == 5;
    assert d[4..5] == [-400];
    assert RunsFrom(d, 4) == [Run(Span(4, 5), -400), Run(Span(6, 7), 1892), Run(Span(7, 8), -21), Run(Span(8, 10), 610), Run(Span(11, 12), 1)];
    LeadingZeros(d, 4);
    SegmentsOfSample([42, 321, 53, 532, 12, 8, 2123, 2, 12341, 653, 1, 4], [42, 321, 53, 532, 412, 8, 231, 23, 1234, 43, 1, 3], d, [Run(Span(4, 5), -400), Run(Span(6, 7), 1892), Run(Span(7, 8), -21), Run(Span(8, 10), 610), Run(Span(11, 12), 1)]);
  }

  lemma SampleOptions4(d: seq<int>)
    requires d == [0, 0, 0, 0, 0, 0, 1892, -21, 11107, 610, 0, 1]
    ensures Segments(d) == [Run(Span(6, 7), 1892), Run(Span(7, 8), -21), Run(Span(8, 10), 610), Run(Span(11, 12), 1)]
    ensures SegmentsOf([42, 321, 53, 532, 12, 8, 2123, 2, 12341, 653, 1, 4], [42, 321, 53, 532, 12, 8, 231, 23, 1234, 43, 1, 3])
         == Some([Run(Span(6, 7), 1892), Run(Span(7, 8), -21), Run(Span(8, 10), 610), Run(Span(11, 12), 1)])
  {
    RoundsTail6(d);
    LeadingZeros(d, 6);
    SegmentsOfSample([42, 321, 53, 532, 12, 8, 2123, 2, 12341, 653, 1, 4], [42, 321, 53, 532, 12, 8, 231, 23, 1234, 43, 1, 3], d, [Run(Span(6, 7), 1892), Run(Span(7, 8), -21), Run(Span(8, 10), 610), Run(Span(11, 12), 1)]);
  }

  lemma SampleOptions5(d: seq<int>)
    requires d == [0, 0, 0, 0, 0, 0, 0, -21, 11107, 610, 0, 1]
    ensures Segments(d) == [Run(Span(7, 8), -21), Run(Span(8, 10), 610), Run(Span(11, 12), 1)]
    ensures SegmentsOf([42, 321, 53, 532, 12, 8, 2123, 2, 12341, 653, 1, 4], [42, 321, 53, 532, 12, 8, 2123, 23, 1234, 43, 1, 3])
         == Some([Run(Span(7, 8), -21), Run(Span(8, 10), 610), Run(Span(11, 12), 1)])
  {
    RoundsTail8(d);
    assert RunEnd(d, -1, 8) == 8;
    assert d[7..8] == [-21];
    assert RunsFrom(d, 7) == [Run(Span(7, 8), -21), Run(Span(8, 10), 610), Run(Span(11, 12), 1)];
    LeadingZeros(d, 7);
    SegmentsOfSample([42, 321, 53, 532, 12, 8, 2123, 2, 12341, 653, 1, 4], [42, 321, 53, 532, 12, 8, 2123, 23, 1234, 43, 1, 3], d, [Run(Span(7, 8), -21), Run(Span(8, 10), 610), Run(Span(11, 12), 1)]);
  }

  lemma SampleOptions6(d: seq<int>)
    requires d == [0, 0, 0, 0, 0, 0, 0, 0, 11107, 610, 0, 1]
    ensures Segments(d) == [Run(Span(8, 10), 610), Run(Span(11, 12), 1)]
    ensures SegmentsOf([42, 321, 53, 532, 12, 8, 2123, 2, 12341, 653, 1, 4], [42, 321, 53, 532, 12, 8, 2123, 2, 1234, 43, 1, 3])
         == Some([Run(Span(8, 10), 610), Run(Span(11, 12), 1)])
  {
    RoundsTail8(d);
    LeadingZeros(d, 8);
    SegmentsOfSample([42, 321, 53, 532, 12, 8, 2123, 2, 12341, 653, 1, 4], [42, 321, 53, 532, 12, 8, 2123, 2, 1234, 43, 1, 3], d, [Run(Span(8, 10), 610), Run(Span(11, 12), 1)]);
  }

  lemma SampleOptions7(d: seq<int>)
    requires d == [0, 0, 0, 0, 0, 0, 0, 0, 10497, 0, 0, 1]
    ensures Segments(d) == [Run(Span(8, 9), 10497), Run(Span(11, 12), 1)]
    ensures SegmentsOf([42, 321, 53, 532, 12, 8, 2123, 2, 12341, 653, 1, 4], [42, 321, 53, 532, 12, 8, 2123, 2, 1844, 653, 1, 3])
         == Some([Run(Span(8, 9), 10497), Run(Span(11, 12), 1)])
  {
    assert RunEnd(d, 1, 12) == 12;
    assert d[11..12] == [1];
    assert RunsFrom(d, 11) == [Run(Span(11, 12), 1)];
    SkipZero(d, 9);
    SkipZero(d, 10);
    assert RunEnd(d, 1, 9) == 9;
    assert d[8..9] == [10497];
    assert RunsFrom(d, 8) == [Run(Span(8, 9), 10497), Run(Span(11, 12), 1)];
    LeadingZeros(d, 8);
    SegmentsOfSample([42, 321, 53, 532, 12, 8, 2123, 2, 12341, 653, 1, 4], [42, 321, 53, 532, 12, 8, 2123, 2, 1844, 653, 1, 3], d, [Run(Span(8, 9), 10497), Run(Span(11, 12), 1)]);
  }

  lemma SampleOptions8(d: seq<int>)
    requires d == [0, 0, 0, 0, 0, 0, 0, 0, 0, 0, 0, 1]
    ensures Segments(d) == [Run(Span(11, 12), 1)]
    ensures SegmentsOf([42, 321, 53, 532, 12, 8, 2123, 2, 12341, 653, 1, 4], [42, 321, 53, 532, 12, 8, 2123, 2, 12341, 653, 1, 3])
         == Some([Run(Span(11, 12), 1)])
  {
    assert RunEnd(d, 1, 12) == 12;
    assert d[11..12] == [1];
    assert RunsFrom(d, 11) == [Run(Span(11, 12), 1)];
    LeadingZeros(d, 11);
    SegmentsOfSample([42, 321, 53, 532, 12, 8, 2123, 2, 12341, 653, 1, 4], [42, 321, 53, 532, 12, 8, 2123, 2, 12341, 653, 1, 3], d, [Run(Span(11, 12), 1)]);
  }

  lemma SampleOffer0(d: seq<int>)
    requires d == [41, 298, 0, 409, -400, 0, 1892, -21, 11107, 610, 0, 1]
    ensures |Segments(d)| > 0 && Segments(d)[0] == Run(Span(0, 2), 41)
    ensures Applied([1, 23, 53, 123, 412, 8, 231, 23, 1234, 43, 1, 3], 41, Span(0, 2)) == Some([42, 64, 53, 123, 412, 8, 231, 23, 1234, 43, 1, 3])
  {
    assert |Segments(d)| > 0 && Segments(d)[0] == Run(Span(0, 2), 41) by {
      SampleOptions0(d);
    }
    assert Applied([1, 23, 53, 123, 412, 8, 231, 23, 1234, 43, 1, 3], 41, Span(0, 2)).value == [42, 64, 53, 123, 412, 8, 231, 23, 1234, 43, 1, 3];
  }

  lemma SampleRound0()
    ensures PicksOffered(First)
    ensures ConvergeFrom([42, 321, 53, 532, 12, 8, 2123, 2, 12341, 653, 1, 4], [1, 23, 53, 123, 412, 8, 231, 23, 1234, 43, 1, 3], First)
         == Prefixed(Trace([41], [Span(0, 2)], [[42, 64, 53, 123, 412, 8, 231, 23, 1234, 43, 1, 3]]), ConvergeFrom([42, 321, 53, 532, 12, 8, 2123, 2, 12341, 653, 1, 4], [42, 64, 53, 123, 412, 8, 231, 23, 1234, 43, 1, 3], First))
  {
    var d := [41, 298, 0, 409, -400, 0, 1892, -21, 11107, 610, 0, 1];
    SampleOffer0(d);
    FirstRound([42, 321, 53, 532, 12, 8, 2123, 2, 12341, 653, 1, 4], [1, 23, 53, 123, 412, 8, 231, 23, 1234, 43, 1, 3], d, Run(Span(0, 2), 41), [42, 64, 53, 123, 412, 8, 231, 23, 1234, 43, 1, 3]);
  }

  lemma SampleOffer1(d: seq<int>)
    requires d == [0, 257, 0, 409, -400, 0, 1892, -21, 11107, 610, 0, 1]
    ensures |Segments(d)| > 0 && Segments(d)[0] == Run(Span(1, 2), 257)
    ensures Applied([42, 64, 53, 123, 412, 8, 231, 23, 1234, 43, 1, 3], 257, Span(1, 2)) == Some([42, 321, 53, 123, 412, 8, 231, 23, 1234, 43, 1, 3])
  {
    assert |Segments(d)| > 0 && Segments(d)[0] == Run(Span(1, 2), 257) by {
      SampleOptions1(d);
    }
    assert Applied([42, 64, 53, 123, 412, 8, 231, 23, 1234, 43, 1, 3], 257, Span(1, 2)).value == [42, 321, 53, 123, 412, 8, 231, 23, 1234, 43, 1, 3];
  }

  lemma SampleRound1()
    ensures PicksOffered(First)
    ensures ConvergeFrom([42, 321, 53, 532, 12, 8, 2123, 2, 12341, 653, 1, 4], [42, 64, 53, 123, 412, 8, 231, 23, 1234, 43, 1, 3], First)
         == Prefixed(Trace([257], [Span(1, 2)], [[42, 321, 53, 123, 412, 8, 231, 23, 1234, 43, 1, 3]]), ConvergeFrom([42, 321, 53, 532, 12, 8, 2123, 2, 12341, 653, 1, 4], [42, 321, 53, 123, 412, 8, 231, 23, 1234, 43, 1, 3], First))
  {
    var d := [0, 257, 0, 409, -400, 0, 1892, -21, 11107, 610, 0, 1];
    SampleOffer1(d);
    FirstRound([42, 321, 53, 532, 12, 8, 2123, 2, 12341, 653, 1, 4], [42, 64, 53, 123, 412, 8, 231, 23, 1234, 43, 1, 3], d, Run(Span(1, 2), 257), [42, 321, 53, 123, 412, 8, 231, 23, 1234, 43, 1, 3]);
  }

  lemma SampleOffer2(d: seq<int>)
    requires d == [0, 0, 0, 409, -400, 0, 1892, -21, 11107, 610, 0, 1]
    ensures |Segments(d)| > 0 && Segments(d)[0] == Run(Span(3, 4), 409)
    ensures Applied([42, 321, 53, 123, 412, 8, 231, 23, 1234, 43, 1, 3], 409, Span(3, 4)) == Some([42, 321, 53, 532, 412, 8, 231, 23, 1234, 43, 1, 3])
  {
    assert |Segments(d)| > 0 && Segments(d)[0] == Run(Span(3, 4), 409) by {
      SampleOptions2(d);
    }
    assert Applied([42, 321, 53, 123, 412, 8, 231, 23, 1234, 43, 1, 3], 409, Span(3, 4)).value == [42, 321, 53, 532, 412, 8, 231, 23, 1234, 43, 1, 3];
  }

  lemma SampleRound2()
    ensures PicksOffered(First)
    ensures ConvergeFrom([42, 321, 53, 532, 12, 8, 2123, 2, 12341, 653, 1, 4], [42, 321, 53, 123, 412, 8, 231, 23, 1234, 43, 1, 3], First)
         == Prefixed(Trace([409], [Span(3, 4)], [[42, 321, 53, 532, 412, 8, 231, 23, 1234, 43, 1, 3]]), ConvergeFrom([42, 321, 53, 532, 12, 8, 2123, 2, 12341, 653, 1, 4], [42, 321, 53, 532, 412, 8, 231, 23, 1234, 43, 1, 3], First))
  {
    var d := [0, 0, 0, 409, -400, 0, 1892, -21, 11107, 610, 0, 1];
    SampleOffer2(d);
    FirstRound([42, 321, 53, 532, 12, 8, 2123, 2, 12341, 653, 1, 4], [42, 321, 53, 123, 412, 8, 231, 23, 1234, 43, 1, 3], d, Run(Span(3, 4), 409), [42, 321, 53, 532, 412, 8, 231, 23, 1234, 43, 1, 3]);
  }

  lemma SampleOffer3(d: seq<int>)
    requires d == [0, 0, 0, 0, -400, 0, 1892, -21, 11107, 610, 0, 1]
    ensures |Segments(d)| > 0 && Segments(d)[0] == Run(Span(4, 5), -400)
    ensures Applied([42, 321, 53, 532, 412, 8, 231, 23, 1234, 43, 1, 3], -400, Span(4, 5)) == Some([42, 321, 53, 532, 12, 8, 231, 23, 1234, 43, 1, 3])
  {
    assert |Segments(d)| > 0 && Segments(d)[0] == Run(Span(4, 5), -400) by {
      SampleOptions3(d);
    }
    assert Applied([42, 321, 53, 532, 412, 8, 231, 23, 1234, 43, 1, 3], -400, Span(4, 5)).value == [42, 321, 53, 532, 12, 8, 231, 23, 1234, 43, 1, 3];
  }

  lemma SampleRound3()
    ensures PicksOffered(First)
    ensures ConvergeFrom([42, 321, 53, 532, 12, 8, 2123, 2, 12341, 653, 1, 4], [42, 321, 53, 532, 412, 8, 231, 23, 1234, 43, 1, 3], First)
         == Prefixed(Trace([-400], [Span(4, 5)], [[42, 321, 53, 532, 12, 8, 231, 23, 1234, 43, 1, 3]]), ConvergeFrom([42, 321, 53, 532, 12, 8, 2123, 2, 12341, 653, 1, 4], [42, 321, 53, 532, 12, 8, 231, 23, 1234, 43, 1, 3], First))
  {
    var d := [0, 0, 0, 0, -400, 0, 1892, -21, 11107, 610, 0, 1];
    SampleOffer3(d);
    FirstRound([42, 321, 53, 532, 12, 8, 2123, 2, 12341, 653, 1, 4], [42, 321, 53, 532, 412, 8, 231, 23, 1234, 43, 1, 3], d, Run(Span(4, 5), -400), [42, 321, 53, 532, 12, 8, 231, 23, 1234, 43, 1, 3]);
  }

  lemma SampleOffer4(d: seq<int>)
    requires d == [0, 0, 0, 0, 0, 0, 1892, -21, 11107, 610, 0, 1]
    ensures |Segments(d)| > 0 && Segments(d)[0] == Run(Span(6, 7), 1892)
    ensures Applied([42, 321, 53, 532, 12, 8, 231, 23, 1234, 43, 1, 3], 1892, Span(6, 7)) == Some([42, 321, 53, 532, 12, 8, 2123, 23, 1234, 43, 1, 3])
  {
    assert |Segments(d)| > 0 && Segments(d)[0] == Run(Span(6, 7), 1892) by {
      SampleOptions4(d);
    }
    assert Applied([42, 321, 53, 532, 12, 8, 231, 23, 1234, 43, 1, 3], 1892, Span(6, 7)).value == [42, 321, 53, 532, 12, 8, 2123, 23, 1234, 43, 1, 3];
  }

  lemma SampleRound4()
    ensures PicksOffered(First)
    ensures ConvergeFrom([42, 321, 53, 532, 12, 8, 2123, 2, 12341, 653, 1, 4], [42, 321, 53, 532, 12, 8, 231, 23, 1234, 43, 1, 3], First)
         == Prefixed(Trace([1892], [Span(6, 7)], [[42, 321, 53, 532, 12, 8, 2123, 23, 1234, 43, 1, 3]]), ConvergeFrom([42, 321, 53, 532, 12, 8, 2123, 2, 12341, 653, 1, 4], [42, 321, 53, 532, 12, 8, 2123, 23, 1234, 43, 1, 3], First))
  {
    var d := [0, 0, 0, 0, 0, 0, 1892, -21, 11107, 610, 0, 1];
    SampleOffer4(d);
    FirstRound([42, 321, 53, 532, 12, 8, 2123, 2, 12341, 653, 1, 4], [42, 321, 53, 532, 12, 8, 231, 23, 1234, 43, 1, 3], d, Run(Span(6, 7), 1892), [42, 321, 53, 532, 12, 8, 2123, 23, 1234, 43, 1, 3]);
  }

  lemma SampleOffer5(d: seq<int>)
    requires d == [0, 0, 0, 0, 0, 0, 0, -21, 11107, 610, 0, 1]
    ensures |Segments(d)| > 0 && Segments(d)[0] == Run(Span(7, 8), -21)
    ensures Applied([42, 321, 53, 532, 12, 8, 2123, 23, 1234, 43, 1, 3], -21, Span(7, 8)) == Some([42, 321, 53, 532, 12, 8, 2123, 2, 1234, 43, 1, 3])
  {
    assert |Segments(d)| > 0 && Segments(d)[0] == Run(Span(7, 8), -21) by {
      SampleOptions5(d);
    }
    assert Applied([42, 321, 53, 532, 12, 8, 2123, 23, 1234, 43, 1, 3], -21, Span(7, 8)).value == [42, 321, 53, 532, 12, 8, 2123, 2, 1234, 43, 1, 3];
  }

  lemma SampleRound5()
    ensures PicksOffered(First)
    ensures ConvergeFrom([42, 321, 53, 532, 12, 8, 2123, 2, 12341, 653, 1, 4], [42, 321, 53, 532, 12, 8, 2123, 23, 1234, 43, 1, 3], First)
         == Prefixed(Trace([-21], [Span(7, 8)], [[42, 321, 53, 532, 12, 8, 2123, 2, 1234, 43, 1, 3]]), ConvergeFrom([42, 321, 53, 532, 12, 8, 2123, 2, 12341, 653, 1, 4], [42, 321, 53, 532, 12, 8, 2123, 2, 1234, 43, 1, 3], First))
  {
    var d := [0, 0, 0, 0, 0, 0, 0, -21, 11107, 610, 0, 1];
    SampleOffer5(d);
    FirstRound([42, 321, 53, 532, 12, 8, 2123, 2, 12341, 653, 1, 4], [42, 321, 53, 532, 12, 8, 2123, 23, 1234, 43, 1, 3], d, Run(Span(7, 8), -21), [42, 321, 53, 532, 12, 8, 2123, 2, 1234, 43, 1, 3]);
  }

  lemma SampleOffer6(d: seq<int>)
    requires d == [0, 0, 0, 0, 0, 0, 0, 0, 11107, 610, 0, 1]
    ensures |Segments(d)| > 0 && Segments(d)[0] == Run(Span(8, 10), 610)
    ensures Applied([42, 321, 53, 532, 12, 8, 2123, 2, 1234, 43, 1, 3], 610, Span(8, 10)) == Some([42, 321, 53, 532, 12, 8, 2123, 2, 1844, 653, 1, 3])
  {
    assert |Segments(d)| > 0 && Segments(d)[0] == Run(Span(8, 10), 610) by {
      SampleOptions6(d);
    }
    assert Applied([42, 321, 53, 532, 12, 8, 2123, 2, 1234, 43, 1, 3], 610, Span(8, 10)).value == [42, 321, 53, 532, 12, 8, 2123, 2, 1844, 653, 1, 3];
  }

  lemma SampleRound6()
    ensures PicksOffered(First)
    ensures ConvergeFrom([42, 321, 53, 532, 12, 8, 2123, 2, 12341, 653, 1, 4], [42, 321, 53, 532, 12, 8, 2123, 2, 1234, 43, 1, 3], First)
         == Prefixed(Trace([610], [Span(8, 10)], [[42, 321, 53, 532, 12, 8, 2123, 2, 1844, 653, 1, 3]]), ConvergeFrom([42, 321, 53, 532, 12, 8, 2123, 2, 12341, 653, 1, 4], [42, 321, 53, 532, 12, 8, 2123, 2, 1844, 653, 1, 3], First))
  {
    var d := [0, 0, 0, 0, 0, 0, 0, 0, 11107, 610, 0, 1];
    SampleOffer6(d);
    FirstRound([42, 321, 53, 532, 12, 8, 2123, 2, 12341, 653, 1, 4], [42, 321, 53, 532, 12, 8, 2123, 2, 1234, 43, 1, 3], d, Run(Span(8, 10), 610), [42, 321, 53, 532, 12, 8, 2123, 2, 1844, 653, 1, 3]);
  }

  lemma SampleOffer7(d: seq<int>)
    requires d == [0, 0, 0, 0, 0, 0, 0, 0, 10497, 0, 0, 1]
    ensures |Segments(d)| > 0 && Segments(d)[0] == Run(Span(8, 9), 10497)
    ensures Applied([42, 321, 53, 532, 12, 8, 2123, 2, 1844, 653, 1, 3], 10497, Span(8, 9)) == Some([42, 321, 53, 532, 12, 8, 2123, 2, 12341, 653, 1, 3])
  {
    assert |Segments(d)| > 0 && Segments(d)[0] == Run(Span(8, 9), 10497) by {
      SampleOptions7(d);
    }
    assert Applied([42, 321, 53, 532, 12, 8, 2123, 2, 1844, 653, 1, 3], 10497, Span(8, 9)).value == [42, 321, 53, 532, 12, 8, 2123, 2, 12341, 653, 1, 3];
  }

  lemma SampleRound7()
    ensures PicksOffered(First)
    ensures ConvergeFrom([42, 321, 53, 532, 12, 8, 2123, 2, 12341, 653, 1, 4], [42, 321, 53, 532, 12, 8, 2123, 2, 1844, 653, 1, 3], First)
         == Prefixed(Trace([10497], [Span(8, 9)], [[42, 321, 53, 532, 12, 8, 2123, 2, 12341, 653, 1, 3]]), ConvergeFrom([42, 321, 53, 532, 12, 8, 2123, 2, 12341, 653, 1, 4], [42, 321, 53, 532, 12, 8, 2123, 2, 12341, 653, 1, 3], First))
  {
    var d := [0, 0, 0, 0, 0, 0, 0, 0, 10497, 0, 0, 1];
    SampleOffer7(d);
    FirstRound([42, 321, 53, 532, 12, 8, 2123, 2, 12341, 653, 1, 4], [42, 321, 53, 532, 12, 8, 2123, 2, 1844, 653, 1, 3], d, Run(Span(8, 9), 10497), [42, 321, 53, 532, 12, 8, 2123, 2, 12341, 653, 1, 3]);
  }

  lemma SampleOffer8(d: seq<int>)
    requires d == [0, 0, 0, 0, 0, 0, 0, 0, 0, 0, 0, 1]
    ensures |Segments(d)| > 0 && Segments(d)[0] == Run(Span(11, 12), 1)
    ensures Applied([42, 321, 53, 532, 12, 8, 2123, 2, 12341, 653, 1, 3], 1, Span(11, 12)) == Some([42, 321, 53, 532, 12, 8, 2123, 2, 12341, 653, 1, 4])
  {
    assert |Segments(d)| > 0 && Segments(d)[0] == Run(Span(11, 12), 1) by {
      SampleOptions8(d);
    }
    assert Applied([42, 321, 53, 532, 12, 8, 2123, 2, 12341, 653, 1, 3], 1, Span(11, 12)).value == [42, 321, 53, 532, 12, 8, 2123, 2, 12341, 653, 1, 4];
  }

  lemma SampleRound8()
    ensures PicksOffered(First)
    ensures ConvergeFrom([42, 321, 53, 532, 12, 8, 2123, 2, 12341, 653, 1, 4], [42, 321, 53, 532, 12, 8, 2123, 2, 12341, 653, 1, 3], First)
         == Prefixed(Trace([1], [Span(11, 12)], [[42, 321, 53, 532, 12, 8, 2123, 2, 12341, 653, 1, 4]]), ConvergeFrom([42, 321, 53, 532, 12, 8, 2123, 2, 12341, 653, 1, 4], [42, 321, 53, 532, 12, 8, 2123, 2, 12341, 653, 1, 4], First))
  {
    var d := [0, 0, 0, 0, 0, 0, 0, 0, 0, 0, 0, 1];
    SampleOffer8(d);
    FirstRound([42, 321, 53, 532, 12, 8, 2123, 2, 12341, 653, 1, 4], [42, 321, 53, 532, 12, 8, 2123, 2, 12341, 653, 1, 3], d, Run(Span(11, 12), 1), [42, 321, 53, 532, 12, 8, 2123, 2, 12341, 653, 1, 4]);
  }


  /** After the last round no run is left, so the loop stops at the target. */
  lemma SampleFinish()
    ensures PicksOffered(First)
    ensures ConvergeFrom([42, 321, 53, 532, 12, 8, 2123, 2, 12341, 653, 1, 4], [42, 321, 53, 532, 12, 8, 2123, 2, 12341, 653, 1, 3], First)
         == Some(Trace([1], [Span(11, 12)],
                       [[42, 321, 53, 532, 12, 8, 2123, 2, 12341, 653, 1, 4]]))
  {
    SampleRound8();
    NoRunsIffEqual([42, 321, 53, 532, 12, 8, 2123, 2, 12341, 653, 1, 4], [42, 321, 53, 532, 12, 8, 2123, 2, 12341, 653, 1, 4]);
    ConvergeFromDone([42, 321, 53, 532, 12, 8, 2123, 2, 12341, 653, 1, 4], [42, 321, 53, 532, 12, 8, 2123, 2, 12341, 653, 1, 4], First);
    PrefixedNothing(Trace([1], [Span(11, 12)], [[42, 321, 53, 532, 12, 8, 2123, 2, 12341, 653, 1, 4]]), None);
  }

  /** One more recorded step in front of a successful remainder ending at `last`. */
  lemma PrefixedShape(step: Trace, rest: Option<Trace>, last: seq<int>)
    requires |step.newArrays| == 1
    requires rest.Some? && |rest.value.newArrays| > 0
    requires rest.value.newArrays[|rest.value.newArrays| - 1] == last
    ensures Prefixed(step, rest).Some?
    ensures |Prefixed(step, rest).value.newArrays| == |rest.value.newArrays| + 1
    ensures Prefixed(step, rest).value.newArrays[|rest.value.newArrays|] == last
  {
  }

  /** From round 7 on, the sample loop succeeds after 2 steps and ends at the target. */
  lemma SampleShape7()
    ensures PicksOffered(First)
    ensures ConvergeFrom([42, 321, 53, 532, 12, 8, 2123, 2, 12341, 653, 1, 4], [42, 321, 53, 532, 12, 8, 2123, 2, 1844, 653, 1, 3], First).Some?
    ensures |ConvergeFrom([42, 321, 53, 532, 12, 8, 2123, 2, 12341, 653, 1, 4], [42, 321, 53, 532, 12, 8, 2123, 2, 1844, 653, 1, 3], First).value.newArrays| == 2
    ensures ConvergeFrom([42, 321, 53, 532, 12, 8, 2123, 2, 12341, 653, 1, 4], [42, 321, 53, 532, 12, 8, 2123, 2, 1844, 653, 1, 3], First).value.newArrays[1] == [42, 321, 53, 532, 12, 8, 2123, 2, 12341, 653, 1, 4]
  {
    SampleFinish();
    SampleRound7();
    PrefixedShape(Trace([10497], [Span(8, 9)], [[42, 321, 53, 532, 12, 8, 2123, 2, 12341, 653, 1, 3]]), ConvergeFrom([42, 321, 53, 532, 12, 8, 2123, 2, 12341, 653, 1, 4], [42, 321, 53, 532, 12, 8, 2123, 2, 12341, 653, 1, 3], First), [42, 321, 53, 532, 12, 8, 2123, 2, 12341, 653, 1, 4]);
  }

  /** From round 6 on, the sample loop succeeds after 3 steps and ends at the target. */
  lemma SampleShape6()
    ensures PicksOffered(First)
    ensures ConvergeFrom([42, 321, 53, 532, 12, 8, 2123, 2, 12341, 653, 1, 4], [42, 321, 53, 532, 12, 8, 2123, 2, 1234, 43, 1, 3], First).Some?
    ensures |ConvergeFrom([42, 321, 53, 532, 12, 8, 2123, 2, 12341, 653, 1, 4], [42, 321, 53, 532, 12, 8, 2123, 2, 1234, 43, 1, 3], First).value.newArrays| == 3
    ensures ConvergeFrom([42, 321, 53, 532, 12, 8, 2123, 2, 12341, 653, 1, 4], [42, 321, 53, 532, 12, 8, 2123, 2, 1234, 43, 1, 3], First).value.newArrays[2] == [42, 321, 53, 532, 12, 8, 2123, 2, 12341, 653, 1, 4]
  {
    SampleShape7();
    SampleRound6();
    PrefixedShape(Trace([610], [Span(8, 10)], [[42, 321, 53, 532, 12, 8, 2123, 2, 1844, 653, 1, 3]]), ConvergeFrom([42, 321, 53, 532, 12, 8, 2123, 2, 12341, 653, 1, 4], [42, 321, 53, 532, 12, 8, 2123, 2, 1844, 653, 1, 3], First), [42, 321, 53, 532, 12, 8, 2123, 2, 12341, 653, 1, 4]);
  }

  /** From round 5 on, the sample loop succeeds after 4 steps and ends at the target. */
  lemma SampleShape5()
    ensures PicksOffered(First)
    ensures ConvergeFrom([42, 321, 53, 532, 12, 8, 2123, 2, 12341, 653, 1, 4], [42, 321, 53, 532, 12, 8, 2123, 23, 1234, 43, 1, 3], First).Some?
    ensures |ConvergeFrom([42, 321, 53, 532, 12, 8, 2123, 2, 12341, 653, 1, 4], [42, 321, 53, 532, 12, 8, 2123, 23, 1234, 43, 1, 3], First).value.newArrays| == 4
    ensures ConvergeFrom([42, 321, 53, 532, 12, 8, 2123, 2, 12341, 653, 1, 4], [42, 321, 53, 532, 12, 8, 2123, 23, 1234, 43, 1, 3], First).value.newArrays[3] == [42, 321, 53, 532, 12, 8, 2123, 2, 12341, 653, 1, 4]
  {
    SampleShape6();
    SampleRound5();
    PrefixedShape(Trace([-21], [Span(7, 8)], [[42, 321, 53, 532, 12, 8, 2123, 2, 1234, 43, 1, 3]]), ConvergeFrom([42, 321, 53, 532, 12, 8, 2123, 2, 12341, 653, 1, 4], [42, 321, 53, 532, 12, 8, 2123, 2, 1234, 43, 1, 3], First), [42, 321, 53, 532, 12, 8, 2123, 2, 12341, 653, 1, 4]);
  }

  /** From round 4 on, the sample loop succeeds after 5 steps and ends at the target. */
  lemma SampleShape4()
    ensures PicksOffered(First)
    ensures ConvergeFrom([42, 321, 53, 532, 12, 8, 2123, 2, 12341, 653, 1, 4], [42, 321, 53, 532, 12, 8, 231, 23, 1234, 43, 1, 3], First).Some?
    ensures |ConvergeFrom([42, 321, 53, 532, 12, 8, 2123, 2, 12341, 653, 1, 4], [42, 321, 53, 532, 12, 8, 231, 23, 1234, 43, 1, 3], First).value.newArrays| == 5
    ensures ConvergeFrom([42, 321, 53, 532, 12, 8, 2123, 2, 12341, 653, 1, 4], [42, 321, 53, 532, 12, 8, 231, 23, 1234, 43, 1, 3], First).value.newArrays[4] == [42, 321, 53, 532, 12, 8, 2123, 2, 12341, 653, 1, 4]
  {
    SampleShape5();
    SampleRound4();
    PrefixedShape(Trace([1892], [Span(6, 7)], [[42, 321, 53, 532, 12, 8, 2123, 23, 1234, 43, 1, 3]]), ConvergeFrom([42, 321, 53, 532, 12, 8, 2123, 2, 12341, 653, 1, 4], [42, 321, 53, 532, 12, 8, 2123, 23, 1234, 43, 1, 3], First), [42, 321, 53, 532, 12, 8, 2123, 2, 12341, 653, 1, 4]);
  }

  /** From round 3 on, the sample loop succeeds after 6 steps and ends at the target. */
  lemma SampleShape3()
    ensures PicksOffered(First)
    ensures ConvergeFrom([42, 321, 53, 532, 12, 8, 2123, 2, 12341, 653, 1, 4], [42, 321, 53, 532, 412, 8, 231, 23, 1234, 43, 1, 3], First).Some?
    ensures |ConvergeFrom([42, 321, 53, 532, 12, 8, 2123, 2, 12341, 653, 1, 4], [42, 321, 53, 532, 412, 8, 231, 23, 1234, 43, 1, 3], First).value.newArrays| == 6
    ensures ConvergeFrom([42, 321, 53, 532, 12, 8, 2123, 2, 12341, 653, 1, 4], [42, 321, 53, 532, 412, 8, 231, 23, 1234, 43, 1, 3], First).value.newArrays[5] == [42, 321, 53, 532, 12, 8, 2123, 2, 12341, 653, 1, 4]
  {
    SampleShape4();
    SampleRound3();
    PrefixedShape(Trace([-400], [Span(4, 5)], [[42, 321, 53, 532, 12, 8, 231, 23, 1234, 43, 1, 3]]), ConvergeFrom([42, 321, 53, 532, 12, 8, 2123, 2, 12341, 653, 1, 4], [42, 321, 53, 532, 12, 8, 231, 23, 1234, 43, 1, 3], First), [42, 321, 53, 532, 12, 8, 2123, 2, 12341, 653, 1, 4]);
  }

  /** From round 2 on, the sample loop succeeds after 7 steps and ends at the target. */
  lemma SampleShape2()
    ensures PicksOffered(First)
    ensures ConvergeFrom([42, 321, 53, 532, 12, 8, 2123, 2, 12341, 653, 1, 4], [42, 321, 53, 123, 412, 8, 231, 23, 1234, 43, 1, 3], First).Some?
    ensures |ConvergeFrom([42, 321, 53, 532, 12, 8, 2123, 2, 12341, 653, 1, 4], [42, 321, 53, 123, 412, 8, 231, 23, 1234, 43, 1, 3], First).value.newArrays| == 7
    ensures ConvergeFrom([42, 321, 53, 532, 12, 8, 2123, 2, 12341, 653, 1, 4], [42, 321, 53, 123, 412, 8, 231, 23, 1234, 43, 1, 3], First).value.newArrays[6] == [42, 321, 53, 532, 12, 8, 2123, 2, 12341, 653, 1, 4]
  {
    SampleShape3();
    SampleRound2();
    PrefixedShape(Trace([409], [Span(3, 4)], [[42, 321, 53, 532, 412, 8, 231, 23, 1234, 43, 1, 3]]), ConvergeFrom([42, 321, 53, 532, 12, 8, 2123, 2, 12341, 653, 1, 4], [42, 321, 53, 532, 412, 8, 231, 23, 1234, 43, 1, 3], First), [42, 321, 53, 532, 12, 8, 2123, 2, 12341, 653, 1, 4]);
  }

  /** From round 1 on, the sample loop succeeds after 8 steps and ends at the target. */
  lemma SampleShape1()
    ensures PicksOffered(First)
    ensures ConvergeFrom([42, 321, 53, 532, 12, 8, 2123, 2, 12341, 653, 1, 4], [42, 64, 53, 123, 412, 8, 231, 23, 1234, 43, 1, 3], First).Some?
    ensures |ConvergeFrom([42, 321, 53, 532, 12, 8, 2123, 2, 12341, 653, 1, 4], [42, 64, 53, 123, 412, 8, 231, 23, 1234, 43, 1, 3], First).value.newArrays| == 8
    ensures ConvergeFrom([42, 321, 53, 532, 12, 8, 2123, 2, 12341, 653, 1, 4], [42, 64, 53, 123, 412, 8, 231, 23, 1234, 43, 1, 3], First).value.newArrays[7] == [42, 321, 53, 532, 12, 8, 2123, 2, 12341, 653, 1, 4]
  {
    SampleShape2();
    SampleRound1();
    PrefixedShape(Trace([257], [Span(1, 2)], [[42, 321, 53, 123, 412, 8, 231, 23, 1234, 43, 1, 3]]), ConvergeFrom([42, 321, 53, 532, 12, 8, 2123, 2, 12341, 653, 1, 4], [42, 321, 53, 123, 412, 8, 231, 23, 1234, 43, 1, 3], First), [42, 321, 53, 532, 12, 8, 2123, 2, 12341, 653, 1, 4]);
  }

  /** From round 0 on, the sample loop succeeds after 9 steps and ends at the target. */
  lemma SampleShape0()
    ensures PicksOffered(First)
    ensures ConvergeFrom([42, 321, 53, 532, 12, 8, 2123, 2, 12341, 653, 1, 4], [1, 23, 53, 123, 412, 8, 231, 23, 1234, 43, 1, 3], First).Some?
    ensures |ConvergeFrom([42, 321, 53, 532, 12, 8, 2123, 2, 12341, 653, 1, 4], [1, 23, 53, 123, 412, 8, 231, 23, 1234, 43, 1, 3], First).value.newArrays| == 9
    ensures ConvergeFrom([42, 321, 53, 532, 12, 8, 2123, 2, 12341, 653, 1, 4], [1, 23, 53, 123, 412, 8, 231, 23, 1234, 43, 1, 3], First).value.newArrays[8] == [42, 321, 53, 532, 12, 8, 2123, 2, 12341, 653, 1, 4]
  {
    SampleShape1();
    SampleRound0();
    PrefixedShape(Trace([41], [Span(0, 2)], [[42, 64, 53, 123, 412, 8, 231, 23, 1234, 43, 1, 3]]), ConvergeFrom([42, 321, 53, 532, 12, 8, 2123, 2, 12341, 653, 1, 4], [42, 64, 53, 123, 412, 8, 231, 23, 1234, 43, 1, 3], First), [42, 321, 53, 532, 12, 8, 2123, 2, 12341, 653, 1, 4]);
  }

  /**
   * The sample call toTarget3 as a whole: the loop succeeds after the nine
   * documented rounds and its last new array is the target.
   */
  lemma ConvergedSample()
    ensures PicksOffered(First)
    ensures Converged([42, 321, 53, 532, 12, 8, 2123, 2, 12341, 653, 1, 4], [1, 23, 53, 123, 412, 8, 231, 23, 1234, 43, 1, 3], First).Some?
    ensures |Converged([42, 321, 53, 532, 12, 8, 2123, 2, 12341, 653, 1, 4], [1, 23, 53, 123, 412, 8, 231, 23, 1234, 43, 1, 3], First).value.newArrays| == 9
    ensures Converged([42, 321, 53, 532, 12, 8, 2123, 2, 12341, 653, 1, 4], [1, 23, 53, 123, 412, 8, 231, 23, 1234, 43, 1, 3], First).value.newArrays[8] == [42, 321, 53, 532, 12, 8, 2123, 2, 12341, 653, 1, 4]
  {
    SampleShape0();
  }
}
