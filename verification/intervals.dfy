/** The class-interval exercise of estadistica/js/intervals.js: a dataset of
    twelve random integers, five contiguous half-open intervals built from a
    start and an amplitude, and the student's class marks (midpoints) checked
    against each interval's midpoint within a tolerance. The page's
    module-level variables are the fields of `IntervalExercise`. */
module Intervals {
  import opened Wrappers
  import Core

  /** Intervals the exercise always asks for. */
  const IntervalCount := 5
  /** Tolerance of a class mark against the interval's midpoint. */
  const MarkTolerance := 0.01
  /** Configuration of the generated dataset. */
  const DataCount := 12
  const DataMin := 10.0
  const DataMax := 70.0

  /** The half-open interval [lower, upper) at position `index`, with its
      midpoint as the expected class mark. */
  datatype Interval = Interval(index: int, lower: real, upper: real, correctMark: real)

  /** A recorded class mark: the number entered and whether it matched. */
  datatype Mark = Mark(value: real, correct: bool)

  /** The i-th interval built from `start` and `amplitude`. */
  function IntervalAt(start: real, amplitude: real, i: int): Interval {
    var lower := start + (i as real) * amplitude;
    var upper := lower + amplitude;
    Interval(i, lower, upper, (lower + upper) / 2.0)
  }

  /** The intervals `generateIntervals(start, amplitude, count)` builds. */
  function IntervalsFrom(start: real, amplitude: real, count: int): seq<Interval> {
    seq(if count > 0 then count else 0, i => IntervalAt(start, amplitude, i))
  }

  /** Each interval ends where the next begins. */
  predicate Contiguous(ivs: seq<Interval>) {
    forall i :: 0 <= i < |ivs| - 1 ==> ivs[i].upper == ivs[i + 1].lower
  }

  /** Each interval is non-empty with its mark strictly inside, and no interval
      overlaps a later one. */
  predicate Ordered(ivs: seq<Interval>) {
    && (forall i :: 0 <= i < |ivs| ==> ivs[i].lower < ivs[i].correctMark < ivs[i].upper)
    && (forall i, j :: 0 <= i < j < |ivs| ==> ivs[i].upper <= ivs[j].lower)
  }

  /** `count` intervals (none for a count below one), the i-th with index i,
      lower bound start + i·amplitude, width `amplitude` and the midpoint as
      its mark. */
  lemma IntervalsFromShape(start: real, amplitude: real, count: int)
    ensures var ivs := IntervalsFrom(start, amplitude, count);
            && |ivs| == (if count > 0 then count else 0)
            && forall i :: 0 <= i < |ivs| ==>
                 && ivs[i].index == i
                 && ivs[i].lower == start + (i as real) * amplitude
                 && ivs[i].upper == ivs[i].lower + amplitude
                 && ivs[i].correctMark == (ivs[i].lower + ivs[i].upper) / 2.0
  {
  }

  /** The generated intervals leave no gaps. */
  lemma IntervalsFromContiguous(start: real, amplitude: real, count: int)
    ensures Contiguous(IntervalsFrom(start, amplitude, count))
  {
    var ivs := IntervalsFrom(start, amplitude, count);
    forall i | 0 <= i < |ivs| - 1
      ensures ivs[i].upper == ivs[i + 1].lower
    {
      NextLower(start, amplitude, i);
    }
  }

  /** For a positive amplitude the generated intervals strictly increase,
      each mark strictly inside its interval. */
  lemma IntervalsFromOrdered(start: real, amplitude: real, count: int)
    requires amplitude > 0.0
    ensures Ordered(IntervalsFrom(start, amplitude, count))
  {
    var ivs := IntervalsFrom(start, amplitude, count);
    forall i, j | 0 <= i < j < |ivs|
      ensures ivs[i].upper <= ivs[j].lower
    {
      UpperBeforeLater(start, amplitude, i, j);
    }
  }

  lemma NextLower(start: real, amplitude: real, i: int)
    ensures IntervalAt(start, amplitude, i).upper == IntervalAt(start, amplitude, i + 1).lower
  {
    var x := i as real;
    assert (i + 1) as real == x + 1.0;
    assert (x + 1.0) * amplitude == x * amplitude + amplitude;
  }

  lemma UpperBeforeLater(start: real, amplitude: real, i: int, j: int)
    requires amplitude > 0.0 && i < j
    ensures IntervalAt(start, amplitude, i).upper <= IntervalAt(start, amplitude, j).lower
  {
    var x, y := i as real, j as real;
    var gap := y - x - 1.0;
    assert 0.0 <= gap;
    NonNegativeProduct(gap, amplitude);
    assert y * amplitude == (x + 1.0 + gap) * amplitude;
    assert (x + 1.0 + gap) * amplitude == x * amplitude + amplitude + gap * amplitude;
  }

  lemma NonNegativeProduct(a: real, b: real)
    requires 0.0 <= a && 0.0 <= b
    ensures 0.0 <= a * b
  {
  }

  /** The worked example: start 10 and amplitude 12 give [10,22), [22,34),
      [34,46), [46,58), [58,70) with marks 16, 28, 40, 52, 64. */
  lemma TwelveWideExample()
    ensures IntervalsFrom(10.0, 12.0, IntervalCount) ==
              [Interval(0, 10.0, 22.0, 16.0), Interval(1, 22.0, 34.0, 28.0),
               Interval(2, 34.0, 46.0, 40.0), Interval(3, 46.0, 58.0, 52.0),
               Interval(4, 58.0, 70.0, 64.0)]
  {
  }

  /** `generateIntervals`: builds the intervals one by one with a loop. */
  method GenerateIntervals(start: real, amplitude: real, count: int) returns (intervals: seq<Interval>)
    ensures intervals == IntervalsFrom(start, amplitude, count)
  {
    intervals := [];
    var i := 0;
    while i < count
      invariant 0 <= i && |intervals| == i
      invariant if count > 0 then i <= count else i == 0
      invariant forall k :: 0 <= k < i ==> intervals[k] == IntervalAt(start, amplitude, k)
    {
      var lowerBound := start + (i as real) * amplitude;
      var upperBound := lowerBound + amplitude;
      var mark := (lowerBound + upperBound) / 2.0;
      intervals := intervals + [Interval(i, lowerBound, upperBound, mark)];
      i := i + 1;
    }
  }

  /** Whether the mark at `index` is recorded and correct (a null or missing
      mark is not). */
  predicate MarkCorrect(marks: map<int, Option<Mark>>, index: int) {
    index in marks && marks[index].Some? && marks[index].value.correct
  }

  /** `checkAllCorrect` on values: never true without intervals; otherwise
      every interval's mark is recorded and correct. */
  predicate AllCorrect(intervals: seq<Interval>, marks: map<int, Option<Mark>>) {
    |intervals| > 0 && forall i :: 0 <= i < |intervals| ==> MarkCorrect(marks, i)
  }

  /** Every recorded mark belongs to an interval and its `correct` flag is the
      tolerance test against that interval's midpoint. */
  predicate MarksConsistent(intervals: seq<Interval>, marks: map<int, Option<Mark>>) {
    forall i :: i in marks && marks[i].Some? ==>
      && 0 <= i < |intervals|
      && marks[i].value.correct == Core.NumbersEqual(marks[i].value.value, intervals[i].correctMark, MarkTolerance)
  }

  /** With consistent marks, the exercise is complete exactly when there are
      intervals and every one has a recorded value strictly within the
      tolerance of its midpoint. */
  lemma AllCorrectIffWithinTolerance(intervals: seq<Interval>, marks: map<int, Option<Mark>>)
    ensures MarksConsistent(intervals, marks) ==>
              (AllCorrect(intervals, marks) <==>
                 && |intervals| > 0
                 && forall i :: 0 <= i < |intervals| ==> WithinTolerance(marks, i, intervals[i].correctMark))
  {
    if MarksConsistent(intervals, marks) {
      forall i | 0 <= i < |intervals|
        ensures MarkCorrect(marks, i) <==> WithinTolerance(marks, i, intervals[i].correctMark)
      {
        if i in marks && marks[i].Some? {
          var v := marks[i].value.value;
          assert marks[i].value.correct == Core.NumbersEqual(v, intervals[i].correctMark, MarkTolerance);
        }
      }
    }
  }

  /** The mark at `index` is recorded with a value in the open tolerance
      window around `target`. */
  predicate WithinTolerance(marks: map<int, Option<Mark>>, index: int, target: real) {
    index in marks && marks[index].Some?
    && target - MarkTolerance < marks[index].value.value < target + MarkTolerance
  }

  /** Marks that were consistent with the intervals for amplitude 12, kept
      when the amplitude changes to 10, make one correct entry complete the
      exercise although four stored values are far from the new midpoints. */
  lemma StaleMarksCompleteExercise()
    ensures var before := IntervalsFrom(10.0, 12.0, IntervalCount);
            var after := IntervalsFrom(10.0, 10.0, IntervalCount);
            var kept := map[0 := Some(Mark(16.0, true)), 1 := Some(Mark(28.0, true)),
                             2 := Some(Mark(40.0, true)), 3 := Some(Mark(52.0, true)),
                             4 := Some(Mark(64.0, true))];
            var marks := kept[0 := Some(Mark(15.0, true))];
            && MarksConsistent(before, kept)
            && !MarksConsistent(after, marks)
            && AllCorrect(after, marks)
            && !Core.NumbersEqual(marks[1].value.value, after[1].correctMark, MarkTolerance)
  {
    var before := IntervalsFrom(10.0, 12.0, IntervalCount);
    var after := IntervalsFrom(10.0, 10.0, IntervalCount);
    TwelveWideExample();
    assert after[1].correctMark == 25.0;
  }

  /** The exercise page's state: `rawData`, `stats`, `currentIntervals` and
      `userMarks`. `hasTable` says whether the page has the interval table;
      without it `clearIntervals` does nothing and no mark inputs exist. */
  class IntervalExercise {
    var rawData: seq<real>
    var stats: Core.Stats
    var currentIntervals: seq<Interval>
    var userMarks: map<int, Option<Mark>>
    const hasTable: bool
    const storage: Core.Store

    /** The stats describe the data, at most five intervals exist, and marks
        are recorded only for intervals with an input on the page. */
    ghost predicate Valid()
      reads this
    {
      && stats == Core.CalculateBasicStats(rawData)
      && |currentIntervals| <= IntervalCount
      && forall i :: i in userMarks ==> InputPresent(i)
    }

    /** The recorded marks agree with the current intervals. */
    ghost predicate MarksAgree()
      reads this
    {
      MarksConsistent(currentIntervals, userMarks)
    }

    /** Whether the input `mark-<index>` exists: the table shows one input per
        current interval. */
    predicate InputPresent(index: int)
      reads this
    {
      hasTable && 0 <= index < |currentIntervals|
    }

    constructor (hasTable: bool, storage: Core.Store)
      ensures Valid() && MarksAgree()
      ensures this.hasTable == hasTable && this.storage == storage
      ensures rawData == [] && stats == Core.Stats(0.0, 0.0, 0)
      ensures currentIntervals == [] && userMarks == map[]
    {
      this.hasTable := hasTable;
      this.storage := storage;
      rawData := [];
      stats := Core.Stats(0.0, 0.0, 0);
      currentIntervals := [];
      userMarks := map[];
    }

    /** `clearIntervals`: with the table present, no intervals and no marks. */
    method ClearIntervals()
      requires Valid()
      modifies this`currentIntervals, this`userMarks
      ensures Valid()
      ensures hasTable ==> currentIntervals == [] && userMarks == map[]
      ensures !hasTable ==> currentIntervals == old(currentIntervals) && userMarks == old(userMarks)
      ensures old(MarksAgree()) ==> MarksAgree()
    {
      if !hasTable {
        return;
      }
      currentIntervals := [];
      userMarks := map[];
    }

    /** `updateIntervals`, given the parsed inputs (None when not a finite
        number). Invalid inputs or a non-positive amplitude clear the table;
        otherwise the five intervals are rebuilt and the marks are KEPT. */
    method UpdateIntervals(start: Option<real>, amplitude: Option<real>)
      requires Valid()
      modifies this`currentIntervals, this`userMarks
      ensures Valid()
      ensures (start.None? || amplitude.None? || amplitude.value <= 0.0) ==>
                if hasTable then currentIntervals == [] && userMarks == map[]
                else currentIntervals == old(currentIntervals) && userMarks == old(userMarks)
      ensures start.Some? && amplitude.Some? && amplitude.value > 0.0 ==>
                && currentIntervals == IntervalsFrom(start.value, amplitude.value, IntervalCount)
                && userMarks == old(userMarks)
    {
      if start.None? || amplitude.None? || amplitude.value <= 0.0 {
        ClearIntervals();
        return;
      }
      currentIntervals := GenerateIntervals(start.value, amplitude.value, IntervalCount);
    }

    /** `updateIntervals` with the marks cleared on rebuild: rebuilding the intervals
        also clears the marks, so recorded marks always agree with the
        intervals shown. */
    method UpdateIntervalsClearingMarks(start: Option<real>, amplitude: Option<real>)
      requires Valid()
      modifies this`currentIntervals, this`userMarks
      ensures Valid()
      ensures old(MarksAgree()) ==> MarksAgree()
      ensures (start.None? || amplitude.None? || amplitude.value <= 0.0) ==>
                if hasTable then currentIntervals == [] && userMarks == map[]
                else currentIntervals == old(currentIntervals) && userMarks == old(userMarks)
      ensures start.Some? && amplitude.Some? && amplitude.value > 0.0 ==>
                && currentIntervals == IntervalsFrom(start.value, amplitude.value, IntervalCount)
                && userMarks == map[] && MarksAgree() && !CheckAllCorrect()
    {
      if start.None? || amplitude.None? || amplitude.value <= 0.0 {
        ClearIntervals();
        return;
      }
      currentIntervals := GenerateIntervals(start.value, amplitude.value, IntervalCount);
      userMarks := map[];
      assert !MarkCorrect(userMarks, 0);
    }

    /** `validateMark`, given the parsed input (None when not a finite
        number). Without an input for `index` nothing changes; otherwise the
        mark at `index` becomes null or the value with its tolerance verdict,
        and every other mark is kept. */
    method ValidateMark(index: int, parsed: Option<real>)
      requires Valid()
      modifies this`userMarks
      ensures Valid()
      ensures !InputPresent(index) ==> userMarks == old(userMarks)
      ensures InputPresent(index) && parsed.None? ==> userMarks == old(userMarks)[index := None]
      ensures InputPresent(index) && parsed.Some? ==>
                var correct := Core.NumbersEqual(parsed.value, currentIntervals[index].correctMark, MarkTolerance);
                userMarks == old(userMarks)[index := Some(Mark(parsed.value, correct))]
      ensures old(MarksAgree()) ==> MarksAgree()
    {
      if !(hasTable && 0 <= index < |currentIntervals|) {
        return;
      }
      var correctValue := currentIntervals[index].correctMark;
      if parsed.None? {
        userMarks := userMarks[index := None];
        return;
      }
      var isCorrect := Core.NumbersEqual(parsed.value, correctValue, MarkTolerance);
      userMarks := userMarks[index := Some(Mark(parsed.value, isCorrect))];
    }

    /** `checkAllCorrect`: false without intervals, otherwise whether every
        interval has a correct mark; while the marks agree with the intervals,
        true means every value is within the tolerance of its midpoint. */
    function CheckAllCorrect(): (allCorrect: bool)
      reads this
      ensures allCorrect ==> |currentIntervals| > 0
      ensures allCorrect && MarksConsistent(currentIntervals, userMarks) ==>
                forall i :: 0 <= i < |currentIntervals| ==>
                  WithinTolerance(userMarks, i, currentIntervals[i].correctMark)
    {
      AllCorrectIffWithinTolerance(currentIntervals, userMarks);
      AllCorrect(currentIntervals, userMarks)
    }

    /** `generateNewData`, with the random draws and the clock as inputs:
        twelve values from the draws, fresh stats, the table cleared and the
        data saved with the current time. */
    method GenerateNewData(draws: seq<real>, now: int)
      requires Valid()
      requires |draws| >= DataCount
      modifies this`rawData, this`stats, this`currentIntervals, this`userMarks
      modifies storage`exerciseData, storage`dataTimestamp
      ensures Valid()
      ensures |rawData| == DataCount
      ensures forall i :: 0 <= i < DataCount ==> rawData[i] == Core.DrawValue(draws[i], DataMin, DataMax)
      ensures Core.UnitDraws(draws) ==> forall i :: 0 <= i < DataCount ==> DataMin <= rawData[i] < DataMax
      ensures stats == Core.CalculateBasicStats(rawData) && stats.count == DataCount
      ensures hasTable ==> currentIntervals == [] && userMarks == map[] && !CheckAllCorrect()
      ensures !hasTable ==> currentIntervals == old(currentIntervals) && userMarks == old(userMarks)
      ensures old(MarksAgree()) ==> MarksAgree()
      ensures storage.writable ==> storage.exerciseData == Some(rawData) && storage.dataTimestamp == Some(now)
      ensures !storage.writable ==>
                storage.exerciseData == old(storage.exerciseData) && storage.dataTimestamp == old(storage.dataTimestamp)
    {
      rawData := Core.GenerateRandomData(DataCount, DataMin, DataMax, draws);
      stats := Core.CalculateBasicStats(rawData);
      ClearIntervals();
      storage.SaveExerciseData(rawData, now);
    }
  }
}
