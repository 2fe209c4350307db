/**
 * The chart helpers of the front end: the status pie chart's slices, the
 * cumulative answers-over-time line and the completion percentage.
 * Counts are the integers the back end sends; a missing count reads as 0
 * through `|| 0`. Percentages are computed on exact rationals.
 */
module ChartUtils {
  import opened Base
  import opened Sorting

  /** `question_status`: the count per status, each possibly absent. */
  datatype StatusCounts = StatusCounts(answered: Option<int>, partiallyAnswered: Option<int>, unanswered: Option<int>)

  /** `count || 0`. */
  function CountOr0(c: Option<int>): int {
    if c.Some? then c.value else 0
  }

  datatype Slice = Slice(name: string, value: int, color: string)

  const Placeholder := Slice("No Questions", 1, "#cccccc")

  /** The three slices before filtering, in their fixed order. */
  function AllSlices(counts: StatusCounts): (s: seq<Slice>)
    ensures |s| == 3
  {
    [Slice("Answered", CountOr0(counts.answered), "#2ecc71"),
     Slice("Partially Answered", CountOr0(counts.partiallyAnswered), "#f39c12"),
     Slice("Unanswered", CountOr0(counts.unanswered), "#e74c3c")]
  }

  /** The slices with a positive value, in their order. */
  function Positive(s: seq<Slice>): (r: seq<Slice>)
    ensures |r| <= |s|
    decreases |s|
  {
    if s == [] then []
    else
      var rest := Positive(s[1..]);
      if s[0].value > 0 then [s[0]] + rest else rest
  }

  /** The slices kept are exactly those with a positive value. */
  lemma {:induction false} PositiveMembers(s: seq<Slice>)
    ensures forall x :: x in Positive(s) <==> x in s && x.value > 0
    decreases |s|
  {
    if s != [] {
      PositiveMembers(s[1..]);
      assert forall x :: x in s <==> x == s[0] || x in s[1..];
    }
  }

  /**
   * `prepareStatusChartData`: the statuses with a positive count, in the
   * order Answered, Partially Answered, Unanswered; the placeholder slice
   * when there is none. A missing status object counts as all zeros.
   */
  function StatusChartData(status: Option<StatusCounts>): (data: seq<Slice>)
    ensures |data| >= 1
    ensures forall x :: x in data ==> x.value > 0
    ensures var counts := if status.Some? then status.value else StatusCounts(None, None, None);
            && (data == [Placeholder] <==> forall x :: x in AllSlices(counts) ==> x.value <= 0)
            && (data != [Placeholder] ==> forall x :: x in data <==> x in AllSlices(counts) && x.value > 0)
  {
    var counts := if status.Some? then status.value else StatusCounts(None, None, None);
    var data := Positive(AllSlices(counts));
    PositiveMembers(AllSlices(counts));
    if data == [] then [Placeholder] else data
  }

  /** A slice on its own when its value is positive, nothing otherwise. */
  function KeptSlice(x: Slice): seq<Slice> {
    if x.value > 0 then [x] else []
  }

  /**
   * Unless it is the placeholder, the chart is Answered, Partially
   * Answered and Unanswered, in that order, each kept when positive.
   */
  lemma {:induction false} StatusChartOrder(status: Option<StatusCounts>)
    ensures var counts := if status.Some? then status.value else StatusCounts(None, None, None);
            var all := AllSlices(counts);
            var data := StatusChartData(status);
            data == [Placeholder] || data == KeptSlice(all[0]) + KeptSlice(all[1]) + KeptSlice(all[2])
  {
    var counts := if status.Some? then status.value else StatusCounts(None, None, None);
    var all := AllSlices(counts);
    assert all == [all[0], all[1], all[2]];
    PositiveOfThree(all[0], all[1], all[2]);
  }

  /** Filtering three slices keeps each positive one in its place. */
  lemma {:induction false} PositiveOfThree(a: Slice, b: Slice, c: Slice)
    ensures Positive([a, b, c]) == KeptSlice(a) + KeptSlice(b) + KeptSlice(c)
  {
    PositiveCons(c, []);
    assert [c] == [c] + [];
    PositiveCons(b, [c]);
    assert [b, c] == [b] + [c];
    PositiveCons(a, [b, c]);
    assert [a, b, c] == [a] + [b, c];
  }

  /** Filtering keeps the first slice when positive, then filters the rest. */
  lemma {:induction false} PositiveCons(x: Slice, rest: seq<Slice>)
    ensures Positive([x] + rest) == KeptSlice(x) + Positive(rest)
  {
    assert ([x] + rest)[1..] == rest;
  }

  // ------------------------------------------------------------ completion percentage

  /** The discovery status as `calculateCompletionPercentage` reads it. */
  datatype CompletionInput = CompletionInput(totalQuestions: Option<int>, counts: Option<StatusCounts>)

  /**
   * `calculateCompletionPercentage`: 0 without a status or without
   * questions, otherwise 100 less the open share, a partially answered
   * question counting as half open.
   */
  function CompletionPercentage(status: Option<CompletionInput>): (p: real)
    ensures status.None? ==> p == 0.0
    ensures status.Some? && CountOr0(status.value.totalQuestions) == 0 ==> p == 0.0
  {
    if status.None? then 0.0
    else
      var total := CountOr0(status.value.totalQuestions);
      var counts := if status.value.counts.Some? then status.value.counts.value else StatusCounts(None, None, None);
      var unanswered := CountOr0(counts.unanswered);
      var partial := CountOr0(counts.partiallyAnswered);
      if total == 0 then 0.0
      else 100.0 - (unanswered as real + partial as real / 2.0) / total as real * 100.0
  }

  /**
   * With a positive total and counts that fit in it, the percentage lies
   * in [0, 100]: 100 when nothing is open, 0 when every question is
   * unanswered.
   */
  lemma {:induction false} CompletionBounds(total: int, answered: Option<int>, partial: int, unanswered: int)
    requires total > 0 && partial >= 0 && unanswered >= 0 && partial + unanswered <= total
    ensures var p := CompletionPercentage(Some(CompletionInput(Some(total), Some(StatusCounts(answered, Some(partial), Some(unanswered))))));
            && 0.0 <= p <= 100.0
            && (partial == 0 && unanswered == 0 ==> p == 100.0)
            && (unanswered == total ==> p == 0.0)
  {
    var open := unanswered as real + partial as real / 2.0;
    assert 0.0 <= open <= total as real;
    var share := open / total as real;
    assert 0.0 <= share <= 1.0 by {
      assert share * total as real == open;
    }
  }

  // ------------------------------------------------------------ progress timeline

  /** A processed transcript as the chart reads it. */
  datatype TranscriptPoint = TranscriptPoint(processedDate: string, answersFound: Option<int>)

  datatype TimelinePoint = TimelinePoint(date: string, answered: int)

  /** The comparator `new Date(a) - new Date(b)`, with `time` giving each date's milliseconds. */
  function DateOrder(time: string -> int): (TranscriptPoint, TranscriptPoint) -> bool {
    (a: TranscriptPoint, b: TranscriptPoint) => time(a.processedDate) <= time(b.processedDate)
  }

  /** The sum of `answers_found || 0` over some transcripts. */
  function AnswersSum(ts: seq<TranscriptPoint>): int
    decreases |ts|
  {
    if ts == [] then 0 else AnswersSum(ts[..|ts| - 1]) + CountOr0(ts[|ts| - 1].answersFound)
  }

  /** One point per transcript: its rendered date and the answers found up to it. */
  function Cumulative(ts: seq<TranscriptPoint>, render: string -> string): (ps: seq<TimelinePoint>)
    ensures |ps| == |ts|
    decreases |ts|
  {
    if ts == [] then []
    else Cumulative(ts[..|ts| - 1], render) + [TimelinePoint(render(ts[|ts| - 1].processedDate), AnswersSum(ts))]
  }

  /** The point of each transcript carries its date and the answers of every transcript up to and including it. */
  lemma {:induction false} CumulativePoints(ts: seq<TranscriptPoint>, render: string -> string)
    ensures forall i :: 0 <= i < |ts| ==>
              Cumulative(ts, render)[i] == TimelinePoint(render(ts[i].processedDate), AnswersSum(ts[..i + 1]))
    decreases |ts|
  {
    if ts != [] {
      var front := ts[..|ts| - 1];
      CumulativePoints(front, render);
      forall i | 0 <= i < |ts|
        ensures Cumulative(ts, render)[i] == TimelinePoint(render(ts[i].processedDate), AnswersSum(ts[..i + 1]))
      {
        if i < |front| {
          assert ts[i] == front[i] && ts[..i + 1] == front[..i + 1];
        } else {
          assert ts[..i + 1] == ts;
        }
      }
    }
  }

  /** The transcripts in date order, ties in their given order (`Array.prototype.sort` is stable). */
  function ByDate(ts: seq<TranscriptPoint>, time: string -> int): (r: seq<TranscriptPoint>)
    ensures Sorted(r, DateOrder(time)) && multiset(r) == multiset(ts)
  {
    InsertionSortSorted(ts, DateOrder(time));
    InsertionSort(ts, DateOrder(time))
  }

  /**
   * `prepareProgressTimelineData`: nothing for a missing or empty list;
   * otherwise the transcripts are sorted by date and `answeredCount`
   * accumulates along the `map`. `time` parses a date, `render` is
   * `toLocaleDateString`.
   */
  method ProgressTimelineData(transcripts: Option<seq<TranscriptPoint>>, time: string -> int, render: string -> string)
    returns (points: seq<TimelinePoint>)
    ensures transcripts.None? || transcripts.value == [] ==> points == []
    ensures transcripts.Some? ==> points == Cumulative(ByDate(transcripts.value, time), render)
  {
    if transcripts.None? || transcripts.value == [] {
      return [];
    }
    var sorted := ByDate(transcripts.value, time);
    var answeredCount := 0;
    points := [];
    var i := 0;
    while i < |sorted|
      invariant 0 <= i <= |sorted|
      invariant points == Cumulative(sorted[..i], render)
      invariant answeredCount == AnswersSum(sorted[..i])
    {
      CumulativeStep(sorted, i, render);
      answeredCount := answeredCount + CountOr0(sorted[i].answersFound);
      assert answeredCount == AnswersSum(sorted[..i + 1]);
      points := points + [TimelinePoint(render(sorted[i].processedDate), answeredCount)];
      assert points == Cumulative(sorted[..i + 1], render);
      i := i + 1;
    }
    assert sorted[..i] == sorted;
  }

  /** One round of the `map`: the next point carries the running count plus this transcript's answers. */
  lemma {:induction false} CumulativeStep(ts: seq<TranscriptPoint>, i: nat, render: string -> string)
    requires i < |ts|
    ensures AnswersSum(ts[..i + 1]) == AnswersSum(ts[..i]) + CountOr0(ts[i].answersFound)
    ensures Cumulative(ts[..i + 1], render) ==
            Cumulative(ts[..i], render) + [TimelinePoint(render(ts[i].processedDate), AnswersSum(ts[..i + 1]))]
  {
    assert ts[..i + 1][..i] == ts[..i];
  }

  lemma {:induction false} AnswersSumGrows(ts: seq<TranscriptPoint>, i: nat, j: nat)
    requires i <= j <= |ts|
    requires forall k :: 0 <= k < |ts| ==> CountOr0(ts[k].answersFound) >= 0
    ensures AnswersSum(ts[..i]) <= AnswersSum(ts[..j])
    decreases j - i
  {
    if i < j {
      AnswersSumGrows(ts, i, j - 1);
      assert ts[..j][..j - 1] == ts[..j - 1];
    }
  }

  /**
   * With counts that are not negative, the cumulative `answered` never
   * decreases along the timeline, and the last point holds the total.
   */
  lemma {:induction false} TimelineMonotone(ts: seq<TranscriptPoint>, render: string -> string)
    requires forall k :: 0 <= k < |ts| ==> CountOr0(ts[k].answersFound) >= 0
    ensures var ps := Cumulative(ts, render);
            && (forall i, j :: 0 <= i <= j < |ps| ==> ps[i].answered <= ps[j].answered)
            && (ps != [] ==> ps[|ps| - 1].answered == AnswersSum(ts))
  {
    var ps := Cumulative(ts, render);
    CumulativePoints(ts, render);
    forall i, j | 0 <= i <= j < |ps| ensures ps[i].answered <= ps[j].answered {
      AnswersSumGrows(ts, i + 1, j + 1);
    }
    if ps != [] {
      assert ts[..|ts|] == ts;
    }
  }
}
