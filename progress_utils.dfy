/**
 * The front end's progress helpers: a project's weighted completion and
 * the status and colours its percentage falls into, the sentence shown
 * beside it, the organisation-wide roll-up over many projects, and the
 * structural check of a progress payload. Only the default configuration
 * is modelled; weights and percentages are exact rationals.
 */
module ProgressUtils {
  import opened Base
  import opened Text
  import opened ChartUtils

  // ------------------------------------------------------------ configuration

  /** `WEIGHTS.PARTIAL`: a partially answered question counts 60%. */
  const PartialWeight: real := 0.6

  const CompletedThreshold := 95
  const ActiveHighThreshold := 70
  const ActiveLowThreshold := 10

  const Unknown := "unknown"
  const NoQuestions := "no-questions"
  const Completed := "completed"
  const Active := "active"
  const Pending := "pending"

  const Excellent := "bg-green-600"
  const Good := "bg-blue-600"
  const Moderate := "bg-yellow-600"
  const Poor := "bg-red-600"

  // ------------------------------------------------------------ project completion

  /** `progressData.questions`: `total` and `by_status`, each possibly absent or not a number / object. */
  datatype QuestionsData = QuestionsData(total: Option<int>, byStatus: Option<StatusCounts>)

  /** The progress payload of one project; `questions` is absent or falsy when `None`. */
  datatype ProgressData = ProgressData(questions: Option<QuestionsData>)

  /**
   * What `calculateProjectCompletion` returns. `weightedScore` and the two
   * weights are kept as numbers (the source renders them with `toFixed(1)`).
   */
  datatype Completion = Completion(
    percentage: int,
    totalQuestions: int,
    answeredQuestions: int,
    partiallyAnswered: int,
    unanswered: int,
    status: string,
    statusColor: string,
    progressColor: string,
    weightedScore: real,
    answeredWeight: real,
    partialWeight: real)

  const DefaultCompletion := Completion(0, 0, 0, 0, 0, Unknown, "gray", Poor, 0.0, 0.0, 0.0)

  /** `Math.round`: the nearest integer, halves rounded up. */
  function Round(x: real): (n: int)
    ensures x - 0.5 < n as real <= x + 0.5
  {
    (x + 0.5).Floor
  }

  lemma {:induction false} RoundMonotone(x: real, y: real)
    requires x <= y
    ensures Round(x) <= Round(y)
  {
  }

  /** A ratio of a part bounded by `m` times the whole lies in [0, m]. */
  lemma {:induction false} RatioBounds(a: real, b: real, m: real)
    requires b > 0.0 && m >= 0.0 && 0.0 <= a <= m * b
    ensures 0.0 <= a / b <= m
    ensures a == m * b ==> a / b == m
  {
  }

  /** The capped, rounded percentage of the weighted score over the total. */
  function Percentage(answered: int, partial: int, total: int): (r: int)
    requires total != 0
    ensures r <= 100
  {
    Min(Round((answered as real + partial as real * PartialWeight) / total as real * 100.0), 100)
  }

  /** The status and its colour for a percentage. */
  function StatusFor(percentage: int): (r: (string, string))
    ensures r.0 == Completed <==> percentage >= CompletedThreshold
    ensures r.0 == Active <==> ActiveLowThreshold <= percentage < CompletedThreshold
    ensures r.0 == Pending <==> percentage < ActiveLowThreshold
    ensures r.0 == Active ==> (r.1 == "blue" <==> percentage >= ActiveHighThreshold)
  {
    if percentage >= CompletedThreshold then (Completed, "green")
    else if percentage >= ActiveHighThreshold then (Active, "blue")
    else if percentage >= ActiveLowThreshold then (Active, "yellow")
    else (Pending, "red")
  }

  /** The progress-bar colour, on its own scale of 90, 70 and 40. */
  function ProgressColorFor(percentage: int): string {
    if percentage >= 90 then Excellent
    else if percentage >= 70 then Good
    else if percentage >= 40 then Moderate
    else Poor
  }

  /** The position of a bar colour from worst to best. */
  function ColorRank(color: string): int {
    if color == Poor then 0 else if color == Moderate then 1 else if color == Good then 2 else 3
  }

  /** A higher percentage never gets a worse bar colour. */
  lemma {:induction false} ProgressColorMonotone(p: int, q: int)
    requires p <= q
    ensures ColorRank(ProgressColorFor(p)) <= ColorRank(ProgressColorFor(q))
  {
  }

  /**
   * The two scales agree where they overlap: a completed project has the
   * best bar colour, a pending one the worst, a blue status never a bar
   * below `Good`.
   */
  lemma {:induction false} StatusAndBarAgree(p: int)
    ensures StatusFor(p).0 == Completed ==> ProgressColorFor(p) == Excellent
    ensures StatusFor(p).0 == Pending ==> ProgressColorFor(p) == Poor
    ensures StatusFor(p).1 == "blue" ==> ProgressColorFor(p) in {Excellent, Good}
  {
  }

  /** `calculateProjectCompletion` with the default configuration. */
  function ProjectCompletion(data: Option<ProgressData>): (c: Completion)
    ensures data.None? || data.value.questions.None? ==> c == DefaultCompletion
    ensures c.percentage <= 100
    ensures c.totalQuestions == 0 ==> c.percentage == 0 && c.status in {Unknown, NoQuestions}
    ensures c.status in {Unknown, NoQuestions} <==> c.totalQuestions == 0
    ensures c.totalQuestions != 0 ==> c.status == StatusFor(c.percentage).0 && c.progressColor == ProgressColorFor(c.percentage)
  {
    if data.None? || data.value.questions.None? then DefaultCompletion
    else
      var q := data.value.questions.value;
      var total := CountOr0(q.total);
      var counts := if q.byStatus.Some? then q.byStatus.value else StatusCounts(None, None, None);
      var answered := CountOr0(counts.answered);
      var partial := CountOr0(counts.partiallyAnswered);
      var unanswered := CountOr0(counts.unanswered);
      if total == 0 then DefaultCompletion.(status := NoQuestions)
      else
        var answeredWeight := answered as real;
        var partialWeight := partial as real * PartialWeight;
        var percentage := Percentage(answered, partial, total);
        var (status, statusColor) := StatusFor(percentage);
        Completion(percentage, total, answered, partial, unanswered, status, statusColor,
                   ProgressColorFor(percentage), answeredWeight + partialWeight, answeredWeight, partialWeight)
  }

  /** The payload of a project with the given counts. */
  function Payload(total: int, answered: int, partial: int, unanswered: int): Option<ProgressData> {
    Some(ProgressData(Some(QuestionsData(Some(total), Some(StatusCounts(Some(answered), Some(partial), Some(unanswered)))))))
  }

  /**
   * For counts that fit in a positive total, the percentage lies in
   * [0, 100], is 100 when every question is answered and 0 when none is
   * answered or partially answered.
   */
  lemma {:induction false} PercentageBounds(total: int, answered: int, partial: int)
    requires total > 0 && answered >= 0 && partial >= 0 && answered + partial <= total
    ensures 0 <= Percentage(answered, partial, total) <= 100
    ensures answered == total ==> Percentage(answered, partial, total) == 100
    ensures answered == 0 && partial == 0 ==> Percentage(answered, partial, total) == 0
  {
    var score := answered as real + partial as real * PartialWeight;
    assert 0.0 <= score <= total as real;
    var share := score / total as real;
    RatioBounds(score, total as real, 1.0);
    RoundMonotone(0.0, share * 100.0);
    assert Round(0.0) == 0;
    if answered == total {
      assert score == 1.0 * total as real;
      assert share == 1.0;
      assert Round(100.0) == 100;
    }
  }

  /** More answers, fully or partially, never lower the percentage. */
  lemma {:induction false} PercentageMonotone(total: int, answered: int, partial: int, answered': int, partial': int)
    requires total > 0 && answered <= answered' && partial <= partial'
    ensures Percentage(answered, partial, total) <= Percentage(answered', partial', total)
  {
    var score := answered as real + partial as real * PartialWeight;
    var score' := answered' as real + partial' as real * PartialWeight;
    assert score <= score';
    assert score / total as real <= score' / total as real by {
      assert (score' - score) / total as real >= 0.0;
    }
    RoundMonotone(score / total as real * 100.0, score' / total as real * 100.0);
  }

  /** A project with every question answered is completed, green, with the best bar. */
  lemma {:induction false} AllAnsweredCompleted(total: int, unanswered: int)
    requires total > 0
    ensures var c := ProjectCompletion(Payload(total, total, 0, unanswered));
            c.percentage == 100 && c.status == Completed && c.statusColor == "green" && c.progressColor == Excellent
  {
    PercentageBounds(total, total, 0);
  }

  // ------------------------------------------------------------ description

  /** `getProgressDescription`. */
  function ProgressDescription(c: Completion): (r: string)
    ensures r != []
  {
    if c.totalQuestions == 0 then "No questions available yet"
    else if c.percentage >= 95 then
      CompleteOpening + " " + IntToString(c.answeredQuestions) + "/" + IntToString(c.totalQuestions) + " questions answered"
    else if c.percentage >= 70 then
      "Great progress! " + IntToString(c.answeredQuestions) + " answered"
      + (if c.partiallyAnswered > 0 then ", " + IntToString(c.partiallyAnswered) + " partial" else "")
    else if c.percentage >= 40 then
      "Making progress: " + IntToString(c.answeredQuestions) + "/" + IntToString(c.totalQuestions) + " questions completed"
    else if c.percentage >= 10 then
      "Getting started: " + IntToString(c.answeredQuestions) + " questions answered so far"
    else "Just beginning: " + IntToString(c.totalQuestions) + " questions ready for discovery"
  }

  /** A text opened by a character other than `D` does not announce completion. */
  lemma {:induction false} NotAnnounced(lead: string, rest: string)
    requires lead != [] && lead[0] != 'D'
    ensures !StartsWith(lead + rest, CompleteOpening)
  {
    assert (lead + rest)[0] == lead[0];
  }

  const CompleteOpening := "Discovery complete!"

  lemma {:induction false} AnnouncedWhenComplete(c: Completion)
    requires c.totalQuestions != 0 && c.percentage >= 95
    ensures StartsWith(ProgressDescription(c), CompleteOpening)
  {
    var rest := " " + IntToString(c.answeredQuestions) + "/" + IntToString(c.totalQuestions) + " questions answered";
    assert ProgressDescription(c) == CompleteOpening + rest;
    assert (CompleteOpening + rest)[..|CompleteOpening|] == CompleteOpening;
  }

  lemma {:induction false} NotAnnouncedAbove70(c: Completion)
    requires c.totalQuestions != 0 && 70 <= c.percentage < 95
    ensures !StartsWith(ProgressDescription(c), CompleteOpening)
  {
    var rest := IntToString(c.answeredQuestions) + " answered"
      + (if c.partiallyAnswered > 0 then ", " + IntToString(c.partiallyAnswered) + " partial" else "");
    assert ProgressDescription(c) == "Great progress! " + rest;
    NotAnnounced("Great progress! ", rest);
  }

  lemma {:induction false} NotAnnouncedAbove40(c: Completion)
    requires c.totalQuestions != 0 && 40 <= c.percentage < 70
    ensures !StartsWith(ProgressDescription(c), CompleteOpening)
  {
    var rest := IntToString(c.answeredQuestions) + "/" + IntToString(c.totalQuestions) + " questions completed";
    assert ProgressDescription(c) == "Making progress: " + rest;
    NotAnnounced("Making progress: ", rest);
  }

  lemma {:induction false} NotAnnouncedBelow40(c: Completion)
    requires c.totalQuestions != 0 && c.percentage < 40
    ensures !StartsWith(ProgressDescription(c), CompleteOpening)
  {
    if c.percentage >= 10 {
      var rest := IntToString(c.answeredQuestions) + " questions answered so far";
      assert ProgressDescription(c) == "Getting started: " + rest;
      NotAnnounced("Getting started: ", rest);
    } else {
      var rest := IntToString(c.totalQuestions) + " questions ready for discovery";
      assert ProgressDescription(c) == "Just beginning: " + rest;
      NotAnnounced("Just beginning: ", rest);
    }
  }

  /**
   * The description announces completion exactly when there are questions
   * and the percentage reaches 95: the total is checked first.
   */
  lemma {:induction false} DescriptionAnnouncesCompletion(c: Completion)
    ensures StartsWith(ProgressDescription(c), CompleteOpening) <==> c.totalQuestions != 0 && c.percentage >= 95
  {
    if c.totalQuestions == 0 {
      NotAnnounced("No questions available yet", []);
      assert ProgressDescription(c) == "No questions available yet" + [];
    } else if c.percentage >= 95 {
      AnnouncedWhenComplete(c);
    } else if c.percentage >= 70 {
      NotAnnouncedAbove70(c);
    } else if c.percentage >= 40 {
      NotAnnouncedAbove40(c);
    } else {
      NotAnnouncedBelow40(c);
    }
  }

  /**
   * On a computed completion, the description announces completion exactly
   * when the status is `completed`: the description's 95 is the status
   * threshold.
   */
  lemma {:induction false} DescriptionMatchesStatus(data: Option<ProgressData>)
    ensures var c := ProjectCompletion(data);
            StartsWith(ProgressDescription(c), CompleteOpening) <==> c.status == Completed
  {
    DescriptionAnnouncesCompletion(ProjectCompletion(data));
  }

  /** With no questions the description says so, whatever the percentage. */
  lemma {:induction false} NoQuestionsFirst(c: Completion)
    requires c.totalQuestions == 0
    ensures ProgressDescription(c) == "No questions available yet"
  {
  }

  // ------------------------------------------------------------ organisation roll-up

  /** A project as the dashboard holds it, with its loaded progress figures. */
  datatype ProjectProgress = ProjectProgress(
    progressLoaded: bool,
    progress: Option<int>,
    totalQuestions: Option<int>,
    answeredQuestions: Option<int>,
    status: string)

  /** The running figures of the `forEach`. */
  datatype Tally = Tally(completion: int, completed: nat, active: nat, pending: nat, questions: int, answered: int)

  const NoTally := Tally(0, 0, 0, 0, 0, 0)

  /** One project's contribution: nothing unless its progress is loaded; the `switch` counts three statuses. */
  function Count(t: Tally, p: ProjectProgress): Tally {
    if !p.progressLoaded then t
    else
      Tally(t.completion + CountOr0(p.progress),
            t.completed + (if p.status == Completed then 1 else 0),
            t.active + (if p.status == Active then 1 else 0),
            t.pending + (if p.status == Pending then 1 else 0),
            t.questions + CountOr0(p.totalQuestions),
            t.answered + CountOr0(p.answeredQuestions))
  }

  /** The figures after the `forEach` over `ps`. */
  function Totals(ps: seq<ProjectProgress>): Tally
    decreases |ps|
  {
    if ps == [] then NoTally else Count(Totals(ps[..|ps| - 1]), ps[|ps| - 1])
  }

  /** How many projects have their progress loaded. */
  function LoadedCount(ps: seq<ProjectProgress>): (n: nat)
    ensures n <= |ps|
    decreases |ps|
  {
    if ps == [] then 0 else LoadedCount(ps[..|ps| - 1]) + (if ps[|ps| - 1].progressLoaded then 1 else 0)
  }

  /** What `calculateOrganizationProgress` returns; `efficiency` is absent from the empty result. */
  datatype OrgStats = OrgStats(
    totalProjects: int,
    averageCompletion: int,
    completedProjects: int,
    activeProjects: int,
    pendingProjects: int,
    totalQuestions: int,
    totalAnswered: int,
    efficiency: Option<int>)

  /** The statistics for a list of projects, or all zeros for a missing or empty one. */
  function OrganizationStats(projects: Option<seq<ProjectProgress>>): (r: OrgStats)
    ensures projects.None? || projects.value == [] ==> r == OrgStats(0, 0, 0, 0, 0, 0, 0, None)
    ensures r.efficiency.Some? <==> projects.Some? && projects.value != []
  {
    if projects.None? || projects.value == [] then OrgStats(0, 0, 0, 0, 0, 0, 0, None)
    else
      var ps := projects.value;
      var t := Totals(ps);
      OrgStats(|ps|, Round(t.completion as real / |ps| as real), t.completed, t.active, t.pending,
               t.questions, t.answered,
               Some(if t.questions > 0 then Round(t.answered as real / t.questions as real * 100.0) else 0))
  }

  /** `calculateOrganizationProgress`: the `forEach` over the projects, then the averages. */
  method OrganizationProgress(projects: Option<seq<ProjectProgress>>) returns (stats: OrgStats)
    ensures stats == OrganizationStats(projects)
  {
    if projects.None? || projects.value == [] {
      return OrgStats(0, 0, 0, 0, 0, 0, 0, None);
    }
    var ps := projects.value;
    var totalCompletion, completedCount, activeCount, pendingCount, totalQuestions, totalAnswered := 0, 0, 0, 0, 0, 0;
    var i := 0;
    while i < |ps|
      invariant 0 <= i <= |ps|
      invariant Tally(totalCompletion, completedCount, activeCount, pendingCount, totalQuestions, totalAnswered)
                == Totals(ps[..i])
    {
      assert ps[..i + 1][..i] == ps[..i];
      var project := ps[i];
      if project.progressLoaded {
        totalCompletion := totalCompletion + CountOr0(project.progress);
        totalQuestions := totalQuestions + CountOr0(project.totalQuestions);
        totalAnswered := totalAnswered + CountOr0(project.answeredQuestions);
        if project.status == Completed {
          completedCount := completedCount + 1;
        } else if project.status == Active {
          activeCount := activeCount + 1;
        } else if project.status == Pending {
          pendingCount := pendingCount + 1;
        }
      }
      i := i + 1;
    }
    assert ps[..i] == ps;
    var efficiency := if totalQuestions > 0 then Round(totalAnswered as real / totalQuestions as real * 100.0) else 0;
    stats := OrgStats(|ps|, Round(totalCompletion as real / |ps| as real), completedCount, activeCount, pendingCount,
                      totalQuestions, totalAnswered, Some(efficiency));
  }

  /** The three status counts together never exceed the loaded projects, nor those the whole list. */
  lemma {:induction false} StatusCountsBounded(ps: seq<ProjectProgress>)
    ensures var t := Totals(ps);
            t.completed + t.active + t.pending <= LoadedCount(ps) <= |ps|
    decreases |ps|
  {
    if ps != [] {
      StatusCountsBounded(ps[..|ps| - 1]);
    }
  }

  /**
   * A project whose progress is not loaded changes no figure, yet it still
   * counts in `totalProjects` and so in the divisor of the average.
   */
  lemma {:induction false} UnloadedIgnored(ps: seq<ProjectProgress>, p: ProjectProgress)
    requires !p.progressLoaded
    ensures Totals(ps + [p]) == Totals(ps)
    ensures var r := OrganizationStats(Some(ps + [p]));
            r.totalProjects == |ps| + 1
            && r.averageCompletion == Round(Totals(ps).completion as real / (|ps| + 1) as real)
  {
    assert (ps + [p])[..|ps|] == ps;
  }

  /** With every loaded progress in [0, 100], the summed completion lies in [0, 100 * loaded]. */
  lemma {:induction false} CompletionSumBounds(ps: seq<ProjectProgress>)
    requires forall k :: 0 <= k < |ps| && ps[k].progressLoaded ==> 0 <= CountOr0(ps[k].progress) <= 100
    ensures 0 <= Totals(ps).completion <= 100 * LoadedCount(ps)
    decreases |ps|
  {
    if ps != [] {
      var front := ps[..|ps| - 1];
      assert forall k :: 0 <= k < |front| ==> front[k] == ps[k];
      CompletionSumBounds(front);
    }
  }

  /** With every loaded progress in [0, 100], the average lies in [0, 100]. */
  lemma {:induction false} AverageBounds(ps: seq<ProjectProgress>)
    requires ps != []
    requires forall k :: 0 <= k < |ps| && ps[k].progressLoaded ==> 0 <= CountOr0(ps[k].progress) <= 100
    ensures 0 <= OrganizationStats(Some(ps)).averageCompletion <= 100
  {
    CompletionSumBounds(ps);
    var t := Totals(ps);
    var avg := t.completion as real / |ps| as real;
    RatioBounds(t.completion as real, |ps| as real, 100.0);
    RoundMonotone(0.0, avg);
    RoundMonotone(avg, 100.0);
    assert Round(0.0) == 0 && Round(100.0) == 100;
  }

  /** With answered counts within each loaded project's total, the answered sum stays within the question sum. */
  lemma {:induction false} AnsweredWithinQuestions(ps: seq<ProjectProgress>)
    requires forall k :: 0 <= k < |ps| && ps[k].progressLoaded ==>
               0 <= CountOr0(ps[k].answeredQuestions) <= CountOr0(ps[k].totalQuestions)
    ensures 0 <= Totals(ps).answered <= Totals(ps).questions
    decreases |ps|
  {
    if ps != [] {
      var front := ps[..|ps| - 1];
      assert forall k :: 0 <= k < |front| ==> front[k] == ps[k];
      AnsweredWithinQuestions(front);
    }
  }

  lemma {:induction false} EfficiencyBounds(ps: seq<ProjectProgress>)
    requires ps != []
    requires forall k :: 0 <= k < |ps| && ps[k].progressLoaded ==>
               0 <= CountOr0(ps[k].answeredQuestions) <= CountOr0(ps[k].totalQuestions)
    ensures var e := OrganizationStats(Some(ps)).efficiency;
            e.Some? && 0 <= e.value <= 100
  {
    AnsweredWithinQuestions(ps);
    var t := Totals(ps);
    if t.questions > 0 {
      var share := t.answered as real / t.questions as real;
      RatioBounds(t.answered as real, t.questions as real, 1.0);
      RoundMonotone(0.0, share * 100.0);
      RoundMonotone(share * 100.0, 100.0);
      assert Round(0.0) == 0 && Round(100.0) == 100;
    }
  }

  // ------------------------------------------------------------ validation

  datatype Validation = Validation(valid: bool, errors: seq<string>, warnings: seq<string>)

  const NullData := "Progress data is null or undefined"
  const MissingQuestions := "Missing questions data"
  const InvalidTotal := "Invalid total questions count"
  const MissingBreakdown := "Missing or invalid question status breakdown"
  const NegativeCounts := "Negative values in question status counts"

  function MismatchWarning(statusTotal: int, total: int): string {
    "Status breakdown total (" + IntToString(statusTotal) + ") doesn't match total questions (" + IntToString(total) + ")"
  }

  /** `answered + partially_answered + unanswered`, each defaulting to 0. */
  function StatusTotal(counts: StatusCounts): int {
    CountOr0(counts.answered) + CountOr0(counts.partiallyAnswered) + CountOr0(counts.unanswered)
  }

  predicate HasNegative(counts: StatusCounts) {
    CountOr0(counts.answered) < 0 || CountOr0(counts.partiallyAnswered) < 0 || CountOr0(counts.unanswered) < 0
  }

  /**
   * `validateProgressData`. A `total` that is not a number is `None`, which
   * stands for an absent (`undefined`) total: it is an error, and the
   * mismatch test, `Math.abs(NaN) > 0`, is then false. A `null` total,
   * which the subtraction reads as 0, is not modelled.
   */
  method ValidateProgressData(data: Option<ProgressData>) returns (v: Validation)
    ensures v.valid <==> v.errors == []
    ensures data.None? ==> v == Validation(false, [NullData], [])
    ensures data.Some? && data.value.questions.None? ==> v == Validation(false, [MissingQuestions], [])
    ensures data.Some? && data.value.questions.Some? ==>
              var q := data.value.questions.value;
              && (InvalidTotal in v.errors <==> q.total.None? || q.total.value < 0)
              && (MissingBreakdown in v.errors <==> q.byStatus.None?)
              && (NegativeCounts in v.errors <==> q.byStatus.Some? && HasNegative(q.byStatus.value))
              && (forall e :: e in v.errors ==> e in {InvalidTotal, MissingBreakdown, NegativeCounts})
              && (v.errors != [] && (q.total.None? || q.total.value < 0) ==> v.errors[0] == InvalidTotal)
              && (if q.byStatus.Some? && q.total.Some? && StatusTotal(q.byStatus.value) != q.total.value
                  then v.warnings == [MismatchWarning(StatusTotal(q.byStatus.value), q.total.value)]
                  else v.warnings == [])
  {
    var errors: seq<string> := [];
    var warnings: seq<string> := [];
    if data.None? {
      errors := errors + [NullData];
      return Validation(false, errors, warnings);
    }
    if data.value.questions.None? {
      errors := errors + [MissingQuestions];
    } else {
      var q := data.value.questions.value;
      if q.total.None? || q.total.value < 0 {
        errors := errors + [InvalidTotal];
      }
      if q.byStatus.None? {
        errors := errors + [MissingBreakdown];
      } else {
        var statusTotal := StatusTotal(q.byStatus.value);
        if q.total.Some? && statusTotal - q.total.value != 0 {
          warnings := warnings + [MismatchWarning(statusTotal, q.total.value)];
        }
        if HasNegative(q.byStatus.value) {
          errors := errors + [NegativeCounts];
        }
      }
    }
    v := Validation(|errors| == 0, errors, warnings);
  }
}
