/** Estimates and offsets. Times are whole numbers of microseconds; floating-point
    numbers are taken as reals. */
module Estimate {
  import opened Common

  // ----- Durations

  const SECOND: int := 1_000_000
  const DAY: int := 86_400 * SECOND
  const DEFAULT_ESTIMATED_DURATION: int := 15 * SECOND

  datatype Interval = Interval(months: int, days: int, microseconds: int)

  /** Division and remainder towards zero. */
  function Quotient(a: int, b: nat): int
    requires b > 0
  {
    if a >= 0 then a / b else -((-a) / b)
  }

  function Remainder(a: int, b: nat): int
    requires b > 0
  {
    a - b * Quotient(a, b)
  }

  /** For instance, 14 months are a year of 365 days and two months of 30 days, and -14 the
      same backwards. */
  lemma MonthsAndYears(days: int, microseconds: int)
    ensures IntervalToDuration(Interval(0, days, microseconds)) == days * 86_400_000_000 + microseconds
    ensures IntervalToDuration(Interval(12, 0, 0)) == 365 * 86_400_000_000
    ensures IntervalToDuration(Interval(1, 0, 0)) == 30 * 86_400_000_000
    ensures IntervalToDuration(Interval(14, days, microseconds)) == (days + 425) * 86_400_000_000 + microseconds
    ensures IntervalToDuration(Interval(-14, days, microseconds)) == (days - 425) * 86_400_000_000 + microseconds
  {
  }

  /** Every further month is 30 days, and every twelfth one makes up for a year of 365. */
  lemma MonthByMonth(i: Interval)
    requires i.months >= 0
    ensures
      var more := i.(months := i.months + 1);
      IntervalToDuration(more) == IntervalToDuration(i) + (if i.months % 12 == 11 then 35 else 30) * 86_400_000_000
  {
    var q := i.months / 12;
    if i.months % 12 == 11 { assert i.months + 1 == 12 * (q + 1); } else { assert (i.months + 1) / 12 == q; }
  }

  /** A month counts as 30 days and a year as 365. */
  function IntervalToDuration(i: Interval): int {
    (i.days + Remainder(i.months, 12) * 30 + Quotient(i.months, 12) * 365) * DAY + i.microseconds
  }

  ghost predicate NonNegative(i: Interval) {
    i.months >= 0 && i.days >= 0 && i.microseconds >= 0
  }

  lemma NonNegativeDuration(i: Interval)
    requires NonNegative(i)
    ensures IntervalToDuration(i) >= 0
  {
    assert Remainder(i.months, 12) == i.months % 12;
    assert Quotient(i.months, 12) >= 0;
  }

  function TotalSeconds(duration: int): real {
    duration as real / 1_000_000.0
  }

  /** To the nearest whole number, ties to even. */
  function RoundTiesEven(x: real): (n: int)
    ensures -0.5 <= n as real - x <= 0.5
    ensures x >= 0.0 ==> n >= 0
  {
    var f := x.Floor;
    var rest := x - f as real;
    if rest < 0.5 then f
    else if rest > 0.5 then f + 1
    else if f % 2 == 0 then f else f + 1
  }

  function TruncatedSeconds(seconds: real): int {
    if seconds >= 0.0 then seconds.Floor else -(-seconds).Floor
  }

  function DurationFromSeconds(seconds: real): int {
    var whole := TruncatedSeconds(seconds);
    whole * SECOND + RoundTiesEven((seconds - whole as real) * 1_000_000.0)
  }

  /** Converting to seconds and back is exact on whole microseconds. */
  lemma SecondsRoundTrip(duration: int)
    ensures DurationFromSeconds(TotalSeconds(duration)) == duration
  {
    var s := TotalSeconds(duration);
    var whole := TruncatedSeconds(s);
    assert (s - whole as real) * 1_000_000.0 == (duration - whole * SECOND) as real;
    var x := (duration - whole * SECOND) as real;
    assert x.Floor == duration - whole * SECOND;
  }

  /** To the nearest microsecond, and to the even one half-way between two. */
  lemma DurationRounds(seconds: real)
    ensures -0.5 <= DurationFromSeconds(seconds) as real - seconds * 1_000_000.0 <= 0.5
  {
    var whole := TruncatedSeconds(seconds);
    var x := (seconds - whole as real) * 1_000_000.0;
    assert DurationFromSeconds(seconds) as real - seconds * 1_000_000.0 == RoundTiesEven(x) as real - x;
  }

  lemma TiesToEven(n: int)
    ensures RoundTiesEven(n as real + 0.5) == if n % 2 == 0 then n else n + 1
  {
    assert (n as real + 0.5).Floor == n;
  }

  lemma DurationNotNegative(seconds: real)
    requires seconds >= 0.0
    ensures DurationFromSeconds(seconds) >= 0
  {
    assert seconds.Floor >= 0;
    assert seconds - seconds.Floor as real >= 0.0;
  }

  // ----- Success probability

  /** A previous run. `relations` says, for a run that failed on unsatisfied dependencies
      which it recorded, whether these are satisfied now. */
  datatype Run = Run(
    resultCode: string, instigatedContext: Option<string>, context: Option<string>,
    relations: Option<bool>, duration: Interval, ageInDays: int)

  predicate Ignored(run: Run) {
    run.resultCode == "worker-failure" && run.ageInDays > 0
  }

  predicate NowSatisfied(run: Run) {
    run.resultCode == "install-deps-unsatisfied-dependencies" && run.relations == Some(true)
  }

  predicate Succeeded(run: Run) {
    run.resultCode == "success" || NowSatisfied(run)
  }

  predicate SameContext(run: Run, context: Option<string>) {
    context.Some? && context.value != "" && (run.instigatedContext == context || run.context == context) && !NowSatisfied(run)
  }

  /** The runs that count, in order. */
  function Counted(runs: seq<Run>): seq<Run>
    decreases |runs|
  {
    if runs == [] then []
    else Counted(runs[..|runs| - 1]) + if Ignored(runs[|runs| - 1]) then [] else [runs[|runs| - 1]]
  }

  function Successes(runs: seq<Run>): (n: nat)
    ensures n <= |runs|
    decreases |runs|
  {
    if runs == [] then 0
    else Successes(runs[..|runs| - 1]) + if Succeeded(runs[|runs| - 1]) then 1 else 0
  }

  function SumOfSeconds(runs: seq<Run>): real
    decreases |runs|
  {
    if runs == [] then 0.0
    else SumOfSeconds(runs[..|runs| - 1]) + TotalSeconds(IntervalToDuration(runs[|runs| - 1].duration))
  }

  ghost predicate AnySame(counted: seq<Run>, context: Option<string>) {
    exists i :: 0 <= i < |counted| && SameContext(counted[i], context)
  }

  /** 0.1 as soon as one counted run had the same context. */
  ghost function Multiplier(counted: seq<Run>, context: Option<string>): real {
    if counted == [] then 1.0
    else if AnySame(counted, context) then 0.1
    else if context.None? then 0.5
    else 1.0
  }

  ghost function Probability(runs: seq<Run>, context: Option<string>): real {
    var counted := Counted(runs);
    Chance(Successes(counted), |counted|, Multiplier(counted, context))
  }

  function Chance(success: nat, total: nat, multiplier: real): real {
    (success * 10 + 1) as real / (total * 10 + 1) as real * multiplier
  }

  /** `codebaseAverage` and `campaignAverage` are what the database averages to. */
  function EstimatedDuration(runs: seq<Run>, codebaseAverage: Option<int>, campaignAverage: Option<int>): int {
    var counted := Counted(runs);
    if counted != [] then DurationFromSeconds(SumOfSeconds(counted) / |counted| as real)
    else if codebaseAverage.Some? then codebaseAverage.value
    else campaignAverage.GetOr(DEFAULT_ESTIMATED_DURATION)
  }

  // ----- What counts

  /** A worker failure that is at least a day old leaves everything as it was, wherever it
      is in the history; no other run is ignored. */
  lemma OldWorkerFailureIgnored(before: seq<Run>, run: Run, after: seq<Run>)
    ensures run.resultCode == "worker-failure" && run.ageInDays > 0 ==> Counted(before + [run] + after) == Counted(before + after)
    ensures run.resultCode != "worker-failure" || run.ageInDays <= 0 ==> Counted(before + [run] + after) == Counted(before) + [run] + Counted(after)
  {
    CountedBoth(before + [run], after);
    CountedBoth(before, [run]);
    CountedBoth(before, after);
    assert [run][..0] == [] && Counted([run]) == Counted([]) + if Ignored(run) then [] else [run];
  }

  lemma {:induction false} CountedBoth(a: seq<Run>, b: seq<Run>)
    ensures Counted(a + b) == Counted(a) + Counted(b)
    decreases |b|
  {
    hide Ignored;
    if b == [] {
      assert a + b == a;
    } else {
      CountedBoth(a, b[..|b| - 1]);
      assert (a + b)[..|a + b| - 1] == a + b[..|b| - 1];
    }
  }

  /** The probability, in numbers: with no run to count it is one; otherwise it is ten times
      the successes and one, over ten times the runs and one, times a half when no context
      is asked for, and a tenth when a run had that context. */
  lemma ProbabilityIs(runs: seq<Run>, context: Option<string>)
    ensures
      var counted := Counted(runs);
      var n, s := |counted| as real, |SuccessesOf(counted)| as real;
      && (counted == [] ==> Probability(runs, context) == 1.0)
      && (counted != [] && context.None? ==> Probability(runs, context) == (10.0 * s + 1.0) / (10.0 * n + 1.0) * 0.5)
      && (counted != [] && context.Some? && !HadContext(counted, context.value) ==>
           Probability(runs, context) == (10.0 * s + 1.0) / (10.0 * n + 1.0))
      && (counted != [] && context.Some? && HadContext(counted, context.value) ==>
           Probability(runs, context) == (10.0 * s + 1.0) / (10.0 * n + 1.0) * 0.1)
  {
    hide Counted, SuccessesOf, HadContext, AnySame;
    var counted := Counted(runs);
    SuccessesAre(counted);
    assert AnySame(counted, context) <==> context.Some? && HadContext(counted, context.value) by { ContextWas(counted, context); }
    var x, y := (10.0 * |SuccessesOf(counted)| as real + 1.0), (10.0 * |counted| as real + 1.0);
    assert (Successes(counted) * 10 + 1) as real == x && (|counted| * 10 + 1) as real == y;
    if counted == [] { assert x == 1.0 && y == 1.0 && x / y == 1.0; }
    TimesOne(x, y);
  }

  lemma TimesOne(x: real, y: real)
    requires y > 0.0
    ensures x / y * 1.0 == x / y
  {
  }

  /** The runs that succeeded, or failed on dependencies that are satisfied by now. */
  function SuccessesOf(runs: seq<Run>): set<nat> {
    set i: nat | i < |runs| &&
      (runs[i].resultCode == "success" || (runs[i].resultCode == "install-deps-unsatisfied-dependencies" && runs[i].relations == Some(true)))
  }

  /** A run had that context, not counting those whose dependencies are satisfied by now. */
  ghost predicate HadContext(runs: seq<Run>, context: string) {
    context != "" && exists i ::
      && 0 <= i < |runs|
      && (runs[i].instigatedContext == Some(context) || runs[i].context == Some(context))
      && !(runs[i].resultCode == "install-deps-unsatisfied-dependencies" && runs[i].relations == Some(true))
  }

  lemma {:induction false} SuccessesAre(runs: seq<Run>)
    ensures Successes(runs) == |SuccessesOf(runs)| <= |runs|
    decreases |runs|
  {
    hide SuccessesOf, Succeeded;
    if runs == [] {
      assert SuccessesOf([]) == {} by { NoSuccess(); }
    } else {
      var n := |runs| - 1;
      SuccessesAre(runs[..n]);
      LastSuccess(runs);
    }
  }

  lemma NoSuccess()
    ensures SuccessesOf([]) == {}
  {
  }

  lemma LastSuccess(runs: seq<Run>)
    requires runs != []
    ensures
      var n := |runs| - 1;
      n !in SuccessesOf(runs[..n]) && SuccessesOf(runs) == SuccessesOf(runs[..n]) + if Succeeded(runs[n]) then {n} else {}
  {
    var n := |runs| - 1;
    assert forall i :: 0 <= i < n ==> runs[..n][i] == runs[i];
  }

  lemma ContextWas(counted: seq<Run>, context: Option<string>)
    ensures AnySame(counted, context) <==> context.Some? && HadContext(counted, context.value)
  {
    if AnySame(counted, context) {
      var i :| 0 <= i < |counted| && SameContext(counted[i], context);
    }
  }

  /** For instance, a single success gives a half without a context, and everything with a
      new one; a single failure with the same context gives one in 110. */
  lemma SingleRun(run: Run)
    requires run.resultCode == "success" || run.resultCode == "build-failed"
    ensures run.resultCode == "success" ==> Probability([run], None) == 0.5
    ensures run.resultCode == "success" && run.context == run.instigatedContext == None ==> Probability([run], Some("new")) == 1.0
    ensures run.resultCode == "build-failed" && run.context == Some("same") ==> Probability([run], Some("same")) == 1.0 / 11.0 * 0.1
  {
    hide Probability, Counted, SuccessesOf, Succeeded;
    OldWorkerFailureIgnored([], run, []);
    var none: seq<Run> := [];
    assert none + [run] + none == [run] && none + none == none && Counted([]) + [run] + Counted([]) == [run] by { NothingCounted([], None); }
    assert run.resultCode != "worker-failure" && run.resultCode != "install-deps-unsatisfied-dependencies" by { Codes(); }
    assert |SuccessesOf([run])| == if run.resultCode == "success" then 1 else 0 by { OneSuccess(run); }
    ProbabilityIs([run], None);
    ProbabilityIs([run], Some("new"));
    ProbabilityIs([run], Some("same"));
    assert [run][0] == run;
  }

  lemma OneSuccess(run: Run)
    requires run.resultCode == "success" || run.resultCode == "build-failed"
    ensures |SuccessesOf([run])| == if run.resultCode == "success" then 1 else 0
  {
    Codes();
    assert SuccessesOf([run]) == if run.resultCode == "success" then {0} else {};
  }

  lemma Codes()
    ensures "success" != "worker-failure" && "build-failed" != "worker-failure" && "build-failed" != "success"
    ensures "success" != "install-deps-unsatisfied-dependencies" && "build-failed" != "install-deps-unsatisfied-dependencies"
  {
    assert |"success"| == 7 && |"worker-failure"| == 14 && |"build-failed"| == 12;
  }

  /** The estimated duration of counted runs that took whole seconds is their mean; without
      any, the averages are tried in turn, and then it is 15 seconds. */
  lemma DurationIs(runs: seq<Run>, codebaseAverage: Option<int>, campaignAverage: Option<int>, seconds: int)
    ensures Counted(runs) == [] && codebaseAverage.Some? ==>
      EstimatedDuration(runs, codebaseAverage, campaignAverage) == codebaseAverage.value
    ensures Counted(runs) == [] && codebaseAverage.None? && campaignAverage.Some? ==>
      EstimatedDuration(runs, codebaseAverage, campaignAverage) == campaignAverage.value
    ensures Counted(runs) == [] && codebaseAverage.None? && campaignAverage.None? ==>
      EstimatedDuration(runs, codebaseAverage, campaignAverage) == 15_000_000
    ensures Counted(runs) != [] && TotalDuration(Counted(runs)) == |Counted(runs)| * seconds ==>
      EstimatedDuration(runs, codebaseAverage, campaignAverage) == seconds
  {
    hide Counted, TotalDuration, TotalSeconds, DurationFromSeconds;
    var counted := Counted(runs);
    if counted != [] && TotalDuration(counted) == |counted| * seconds {
      SumIs(counted);
      MeanOf(TotalDuration(counted), |counted|, seconds);
      SecondsRoundTrip(seconds);
    }
  }

  lemma MeanOf(total: int, n: nat, each: int)
    requires n > 0 && total == n * each
    ensures TotalSeconds(total) / n as real == TotalSeconds(each)
  {
    var x, y := each as real, n as real;
    assert total as real == y * x;
    assert total as real / 1_000_000.0 == y * (x / 1_000_000.0);
  }

  /** In microseconds. */
  function TotalDuration(runs: seq<Run>): int
    decreases |runs|
  {
    if runs == [] then 0 else TotalDuration(runs[..|runs| - 1]) + IntervalToDuration(runs[|runs| - 1].duration)
  }

  lemma {:induction false} SumIs(runs: seq<Run>)
    ensures SumOfSeconds(runs) == TotalSeconds(TotalDuration(runs))
    decreases |runs|
  {
    hide IntervalToDuration;
    if runs != [] { SumIs(runs[..|runs| - 1]); }
  }

  lemma CountedStep(runs: seq<Run>, i: nat)
    requires i < |runs|
    ensures Counted(runs[..i + 1]) == Counted(runs[..i]) + if Ignored(runs[i]) then [] else [runs[i]]
  {
    hide Ignored;
    assert runs[..i + 1][..i] == runs[..i];
  }

  lemma TallyStep(before: seq<Run>, run: Run, context: Option<string>)
    ensures Successes(before + [run]) == Successes(before) + if Succeeded(run) then 1 else 0
    ensures SumOfSeconds(before + [run]) == SumOfSeconds(before) + TotalSeconds(IntervalToDuration(run.duration))
    ensures AnySame(before + [run], context) <==> AnySame(before, context) || SameContext(run, context)
  {
    hide Succeeded, SameContext, TotalSeconds, IntervalToDuration;
    assert (before + [run])[..|before|] == before && (before + [run])[|before|] == run;
    assert forall k :: 0 <= k < |before| ==> (before + [run])[k] == before[k];
  }

  /** The estimating loop. */
  method EstimateSuccess(runs: seq<Run>, context: Option<string>, codebaseAverage: Option<int>, campaignAverage: Option<int>)
    returns (probability: real, duration: int, total: nat)
    ensures probability == Probability(runs, context) && total == |Counted(runs)|
    ensures duration == EstimatedDuration(runs, codebaseAverage, campaignAverage)
    ensures 0.0 < probability <= 1.0
  {
    hide Counted, Successes, SumOfSeconds, AnySame, TotalSeconds, IntervalToDuration, DurationFromSeconds, Ignored;
    total := 0;
    var success: nat := 0;
    var multiplier := if context.None? then 0.5 else 1.0;
    var seconds := 0.0;
    assert Counted(runs[..0]) == [] && Successes([]) == 0 && SumOfSeconds([]) == 0.0 && !AnySame([], context) by { NothingCounted(runs, context); }
    for i := 0 to |runs|
      invariant total == |Counted(runs[..i])| && success == Successes(Counted(runs[..i]))
      invariant seconds == SumOfSeconds(Counted(runs[..i]))
      invariant multiplier == if AnySame(Counted(runs[..i]), context) then 0.1 else if context.None? then 0.5 else 1.0
    {
      var run := runs[i];
      CountedStep(runs, i);
      TallyStep(Counted(runs[..i]), run, context);
      if Ignored(run) {
        assert Counted(runs[..i]) + [] == Counted(runs[..i]);
        continue;
      }
      seconds := seconds + TotalSeconds(IntervalToDuration(run.duration));
      total := total + 1;
      if run.resultCode == "success" {
        success := success + 1;
      }
      var sameContext := context != Some("") && context.Some? && (run.instigatedContext == context || run.context == context);
      if run.resultCode == "install-deps-unsatisfied-dependencies" && run.relations.Some? {
        if run.relations.value {
          success := success + 1;
          sameContext := false;
        }
      }
      if sameContext {
        multiplier := 0.1;
      }
    }
    assert runs[..|runs|] == runs;
    if total == 0 {
      multiplier := 1.0;
      duration := if codebaseAverage.Some? then codebaseAverage.value
                  else if campaignAverage.Some? then campaignAverage.value
                  else DEFAULT_ESTIMATED_DURATION;
    } else {
      duration := DurationFromSeconds(seconds / total as real);
    }
    probability := Chance(success, total, multiplier);
    ProbabilityInRange(runs, context);
  }

  lemma NothingCounted(runs: seq<Run>, context: Option<string>)
    ensures Counted([]) == [] && Counted(runs[..0]) == [] && Successes([]) == 0 && SumOfSeconds([]) == 0.0 && !AnySame([], context)
  {
  }

  /** However the history looks, the probability is positive and at most one. */
  lemma ProbabilityInRange(runs: seq<Run>, context: Option<string>)
    ensures 0.0 < Probability(runs, context) <= 1.0
  {
    hide AnySame, Chance, Counted;
    var counted := Counted(runs);
    ChanceInRange(Successes(counted), |counted|, Multiplier(counted, context));
  }

  lemma ChanceInRange(success: nat, total: nat, multiplier: real)
    requires success <= total && 0.0 < multiplier <= 1.0
    ensures 0.0 < Chance(success, total, multiplier) <= 1.0
  {
    var x, y := (success * 10 + 1) as real, (total * 10 + 1) as real;
    Fraction(x, y);
    var z := x / y;
    assert Chance(success, total, multiplier) == z * multiplier;
    Product(z, multiplier);
  }

  lemma Fraction(x: real, y: real)
    requires 0.0 < x <= y
    ensures 0.0 < x / y <= 1.0
  {
    QuotientPositive(x, y);
    QuotientOrder(x, y, y);
    assert y / y == 1.0;
  }

  lemma Product(x: real, y: real)
    requires 0.0 < x <= 1.0 && 0.0 < y <= 1.0
    ensures 0.0 < x * y <= 1.0
  {
    PositiveProduct(x, y);
    assert (1.0 - x) * y >= 0.0;
    assert (1.0 - x) * y == y - x * y;
  }

  /** Runs that finish after they start give an estimate that is not negative. */
  lemma {:induction false} SumNotNegative(runs: seq<Run>)
    requires forall i :: 0 <= i < |runs| ==> NonNegative(runs[i].duration)
    ensures SumOfSeconds(runs) >= 0.0
    decreases |runs|
  {
    if runs != [] {
      SumNotNegative(runs[..|runs| - 1]);
      NonNegativeDuration(runs[|runs| - 1].duration);
    }
  }

  lemma {:induction false} CountedFrom(runs: seq<Run>)
    ensures forall r :: r in Counted(runs) ==> r in runs
    decreases |runs|
  {
    if runs != [] { CountedFrom(runs[..|runs| - 1]); }
  }

  lemma EstimateNotNegative(runs: seq<Run>, codebaseAverage: Option<int>, campaignAverage: Option<int>)
    requires forall r :: r in runs ==> NonNegative(r.duration)
    requires codebaseAverage.Some? ==> codebaseAverage.value >= 0
    requires campaignAverage.Some? ==> campaignAverage.value >= 0
    ensures EstimatedDuration(runs, codebaseAverage, campaignAverage) >= 0
  {
    var counted := Counted(runs);
    CountedFrom(runs);
    if counted != [] {
      forall i | 0 <= i < |counted| ensures NonNegative(counted[i].duration) {
        assert counted[i] in counted;
      }
      SumNotNegative(counted);
      assert SumOfSeconds(counted) / |counted| as real >= 0.0;
      DurationNotNegative(SumOfSeconds(counted) / |counted| as real);
    }
  }

  // ----- Offsets

  const MINIMUM_COST: real := 20000.0
  const MINIMUM_NORMALIZED_CODEBASE_VALUE: real := 0.1
  const DEFAULT_NORMALIZED_CODEBASE_VALUE: real := 0.5
  const FIRST_RUN_BONUS: real := 100.0

  /** In milliseconds; the microseconds part of the duration is counted twice. */
  function Cost(duration: int): real {
    MINIMUM_COST + (1000.0 * TotalSeconds(duration) + (duration % SECOND) as real / 1000.0)
  }

  function CodebaseValue(normalized: Option<real>): real {
    var v := normalized.GetOr(DEFAULT_NORMALIZED_CODEBASE_VALUE);
    if v > MINIMUM_NORMALIZED_CODEBASE_VALUE then v else MINIMUM_NORMALIZED_CODEBASE_VALUE
  }

  function CandidateValue(value: Option<real>, total: nat): real {
    if value.None? then 1.0 else if total == 0 then value.value + FIRST_RUN_BONUS else value.value
  }

  function EstimatedValue(normalized: Option<real>, probability: real, worth: real): real {
    CodebaseValue(normalized) * probability * worth
  }

  /** The offset; none when one of the assertions fails. */
  function CalculateOffset(duration: int, normalized: Option<real>, probability: real, value: Option<real>, total: nat): Option<real> {
    var worth := CandidateValue(value, total);
    if worth <= 0.0 || probability < 0.0 || probability > 1.0 || Cost(duration) <= 0.0 then None
    else
      var estimated := EstimatedValue(normalized, probability, worth);
      if estimated <= 0.0 then None else Some(Cost(duration) / estimated)
  }

  lemma PositiveProduct(x: real, y: real)
    requires x > 0.0
    ensures x * y > 0.0 <==> y > 0.0
  {
  }

  lemma CostPositive(duration: int)
    requires duration >= 0
    ensures Cost(duration) >= MINIMUM_COST
  {
  }

  /** With a probability and a duration from a run history, the assertions hold if and
      only if the candidate's value (with the bonus for a first run) is positive; and
      then the offset is positive. */
  lemma OffsetExists(duration: int, normalized: Option<real>, probability: real, value: Option<real>, total: nat)
    requires duration >= 0 && 0.0 < probability <= 1.0
    ensures CalculateOffset(duration, normalized, probability, value, total).Some? <==> CandidateValue(value, total) > 0.0
    ensures CalculateOffset(duration, normalized, probability, value, total).Some? ==>
      CalculateOffset(duration, normalized, probability, value, total).value > 0.0
  {
    hide Cost, EstimatedValue, CodebaseValue;
    CostPositive(duration);
    var worth := CandidateValue(value, total);
    EstimatedPositive(normalized, probability, worth);
    if worth > 0.0 { QuotientPositive(Cost(duration), EstimatedValue(normalized, probability, worth)); }
  }

  lemma EstimatedPositive(normalized: Option<real>, probability: real, worth: real)
    requires probability > 0.0
    ensures EstimatedValue(normalized, probability, worth) > 0.0 <==> worth > 0.0
  {
    PositiveProduct(CodebaseValue(normalized), probability);
    PositiveProduct(CodebaseValue(normalized) * probability, worth);
  }

  lemma QuotientPositive(x: real, y: real)
    requires x > 0.0 && y > 0.0
    ensures x / y > 0.0
  {
  }

  /** The offset in numbers: 20 seconds of overhead and the duration (whose part below a
      second counts twice), in milliseconds, over the estimated value; the candidate's
      value is 1 by default, and 100 more for a first run. */
  lemma OffsetIs(seconds: nat, microseconds: nat, normalized: Option<real>, probability: real, value: Option<real>, total: nat)
    requires microseconds < 1_000_000 && 0.0 < probability <= 1.0
    ensures
      var cost := 20000.0 + 1000.0 * seconds as real + microseconds as real / 500.0;
      var worth := match value case None => 1.0 case Some(v) => if total == 0 then v + 100.0 else v;
      var offset := CalculateOffset(seconds * 1_000_000 + microseconds, normalized, probability, value, total);
      if worth > 0.0 then EstimatedValue(normalized, probability, worth) > 0.0 && offset == Some(cost / EstimatedValue(normalized, probability, worth))
      else offset == None
  {
    hide Cost, EstimatedValue, CandidateValue, CodebaseValue, TotalSeconds;
    CostIs(seconds, microseconds);
    CostPositive(seconds * 1_000_000 + microseconds);
    CandidateIs(value, total);
    EstimatedPositive(normalized, probability, CandidateValue(value, total));
  }

  /** The estimated value is the product of the codebase's value, which is at least 0.1 and
      0.5 by default, the probability and the candidate's value. */
  lemma EstimatedIs(normalized: Option<real>, probability: real, worth: real)
    ensures EstimatedValue(normalized, probability, worth)
      == (match normalized case None => 0.5 case Some(v) => if v <= 0.1 then 0.1 else v) * probability * worth
  {
  }

  lemma CostIs(seconds: nat, microseconds: nat)
    requires microseconds < 1_000_000
    ensures Cost(seconds * 1_000_000 + microseconds) == 20000.0 + 1000.0 * seconds as real + microseconds as real / 500.0
  {
    hide TotalSeconds;
    var d := seconds * 1_000_000 + microseconds;
    assert d % 1_000_000 == microseconds;
    SecondsOf(seconds, microseconds);
  }

  lemma CandidateIs(value: Option<real>, total: nat)
    ensures CandidateValue(value, total) == match value case None => 1.0 case Some(v) => if total == 0 then v + 100.0 else v
  {
  }

  lemma SecondsOf(seconds: nat, microseconds: nat)
    ensures 1000.0 * TotalSeconds(seconds * 1_000_000 + microseconds) == 1000.0 * seconds as real + microseconds as real / 1000.0
  {
    assert (seconds * 1_000_000 + microseconds) as real == 1_000_000.0 * seconds as real + microseconds as real;
  }

  /** Twice the cost's unit: how the cost orders durations. */
  function CostKey(duration: int): int {
    500_000 * (duration / SECOND) + duration % SECOND
  }

  lemma CostIsKey(duration: int)
    ensures Cost(duration) == MINIMUM_COST + CostKey(duration) as real / 500.0
  {
    var q, r := duration / SECOND, duration % SECOND;
    assert duration == SECOND * q + r;
    assert duration as real == 1_000_000.0 * q as real + r as real;
    assert 1000.0 * TotalSeconds(duration) == 1000.0 * q as real + r as real / 1000.0;
  }

  lemma QuotientOrder(x: real, y: real, z: real)
    requires z > 0.0
    ensures x / z <= y / z <==> x <= y
  {
    assert x == x / z * z && y == y / z * z;
  }

  /** A longer duration has a higher offset when it is longer by at least a second; in
      general, exactly when its cost key is at least as high. */
  lemma OffsetGrowsWithDuration(d: int, e: int, normalized: Option<real>, probability: real, value: Option<real>, total: nat)
    requires CalculateOffset(d, normalized, probability, value, total).Some?
    requires CalculateOffset(e, normalized, probability, value, total).Some?
    ensures CalculateOffset(d, normalized, probability, value, total).value <= CalculateOffset(e, normalized, probability, value, total).value
            <==> CostKey(d) <= CostKey(e)
    ensures e >= d + SECOND ==> CostKey(d) < CostKey(e)
  {
    CostIsKey(d);
    CostIsKey(e);
    QuotientOrder(Cost(d), Cost(e), EstimatedValue(normalized, probability, CandidateValue(value, total)));
  }

  /** Within less than a second the offset can fall, because of the double counting. */
  lemma OffsetCanFall()
    ensures CalculateOffset(1_999_999, None, 1.0, None, 1).Some? && CalculateOffset(2_000_000, None, 1.0, None, 1).Some?
    ensures CalculateOffset(1_999_999, None, 1.0, None, 1).value > CalculateOffset(2_000_000, None, 1.0, None, 1).value
  {
    OffsetExists(1_999_999, None, 1.0, None, 1);
    OffsetExists(2_000_000, None, 1.0, None, 1);
    OffsetGrowsWithDuration(1_999_999, 2_000_000, None, 1.0, None, 1);
  }

  /** Higher values and probabilities have lower offsets. */
  lemma OffsetFallsWithValue(duration: int, total: nat, n: Option<real>, m: Option<real>, p: real, q: real, v: Option<real>, w: Option<real>)
    requires duration >= 0 && 0.0 < p <= q <= 1.0
    requires CodebaseValue(n) <= CodebaseValue(m) && 0.0 < CandidateValue(v, total) <= CandidateValue(w, total)
    ensures CalculateOffset(duration, n, p, v, total).Some? && CalculateOffset(duration, m, q, w, total).Some?
    ensures CalculateOffset(duration, n, p, v, total).value >= CalculateOffset(duration, m, q, w, total).value
  {
    hide Cost, EstimatedValue, CandidateValue, CodebaseValue;
    OffsetExists(duration, n, p, v, total);
    OffsetExists(duration, m, q, w, total);
    CostPositive(duration);
    EstimatedOrder(n, m, p, q, CandidateValue(v, total), CandidateValue(w, total));
    QuotientFalls(Cost(duration), EstimatedValue(n, p, CandidateValue(v, total)), EstimatedValue(m, q, CandidateValue(w, total)));
  }

  lemma EstimatedOrder(n: Option<real>, m: Option<real>, p: real, q: real, v: real, w: real)
    requires CodebaseValue(n) <= CodebaseValue(m) && 0.0 < p <= q && 0.0 < v <= w
    ensures 0.0 < EstimatedValue(n, p, v) <= EstimatedValue(m, q, w)
  {
    var a, b := CodebaseValue(n), CodebaseValue(m);
    ProductOrder(a, b, p, q);
    ProductOrder(a * p, b * q, v, w);
  }

  lemma ProductOrder(a: real, b: real, c: real, d: real)
    requires 0.0 < a <= b && 0.0 < c <= d
    ensures 0.0 < a * c <= b * d
  {
    assert a * c <= b * c;
    assert b * c <= b * d;
  }

  lemma QuotientFalls(x: real, y: real, z: real)
    requires x > 0.0 && 0.0 < y <= z
    ensures x / y >= x / z
  {
    var u := x / z;
    QuotientPositive(x, z);
    assert u * z == x;
    ProductOrder(u, u, y, z);
    assert u == (u * y) / y;
    QuotientOrder(u * y, x, y);
  }
}
