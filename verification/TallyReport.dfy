/** From reveals to the report of a tally, with one flag of each kind per reveal. */
module TallyReports {
  import opened Options
  import opened Masks
  import opened Conditions

  datatype Outcome = Value(value: Reveal) | Error(error: RadError)

  /**
   * What executing the tally script does with the values: the filters that run report one flag
   * per value they are given, and the outcome is the reducer's value or the error of the step
   * that stopped; or some step panics.
   */
  datatype Execution = Ends(filters: seq<seq<bool>>, outcome: Outcome) | Panics

  /**
   * The tally script of a request. Whether it is well formed does not depend on the values, and
   * the validation of data requests rejects scripts that are not.
   */
  datatype RadTally = RadTally(wellFormed: bool, run: seq<Reveal> -> Execution)

  /** What the report depends on besides the reveals and the script. */
  datatype Setting = Setting(
    minimum: real, commits: nat, secondHardFork: bool, tooManyWitnesses: bool, checks: bool)

  datatype Report = Report(result: Outcome, liars: seq<bool>, errors: seq<bool>)
  {
    /** What `create_tally` asserts of the masks. */
    predicate OneFlagPerReveal(n: nat) {
      |liars| == n && |errors| == n
    }
  }

  function All(flag: bool, n: nat): seq<bool> {
    seq(n, _ => flag)
  }

  lemma {:induction false} AllHonest(n: nat)
    ensures HonestCount(All(false, n)) == n
  {
    if n > 0 {
      AllHonest(n - 1);
      assert All(false, n) == All(false, n - 1) + [false];
      HonestCountLast(All(false, n - 1), false);
    }
  }

  lemma {:induction false} NoneHonest(n: nat)
    ensures HonestCount(All(true, n)) == 0
  {
    if n > 0 {
      NoneHonest(n - 1);
      assert All(true, n) == All(true, n - 1) + [true];
      HonestCountLast(All(true, n - 1), true);
    }
  }

  /** `radon_report_from_error`: everybody is an error and out of consensus. */
  function ReportFromError(error: RadError, n: nat): Report {
    Report(Error(error), All(true, n), All(true, n))
  }

  lemma {:induction false} NothingToRefine(liars: seq<bool>)
    requires HonestCount(liars) == 0
    ensures Refined(liars, []) == liars
    decreases |liars|
  {
    if liars != [] {
      NothingToRefine(liars[..|liars| - 1]);
    }
  }

  /** The filters are chained on the values, and a value is not an error. */
  ghost predicate Fitting(run: Execution, values: nat) {
    run.Ends? ==>
      Chained(values, run.filters) && (run.outcome.Value? ==> run.outcome.value.discriminant != ERROR_TYPE)
  }

  ghost predicate Proper(tally: RadTally) {
    forall values :: Fitting(tally.run(values), |values|)
  }

  lemma {:induction false} ChainedPrefix(count: nat, filters: seq<seq<bool>>, n: nat)
    requires Chained(count, filters) && n <= |filters|
    ensures Chained(count, filters[..n])
    decreases |filters| - n
  {
    if n == |filters| {
      assert filters[..n] == filters;
    } else {
      ChainedPrefix(count, filters, n + 1);
      assert filters[..n + 1][..n] == filters[..n];
    }
  }

  /**
   * `run_tally_report`: only a malformed script is refused. The flags of every filter that runs
   * refine the mask that the precondition clause left, also when a later step stops with an error.
   */
  method RunTallyReport(values: seq<Reveal>, tally: RadTally, liars: seq<bool>, errors: seq<bool>)
    returns (report: Option<Report>)
    requires |values| == HonestCount(liars) && Fitting(tally.run(values), |values|)
    requires tally.wellFormed && values != [] ==> tally.run(values).Ends?
    ensures report.None? <==> !tally.wellFormed
    ensures tally.wellFormed && values == [] ==> report.value == Report(Error(NoReveals), liars, errors)
    ensures tally.wellFormed && values != [] ==>
              var run := tally.run(values);
              report.value == Report(run.outcome, MaskAfter(liars, run.filters), errors)
  {
    if !tally.wellFormed {
      return None;
    }
    if values == [] {
      return Some(Report(Error(NoReveals), liars, errors));
    }
    var metadata := new TallyMetaData(errors, liars);
    var run := tally.run(values);
    var filters := run.filters;
    assert filters[..|filters|] == filters;
    for i := 0 to |filters|
      invariant fresh(metadata) && metadata.errors == errors
      invariant Chained(|values|, filters[..i]) && metadata.liars == MaskAfter(liars, filters[..i])
    {
      ChainedPrefix(|values|, filters, i + 1);
      assert filters[..i + 1][..i] == filters[..i];
      if filters[i] == [] {
        NothingToRefine(metadata.liars);
      }
      metadata.UpdateLiars(filters[i]);
    }
    report := Some(Report(run.outcome, metadata.liars, metadata.errors));
  }

  /** The script is malformed. Before the second hard fork the errors mask is left empty. */
  ghost function Malformed(n: nat, secondHardFork: bool): Report {
    Report(Error(TallyExecution), All(secondHardFork, n), if secondHardFork then All(true, n) else [])
  }

  /** `construct_report_from_clause_result` */
  method ConstructReport(clause: Clause, tally: RadTally, n: nat, secondHardFork: bool) returns (report: Report)
    requires clause.MajorityOfValues? ==>
               && |clause.values| == HonestCount(clause.liars) && |clause.liars| == |clause.errors| == n
               && clause.values != [] && Fitting(tally.run(clause.values), |clause.values|)
               && (tally.wellFormed ==> tally.run(clause.values).Ends?)
    requires !clause.Panicked?
    ensures |report.liars| == n
    ensures report.OneFlagPerReveal(n) <==>
              n == 0 || secondHardFork || !clause.MajorityOfValues? || tally.wellFormed
    ensures clause.MajorityOfValues? && tally.wellFormed ==>
              var run := tally.run(clause.values);
              report == Report(run.outcome, MaskAfter(clause.liars, run.filters), clause.errors)
    ensures clause.MajorityOfValues? && !tally.wellFormed ==> report == Malformed(n, secondHardFork)
    ensures clause.MajorityOfErrors? ==> report == Report(Error(Revealed(clause.mode)), All(false, n), All(true, n))
    ensures clause.Rejected? ==> report == Report(Error(clause.error), All(secondHardFork, n), All(true, n))
  {
    match clause
    case MajorityOfValues(values, liars, errors) =>
      var r := RunTallyReport(values, tally, liars, errors);
      report := if r.Some? then r.value
                else if secondHardFork then ReportFromError(TallyExecution, n)
                else Report(Error(TallyExecution), All(false, n), []);
    case MajorityOfErrors(mode) =>
      report := Report(Error(Revealed(mode)), All(false, n), All(true, n));
    case Rejected(error) =>
      report := if secondHardFork then ReportFromError(error, n) else Report(Error(error), All(false, n), All(true, n));
  }

  /** `evaluate_tally_postcondition_clause`: what the filters left must still be a consensus. */
  function Postcondition(report: Report, minimum: real, commits: nat): (r: Report)
    requires commits > 0 || report.result.Error?
    ensures |r.liars| == |report.liars|
    ensures r == report <==> report.result.Error? || Ratio(HonestCount(report.liars), commits) > minimum
    ensures r != report ==> r.result.Error? && HonestCount(r.liars) == 0
  {
    if report.result.Error? then
      report
    else
      var achieved := Ratio(HonestCount(report.liars), commits);
      NoneHonest(|report.liars|);
      if achieved > minimum then report
      else ReportFromError(InsufficientConsensus(achieved, minimum), |report.liars|)
  }

  // ----- The report, in terms of who wins -----

  function ValuesOf(items: seq<Reveal>, t: nat): (values: seq<Reveal>)
    ensures |values| == HonestCount(TypeMask(items, t))
  {
    Survivors(items, TypeMask(items, t))
  }

  /** Values of type `t` win the precondition clause. */
  ghost predicate ValuesWin(items: seq<Reveal>, s: Setting, t: nat) {
    !s.tooManyWitnesses && t != ERROR_TYPE && TypeWins(items, s.minimum, s.commits, t)
  }

  ghost predicate ErrorsLead(items: seq<Reveal>, s: Setting) {
    !s.tooManyWitnesses && TypeWins(items, s.minimum, s.commits, ERROR_TYPE)
  }

  /** Errors win the precondition clause, and `x` wins among them. */
  ghost predicate CommonError(items: seq<Reveal>, s: Setting, x: Reveal) {
    && ErrorsLead(items, s) && !ErrorsPanic(items, s.checks)
    && ErrorWins(items, s.checks, s.minimum, if s.secondHardFork then s.commits else |items|, x)
  }

  /** Counting the errors panics, or executing the script on the values that win does. */
  ghost predicate TallyPanics(items: seq<Reveal>, tally: RadTally, s: Setting) {
    || (ErrorsLead(items, s) && ErrorsPanic(items, s.checks))
    || (tally.wellFormed && exists t: nat :: ValuesWin(items, s, t) && tally.run(ValuesOf(items, t)).Panics?)
  }

  /** The report when values of type `t` win and the script is executed on them. */
  ghost function Filtered(items: seq<Reveal>, run: Execution, s: Setting, t: nat): (r: Report)
    requires run.Ends? && s.commits > 0 && Chained(HonestCount(TypeMask(items, t)), run.filters)
    ensures |r.liars| == |items|
  {
    var liars := MaskAfter(TypeMask(items, t), run.filters);
    var achieved := Ratio(HonestCount(liars), s.commits);
    if s.secondHardFork && run.outcome.Value? && achieved <= s.minimum
    then Report(Error(InsufficientConsensus(achieved, s.minimum)), All(true, |items|), All(true, |items|))
    else Report(run.outcome, liars, ErrorsMask(items))
  }

  /**
   * When the report carries the script's outcome, a value or an error, its `false` flags line up,
   * in order, with the values that the filters left, and every reveal of another type stays
   * flagged.
   */
  lemma FilteredAligns(items: seq<Reveal>, run: Execution, s: Setting, t: nat)
    requires run.Ends? && s.commits > 0 && Chained(HonestCount(TypeMask(items, t)), run.filters)
    requires Filtered(items, run, s, t).result == run.outcome
    ensures var liars := Filtered(items, run, s, t).liars;
            && Survivors(items, liars) == ValuesAfter(ValuesOf(items, t), run.filters)
            && forall i :: 0 <= i < |items| && items[i].discriminant != t ==> liars[i]
  {
    hide Survivors, ValuesAfter, MaskAfter, Chained, HonestCount, Ratio, ErrorsMask;
    ChainAligns(items, TypeMask(items, t), run.filters);
  }

  lemma FilteredIs(items: seq<Reveal>, run: Execution, s: Setting, t: nat, report: Report)
    requires run.Ends? && s.commits > 0 && Chained(HonestCount(TypeMask(items, t)), run.filters)
    requires report == Report(run.outcome, MaskAfter(TypeMask(items, t), run.filters), ErrorsMask(items))
    ensures Filtered(items, run, s, t)
            == if s.secondHardFork then Postcondition(report, s.minimum, s.commits) else report
  {
    hide TypeMask, MaskAfter, Chained, HonestCount, Ratio, ErrorsMask;
  }

  /**
   * The error that the report has when no type of values wins: which of the checks is not passed,
   * with the count or the share it is not passed with, or the error that most reveals agree on.
   */
  ghost predicate ReportsError(items: seq<Reveal>, s: Setting, e: RadError) {
    if s.tooManyWitnesses then e == TooManyWitnesses
    else if s.commits == 0 then e == InsufficientCommits
    else if items == [] then e == NoReveals
    else exists n :: LargestCount(items, n) && ErrorFor(items, s, n, e)
  }

  /** The error when the most frequent types have `n` reveals each. */
  ghost predicate ErrorFor(items: seq<Reveal>, s: Setting, n: nat, e: RadError)
    requires s.commits > 0 && items != []
  {
    if Ratio(n, s.commits) < s.minimum then e == InsufficientConsensus(Ratio(n, s.commits), s.minimum)
    else if !MostFrequentType(items, ERROR_TYPE) then e == ModeTie(n)
    else exists m :: IsErrorMode(items, s.checks, m) && ErrorForMode(items, s, m, e)
  }

  /** The error when errors are the most frequent type and `m` is the mode among them. */
  ghost predicate ErrorForMode(items: seq<Reveal>, s: Setting, m: Mode, e: RadError)
    requires s.commits > 0 && items != []
  {
    var achieved := Ratio(CountOf(items, m), if s.secondHardFork then s.commits else |items|);
    if achieved < s.minimum then e == InsufficientConsensus(achieved, s.minimum)
    else if m.Single? then e == Revealed(m.item)
    else m.Tie? && e == ModeTie(m.maxCount)
  }

  lemma EarlyError(items: seq<Reveal>, s: Setting)
    requires s.tooManyWitnesses || s.commits == 0 || items == []
    ensures ReportsError(items, s, if s.tooManyWitnesses then TooManyWitnesses
                                   else if s.commits == 0 then InsufficientCommits else NoReveals)
  {
  }

  lemma ClauseError(items: seq<Reveal>, s: Setting, n: nat, clause: Clause)
    requires !s.tooManyWitnesses && s.commits > 0 && items != [] && LargestCount(items, n)
    requires ClauseIs(items, s.checks, s.minimum, s.commits, if s.secondHardFork then s.commits else |items|, n, clause)
    ensures clause.Rejected? ==> ReportsError(items, s, clause.error)
    ensures clause.MajorityOfErrors? ==> ReportsError(items, s, Revealed(clause.mode))
  {
    hide Ratio, LargestCount, MostFrequentType, IsMode, ErrorsPanic, TypeMask, Survivors, ErrorsMask, CountOf;
    var of := if s.secondHardFork then s.commits else |items|;
    if Ratio(n, s.commits) >= s.minimum && MostFrequentType(items, ERROR_TYPE)
       && (clause.Rejected? || clause.MajorityOfErrors?) {
      var m :| IsErrorMode(items, s.checks, m) && clause == ErrorVerdict(items, s.minimum, of, m);
      CountOfMode(items, m);
      assert ErrorForMode(items, s, m, if clause.Rejected? then clause.error else Revealed(clause.mode));
    }
    assert clause.Rejected? ==> ErrorFor(items, s, n, clause.error);
    assert clause.MajorityOfErrors? ==> ErrorFor(items, s, n, Revealed(clause.mode));
  }

  lemma CountOfMode(items: seq<Reveal>, m: Mode)
    ensures m.Single? ==> CountOf(items, m) == Occurrences(items, m.item)
    ensures m.Tie? ==> CountOf(items, m) == m.maxCount
  {
  }

  /** The precondition clause, in terms of the type that wins. */
  method WinningClause(items: seq<Reveal>, s: Setting) returns (clause: Clause)
    requires forall v :: v in items ==> v.discriminant < NUM_TYPES
    ensures clause.MajorityOfValues? ==>
              s.commits > 0 && clause.values != [] && exists t: nat :: ValuesWin(items, s, t)
    ensures forall t: nat :: ValuesWin(items, s, t) ==>
              clause == MajorityOfValues(ValuesOf(items, t), TypeMask(items, t), ErrorsMask(items))
    ensures clause.Panicked? <==> ErrorsLead(items, s) && ErrorsPanic(items, s.checks)
    ensures clause.Rejected? ==> !clause.error.Revealed? && ReportsError(items, s, clause.error)
    ensures clause.MajorityOfErrors? ==> ReportsError(items, s, Revealed(clause.mode))
    ensures forall x :: CommonError(items, s, x) ==> clause == MajorityOfErrors(x)
  {
    hide ReportsError, TypeMask, Discriminants, Occurrences, Ratio, ErrorsMask, HonestCount, Survivors, MostFrequentType, IsMode,
         ErrorsOf, ClauseIs, ErrorsPanic, LargestCount;
    clause := EvaluatePrecondition(items, s.checks, s.minimum, s.commits, s.secondHardFork, s.tooManyWitnesses);
    var of := if s.secondHardFork then s.commits else |items|;
    if s.tooManyWitnesses || s.commits == 0 || items == [] {
      if items == [] {
        NobodyWins();
      }
      EarlyError(items, s);
    } else {
      ghost var n: nat :| LargestCount(items, n) && ClauseIs(items, s.checks, s.minimum, s.commits, of, n, clause);
      forall t: nat
        ensures TypeWins(items, s.minimum, s.commits, t)
           <==> MostFrequentType(items, t) && Ratio(n, s.commits) >= s.minimum
      {
        LeaderCount(items, n, t);
      }
      ValuesClause(items, s, of, n, clause);
      ErrorsClause(items, s, of, n, clause);
      ClauseError(items, s, n, clause);
      if clause.MajorityOfValues? {
        ghost var winner: nat :| winner != ERROR_TYPE && MostFrequentType(items, winner);
        assert ValuesWin(items, s, winner);
      }
    }
  }

  lemma NobodyWins()
    ensures forall t: nat :: !MostFrequentType([], t)
  {
    assert Discriminants([]) == [];
    forall t: nat
      ensures !MostFrequentType([], t)
    {
      var u: nat := t + 1;
      assert !(Occurrences(Discriminants([]), u) < Occurrences(Discriminants([]), t));
    }
  }

  lemma LeaderCount(items: seq<Reveal>, n: nat, t: nat)
    requires LargestCount(items, n)
    ensures MostFrequentType(items, t) ==> Occurrences(Discriminants(items), t) == n
  {
    var u: nat :| Occurrences(Discriminants(items), u) == n;
    hide Occurrences, Discriminants;
  }

  lemma ValuesClause(items: seq<Reveal>, s: Setting, of: nat, n: nat, clause: Clause)
    requires s.commits > 0 && of > 0 && LargestCount(items, n)
    requires ClauseIs(items, s.checks, s.minimum, s.commits, of, n, clause)
    ensures clause.MajorityOfValues? ==>
              clause.values != [] && Ratio(n, s.commits) >= s.minimum
              && exists t: nat :: t != ERROR_TYPE && MostFrequentType(items, t)
    ensures Ratio(n, s.commits) >= s.minimum ==>
              forall t: nat :: t != ERROR_TYPE && MostFrequentType(items, t) ==>
                clause == MajorityOfValues(ValuesOf(items, t), TypeMask(items, t), ErrorsMask(items))
  {
    hide Ratio, Occurrences, Survivors, TypeMask, ErrorsMask, HonestCount, Discriminants, IsMode, ErrorsPanic;
    if clause.MajorityOfValues? {
      var t: nat :| MostFrequentType(items, t);
      TypeMaskCount(items, t);
      var u: nat := t + 1;
      assert Occurrences(Discriminants(items), u) < Occurrences(Discriminants(items), t);
      assert t != ERROR_TYPE ==> |clause.values| == |ValuesOf(items, t)|;
    }
  }

  lemma ErrorsClause(items: seq<Reveal>, s: Setting, of: nat, n: nat, clause: Clause)
    requires s.commits > 0 && of > 0 && ClauseIs(items, s.checks, s.minimum, s.commits, of, n, clause)
    ensures clause.Panicked? <==>
              Ratio(n, s.commits) >= s.minimum && MostFrequentType(items, ERROR_TYPE) && ErrorsPanic(items, s.checks)
    ensures Ratio(n, s.commits) >= s.minimum && MostFrequentType(items, ERROR_TYPE) && !ErrorsPanic(items, s.checks) ==>
              forall x :: ErrorWins(items, s.checks, s.minimum, of, x) ==> clause == MajorityOfErrors(x)
  {
    hide Ratio, Occurrences, Survivors, TypeMask, ErrorsMask, IsMode, MostFrequentType, ErrorsPanic, ErrorsOf;
    RejectedIff(items, s.checks, s.minimum, s.commits, of, n, clause);
    if Ratio(n, s.commits) >= s.minimum && MostFrequentType(items, ERROR_TYPE) && !ErrorsPanic(items, s.checks) {
      OneLeader(items, ERROR_TYPE);
      var m :| IsErrorMode(items, s.checks, m) && clause == ErrorVerdict(items, s.minimum, of, m);
      forall x | ErrorWins(items, s.checks, s.minimum, of, x) ensures clause == MajorityOfErrors(x) {
        ModeUnique(ErrorsOf(items), s.checks, m, Single(x));
      }
    }
  }

  /**
   * The report, when nothing panics. If a type of values wins, it has what the script makes of
   * them. Otherwise it has the error that says why, and only a common error spares the revealers
   * the flags after the second hard fork.
   */
  ghost predicate ReportIs(items: seq<Reveal>, tally: RadTally, s: Setting, report: Report)
    requires Proper(tally) && !TallyPanics(items, tally, s)
  {
    && (forall t: nat :: ValuesWin(items, s, t) ==>
          assert Fitting(tally.run(ValuesOf(items, t)), |ValuesOf(items, t)|);
          report == if tally.wellFormed then Filtered(items, tally.run(ValuesOf(items, t)), s, t)
                    else Malformed(|items|, s.secondHardFork))
    && ((forall t: nat :: !ValuesWin(items, s, t)) ==>
          && report.result.Error? && ReportsError(items, s, report.result.error)
          && report.errors == All(true, |items|)
          && report.liars == All(s.secondHardFork && !report.result.error.Revealed?, |items|))
  }

  /**
   * `run_tally`, from the reveals to the report; none when it panics. The masks have one flag per
   * reveal unless, before the second hard fork, a type of values wins and the script is malformed.
   */
  method RunTally(items: seq<Reveal>, tally: RadTally, s: Setting) returns (r: Option<Report>)
    requires forall v :: v in items ==> v.discriminant < NUM_TYPES
    requires Proper(tally)
    ensures r.None? <==> TallyPanics(items, tally, s)
    ensures r.Some? ==> |r.value.liars| == |items|
    ensures r.Some? ==>
              (r.value.OneFlagPerReveal(|items|) <==>
               s.secondHardFork || tally.wellFormed || forall t: nat :: !ValuesWin(items, s, t))
    ensures r.Some? ==> ReportIs(items, tally, s, r.value)
    ensures forall x :: CommonError(items, s, x) ==>
              r == Some(Report(Error(Revealed(x)), All(false, |items|), All(true, |items|)))
  {
    hide ReportsError, TypeMask, ErrorsMask, HonestCount, CommonError, ErrorsLead, ErrorsPanic, ValuesWin, ValuesOf, Chained,
         MaskAfter, Filtered;
    var clause := WinningClause(items, s);
    if clause.Panicked? {
      return None;
    }
    if clause.MajorityOfValues? {
      assert Fitting(tally.run(clause.values), |clause.values|);
      if tally.wellFormed && tally.run(clause.values).Panics? {
        return None;
      }
    }
    var report := ConstructReport(clause, tally, |items|, s.secondHardFork);
    forall t: nat | ValuesWin(items, s, t) && tally.wellFormed
      ensures Filtered(items, tally.run(ValuesOf(items, t)), s, t)
              == if s.secondHardFork then Postcondition(report, s.minimum, s.commits) else report
    {
      FilteredIs(items, tally.run(ValuesOf(items, t)), s, t, report);
    }
    if s.secondHardFork {
      report := Postcondition(report, s.minimum, s.commits);
    }
    r := Some(report);
  }

  // ----- Who is slashed -----

  /** The revealer is out of consensus with a value, and somebody is in it. */
  ghost predicate Slashes(report: Report, i: nat)
    requires i < |report.liars| && i < |report.errors|
  {
    HonestCount(report.liars) > 0 && report.liars[i] && !report.errors[i]
  }

  /**
   * Values of type `t` win, the filters leave some of them but flag reveal `i`, which is no error,
   * and the outcome stands: it is an error, or enough of the values are left.
   */
  ghost predicate FlaggedByScript(items: seq<Reveal>, tally: RadTally, s: Setting, t: nat, i: nat)
    requires Proper(tally) && i < |items|
  {
    && ValuesWin(items, s, t) && tally.wellFormed
    && var run := tally.run(ValuesOf(items, t));
       && run.Ends? && FlagsReveal(items, run, s, t, i)
  }

  ghost predicate FlagsReveal(items: seq<Reveal>, run: Execution, s: Setting, t: nat, i: nat)
    requires run.Ends? && s.commits > 0 && Fitting(run, |ValuesOf(items, t)|) && i < |items|
  {
    var left := LeftAfter(|ValuesOf(items, t)|, run.filters);
    && left > 0
    && MaskAfter(TypeMask(items, t), run.filters)[i]
    && items[i].discriminant != ERROR_TYPE
    && (s.secondHardFork && run.outcome.Value? ==> Ratio(left, s.commits) > s.minimum)
  }

  /** Nothing panics, and the script flags the reveal, which is not an error, but leaves others. */
  ghost predicate SlashedBy(items: seq<Reveal>, tally: RadTally, s: Setting, i: nat)
    requires Proper(tally) && i < |items|
  {
    !TallyPanics(items, tally, s) && exists t: nat :: FlaggedByScript(items, tally, s, t, i)
  }

  lemma FilteredSlashes(items: seq<Reveal>, run: Execution, s: Setting, t: nat, i: nat)
    requires run.Ends? && s.commits > 0 && Fitting(run, |ValuesOf(items, t)|) && i < |items|
    ensures Filtered(items, run, s, t).OneFlagPerReveal(|items|)
    ensures Slashes(Filtered(items, run, s, t), i) <==> FlagsReveal(items, run, s, t, i)
  {
    hide TypeMask, HonestCount, LeftAfter, Ratio, Chained, MaskAfter;
    NoneHonest(|items|);
  }

  /** Exactly who is slashed, whether the report has a value or an error. */
  lemma SlashedIff(items: seq<Reveal>, tally: RadTally, s: Setting, report: Report, i: nat)
    requires Proper(tally) && report.OneFlagPerReveal(|items|) && i < |items|
    requires !TallyPanics(items, tally, s) && ReportIs(items, tally, s, report)
    ensures Slashes(report, i) <==> exists t: nat :: FlaggedByScript(items, tally, s, t, i)
  {
    hide HonestCount, Filtered, FlagsReveal, MostFrequentType, Ratio, TypeMask, Chained, ReportsError, TallyPanics;
    NoneHonest(|items|);
    EndsUnlessPanics(items, tally, s);
    forall t: nat | ValuesWin(items, s, t)
      ensures Slashes(report, i) <==> FlaggedByScript(items, tally, s, t, i)
    {
      assert Fitting(tally.run(ValuesOf(items, t)), |ValuesOf(items, t)|);
      if tally.wellFormed {
        FilteredSlashes(items, tally.run(ValuesOf(items, t)), s, t, i);
      }
    }
    if exists t: nat :: ValuesWin(items, s, t) {
      var t: nat :| ValuesWin(items, s, t);
      if Slashes(report, i) {
        assert FlaggedByScript(items, tally, s, t, i);
      }
    }
  }

  // ----- The panic-safe report -----

  /**
   * `run_tally_panic_safe`: after the second hard fork a panic becomes a report that flags
   * everybody; before it, a report that is not in the tally stage, which stands for none here.
   */
  method RunTallyPanicSafe(items: seq<Reveal>, tally: RadTally, s: Setting) returns (r: Option<Report>)
    requires forall v :: v in items ==> v.discriminant < NUM_TYPES
    requires Proper(tally)
    ensures r.None? <==> !s.secondHardFork && TallyPanics(items, tally, s)
    ensures !TallyPanics(items, tally, s) ==> ReportIs(items, tally, s, r.value)
    ensures s.secondHardFork ==> r.value.OneFlagPerReveal(|items|)
    ensures s.secondHardFork && TallyPanics(items, tally, s) ==>
              r.value == Report(Error(Unknown), All(true, |items|), All(true, |items|))
    ensures !s.secondHardFork && r.Some? ==>
              (r.value.OneFlagPerReveal(|items|) && (items == [] || HonestCount(r.value.liars) > 0) <==>
               LeavesSome(items, tally, s))
    ensures r.Some? && r.value.OneFlagPerReveal(|items|) ==>
              forall i: nat :: i < |items| ==> (Slashes(r.value, i) <==> SlashedBy(items, tally, s, i))
  {
    r := RunTally(items, tally, s);
    hide HonestCount, ValuesWin, Filtered, TallyPanics, ValuesOf, Chained, LeftAfter, Malformed, All,
         FlaggedByScript, ReportIs;
    if r.None? {
      if s.secondHardFork {
        r := Some(ReportFromError(Unknown, |items|));
        NoneHonest(|items|);
      }
    } else {
      if !s.secondHardFork {
        LeavesSomeIff(items, tally, s, r.value);
      }
      if r.value.OneFlagPerReveal(|items|) {
        forall i: nat | i < |items|
          ensures Slashes(r.value, i) <==> SlashedBy(items, tally, s, i)
        {
          SlashedIff(items, tally, s, r.value, i);
        }
      }
    }
  }

  lemma EndsUnlessPanics(items: seq<Reveal>, tally: RadTally, s: Setting)
    requires !TallyPanics(items, tally, s)
    ensures forall t: nat :: ValuesWin(items, s, t) && tally.wellFormed ==> tally.run(ValuesOf(items, t)).Ends?
  {
    hide ValuesWin, ValuesOf, ErrorsLead, ErrorsPanic;
  }

  /** The script is well formed and leaves some of the winning values. */
  ghost predicate LeavesSome(items: seq<Reveal>, tally: RadTally, s: Setting) {
    forall t: nat :: ValuesWin(items, s, t) ==>
      tally.wellFormed && Leaves(|ValuesOf(items, t)|, tally.run(ValuesOf(items, t)))
  }

  ghost predicate Leaves(count: nat, run: Execution) {
    run.Ends? && LeftAfter(count, run.filters) > 0
  }

  lemma FilteredCount(items: seq<Reveal>, run: Execution, s: Setting, t: nat)
    requires run.Ends? && s.commits > 0 && !s.secondHardFork && Fitting(run, |ValuesOf(items, t)|)
    ensures HonestCount(Filtered(items, run, s, t).liars) == LeftAfter(|ValuesOf(items, t)|, run.filters)
    ensures Filtered(items, run, s, t).OneFlagPerReveal(|items|)
  {
    hide TypeMask, HonestCount, LeftAfter, Ratio, ErrorsMask;
  }

  /** Before the second hard fork, a report has full masks and somebody honest if and only if values are left. */
  lemma LeavesSomeIff(items: seq<Reveal>, tally: RadTally, s: Setting, report: Report)
    requires Proper(tally) && !s.secondHardFork && !TallyPanics(items, tally, s) && ReportIs(items, tally, s, report)
    ensures report.OneFlagPerReveal(|items|) && (items == [] || HonestCount(report.liars) > 0)
       <==> LeavesSome(items, tally, s)
  {
    hide HonestCount, Filtered, Chained, LeftAfter, MostFrequentType, Ratio, TallyPanics, ReportsError;
    AllHonest(|items|);
    EndsUnlessPanics(items, tally, s);
    forall t: nat | ValuesWin(items, s, t)
      ensures items != []
      ensures tally.wellFormed ==>
                && report.OneFlagPerReveal(|items|)
                && HonestCount(report.liars) == LeftAfter(|ValuesOf(items, t)|, tally.run(ValuesOf(items, t)).filters)
    {
      NobodyWins();
      if tally.wellFormed {
        assert Fitting(tally.run(ValuesOf(items, t)), |ValuesOf(items, t)|);
        FilteredCount(items, tally.run(ValuesOf(items, t)), s, t);
      }
    }
  }

  // ----- Concrete reveals -----

  /** The only reveal wins, with one commit. */
  lemma LoneRevealWins(v: Reveal, s: Setting)
    requires v.discriminant != ERROR_TYPE && s.minimum <= 1.0 && s.commits == 1 && !s.tooManyWitnesses
    ensures ValuesWin([v], s, v.discriminant) && ValuesOf([v], v.discriminant) == [v]
  {
    var t := v.discriminant;
    assert Discriminants([v]) == [t];
    forall u: nat
      ensures Occurrences([t], u) == if u == t then 1 else 0
    {
      OccurrencesLast([], t, u);
      assert [] + [t] == [t];
    }
    assert Occurrences(Discriminants([v]), t) == 1;
    assert TypeMask([v], t) == [] + [false] && [v] == [] + [v];
    SurvivorsLast([], [], v, false);
  }

  /** 128 reveals of one error and one of another, with 129 commits and overflow checks: no report. */
  lemma CrowdPanics(a: Reveal, b: Reveal, tally: RadTally, secondHardFork: bool)
    requires a.discriminant == b.discriminant == ERROR_TYPE && a != b
    ensures TallyPanics(seq(128, _ => a) + [b], tally, Setting(0.51, 129, secondHardFork, false, true))
  {
    var items := seq(128, _ => a) + [b];
    RareErrorIsElected(a, b);
    AllSame(Discriminants(items), ERROR_TYPE);
    forall t: nat | t != ERROR_TYPE
      ensures Occurrences(Discriminants(items), t) == 0
    {
      Absent(Discriminants(items), t);
    }
    hide Occurrences, Discriminants, ErrorsPanic, IsErrorMode;
    assert MostFrequentType(items, ERROR_TYPE);
  }

  /** Before the second hard fork a malformed script, which validation rejects, would lose the errors mask. */
  method LoseErrorsMask() returns (r: Option<Report>)
    ensures r == Some(Report(Error(TallyExecution), [false], []))
  {
    var v, s := Reveal(4, 7), Setting(0.51, 1, false, false, true);
    LoneRevealWins(v, s);
    var tally := RadTally(false, _ => Panics);
    r := RunTally([v], tally, s);
    assert ValuesWin([v], s, 4);
    assert All(false, 1) == [false];
  }

  /** Before the second hard fork, a filter that flags the only reveal leaves nobody honest. */
  method LeaveNobodyHonest() returns (r: Option<Report>)
    ensures r.Some? && r.value.OneFlagPerReveal(1) && HonestCount(r.value.liars) == 0
  {
    var v, s := Reveal(4, 7), Setting(0.51, 1, false, false, true);
    LoneRevealWins(v, s);
    var tally := RadTally(true, values => Ends([All(true, |values|)], Value(v)));
    forall values: seq<Reveal> ensures Fitting(tally.run(values), |values|) {
      FlagsAll(|values|);
    }
    r := RunTally([v], tally, s);
    assert ValuesWin([v], s, 4);
    FlagsAll(1);
    NoneHonest(1);
    FilteredCount([v], tally.run([v]), s, 4);
  }

  lemma FlagsAll(n: nat)
    ensures Chained(n, [All(true, n)])
  {
    var filters := [All(true, n)];
    assert filters[..0] == [];
  }

  // ----- Two integers and a string -----

  function TwoAndOne(): seq<Reveal> {
    [Reveal(4, 1), Reveal(4, 2), Reveal(5, 9)]
  }

  lemma TwoWin(s: Setting)
    requires s.minimum <= 0.6 && s.commits == 3 && !s.tooManyWitnesses
    ensures ValuesWin(TwoAndOne(), s, 4)
    ensures TypeMask(TwoAndOne(), 4) == [false, false, true] && ErrorsMask(TwoAndOne()) == [false, false, false]
  {
    assert TypeMask(TwoAndOne(), 4) == [false, false, true] && ErrorsMask(TwoAndOne()) == [false, false, false];
    hide TypeMask, ErrorsMask;
    var types := Discriminants(TwoAndOne());
    assert types == [4] + [4] + [5] && [4] == [] + [4];
    forall u: nat
      ensures Occurrences(types, u) == if u == 4 then 2 else if u == 5 then 1 else 0
    {
      OccurrencesLast([], 4, u);
      OccurrencesLast([4], 4, u);
      OccurrencesLast([4] + [4], 5, u);
    }
    hide Occurrences, Discriminants;
    assert MostFrequentType(TwoAndOne(), 4);
  }

  /**
   * Two different integers and a string, three commits: the script ends in a tie, and the report
   * keeps the masks, so that the third revealer is out of consensus with a value.
   */
  method TieKeepsMasks(s: Setting) returns (r: Option<Report>)
    requires s.minimum <= 0.6 && s.commits == 3 && !s.tooManyWitnesses
    ensures r == Some(Report(Error(ModeTie(1)), [false, false, true], [false, false, false]))
    ensures Slashes(r.value, 2) && !Slashes(r.value, 0) && !Slashes(r.value, 1)
  {
    TwoWin(s);
    var tally := RadTally(true, _ => Ends([], Error(ModeTie(1))));
    r := RunTally(TwoAndOne(), tally, s);
    assert ValuesWin(TwoAndOne(), s, 4);
    HonestOfThree();
  }

  lemma HonestOfThree()
    ensures HonestCount([false, false, true]) == 2
  {
    RefineNothing();
    hide HonestCount, Refined;
    HonestCountLast([], false);
    HonestCountLast([] + [false], false);
    HonestCountLast([] + [false] + [false], true);
    assert [] + [false] + [false] + [true] == [false, false, true];
  }
}
