/** From the reveals of a request to its tally transaction. */
module ExpectedTally {
  import opened Options
  import opened Sequences
  import opened Words
  import opened DataRequests
  import opened Masks
  import opened Conditions
  import opened Tally
  import opened TallyReports

  /**
   * Before the second hard fork, the reveals and the script for which no tally can be created:
   * the report panics, or values win and the script is malformed or leaves none of them. Neither
   * an error of the script nor anything else gets a request stuck.
   */
  ghost predicate Stuck(items: seq<Reveal>, script: RadTally, s: Setting) {
    TallyPanics(items, script, s) || !LeavesSome(items, script, s)
  }

  /**
   * `create_expected_tally_transaction`; none when `create_tally` panics: on a report outside the
   * tally stage, on a mask of the wrong length, or dividing by the number of honest witnesses.
   * After the second hard fork that never happens, whatever is revealed and whatever the script
   * does; before it, exactly for the stuck reveals. The tally conserves what the request holds,
   * and slashes exactly the revealers of values that the script flags.
   */
  method CreateExpectedTally(
    dr: DataRequestOutput, pkh: Pkh, items: seq<Reveal>, script: RadTally, s: Setting,
    revealers: seq<Pkh>, committers: set<Pkh>, minimum: U64, wips: Wips)
    returns (r: Option<(TallyTransaction, Report)>)
    requires forall v :: v in items ==> v.discriminant < NUM_TYPES
    requires Proper(script)
    requires |items| == |revealers| && Accountable(dr, minimum, |committers|, |revealers|)
    requires s.commits == |committers| && s.secondHardFork == wips.secondHardFork
    ensures r.None? <==> !wips.secondHardFork && Stuck(items, script, s)
    ensures r.Some? ==>
              var (tally, report) := r.value;
              && report.OneFlagPerReveal(|items|) && |items| <= |committers|
              && (if TallyPanics(items, script, s)
                  then report == Report(Error(Unknown), All(true, |items|), All(true, |items|))
                  else ReportIs(items, script, s, report))
              && Pays(tally.outputs, dr, pkh, report.liars, report.errors, revealers, committers, minimum, wips)
              && Conserving(dr, minimum, report.liars, report.errors, |committers|, wips, OutputsValue(tally.outputs))
    ensures r.Some? && NoRepeats(revealers) && Elements(revealers) <= committers ==>
              forall i: nat :: i < |revealers| ==>
                (revealers[i] in LiarsOf(r.value.0) <==> SlashedBy(items, script, s, i))
  {
    hide HonestCount, Conserving, OutputsValue, TallyPanics, LeavesSome, All, LiarsOf, SlashedBy, Lists, NoRepeats,
         Elements, ReportIs, Pays;
    var safe := RunTallyPanicSafe(items, script, s);
    if safe.None? {
      return None;
    }
    var report := safe.value;
    if !report.OneFlagPerReveal(|items|) || (!wips.secondHardFork && items != [] && HonestCount(report.liars) == 0) {
      return None;
    }
    var tally := CreateTally(dr, pkh, report.liars, report.errors, revealers, committers, minimum, wips);
    r := Some((tally, report));
    if NoRepeats(revealers) && Elements(revealers) <= committers {
      forall i: nat | i < |revealers|
        ensures revealers[i] in LiarsOf(tally) <==> SlashedBy(items, script, s, i)
      {
        LiarsIff(tally, revealers, report.liars, report.errors, committers, wips.secondHardFork, i);
        assert revealers[i] in LiarsOf(tally) <==> Slashes(report, i);
      }
    }
  }

  /** Whenever no type of values wins, whatever the error, no revealer is slashed. */
  lemma OnlyWinningValuesSlash(items: seq<Reveal>, script: RadTally, s: Setting, i: nat)
    requires Proper(script) && i < |items| && forall t: nat :: !ValuesWin(items, s, t)
    ensures !SlashedBy(items, script, s, i)
  {
    hide ValuesWin, TallyPanics, FlagsReveal;
  }

  /** Two different integers and a string: the script ends in a tie, and who revealed the string is slashed. */
  method SlashOnTie(wips: Wips) returns (r: Option<(TallyTransaction, Report)>)
    requires wips.secondHardFork
    ensures r.Some? && 3 in LiarsOf(r.value.0)
  {
    var s := Setting(0.51, 3, true, false, true);
    var script := RadTally(true, _ => Ends([], Error(ModeTie(1))));
    var dr := DataRequestOutput(0, 1, 3, 1, 1);
    hide SlashedBy, LiarsOf, Conserving, OutputsValue, ReportIs, Pays, TallyPanics, Stuck, Accountable, Proper, All,
         NoRepeats, Elements;
    TieSlashes(script, s);
    ThreeWitnesses(dr);
    r := CreateExpectedTally(dr, 0, TwoAndOne(), script, s, [1, 2, 3], {1, 2, 3}, 1, wips);
  }

  lemma ThreeWitnesses(dr: DataRequestOutput)
    requires dr == DataRequestOutput(0, 1, 3, 1, 1)
    ensures |{1, 2, 3}| == 3 && NoRepeats([1, 2, 3]) && Elements([1, 2, 3]) == {1, 2, 3} && Accountable(dr, 1, 3, 3)
  {
  }

  lemma TieSlashes(script: RadTally, s: Setting)
    requires s == Setting(0.51, 3, true, false, true) && script.wellFormed
    requires forall values :: script.run(values) == Ends([], Error(ModeTie(1)))
    ensures Proper(script) && SlashedBy(TwoAndOne(), script, s, 2)
  {
    TwoWin(s);
    var items := TwoAndOne();
    OneLeader(items, 4);
    hide MostFrequentType, Ratio, ErrorsPanic, TypeMask;
    assert |ValuesOf(items, 4)| > 0 by { HonestOfThree(); }
    assert FlaggedByScript(items, script, s, 4, 2);
  }
}
