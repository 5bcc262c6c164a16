/** `create_tally` and the accounting of what a data request holds. */
module Tally {
  import opened Options
  import opened Words
  import opened Arithmetic
  import opened Sequences
  import opened DataRequests
  import opened Masks

  // ----- What a request holds -----

  datatype Stage = Commit | Reveal | Tally
  datatype RequestState = RequestState(dr: DataRequestOutput, stage: Stage, commits: nat, revealed: nat)

  /** Collateral of zero stands for the minimum. */
  function CollateralOf(dr: DataRequestOutput, minimum: U64): U64 {
    if dr.collateral == 0 then minimum else dr.collateral
  }

  /** What `locked_wits_by_requests` counts for one request; it unwraps the total value. */
  function LockedBy(s: RequestState, minimum: U64): nat {
    match s.stage
    case Commit => s.dr.TotalValue()
    case Reveal | Tally =>
      var fee := s.dr.commitAndRevealFee;
      var collateralized := SaturatingMul(s.commits, CollateralOf(s.dr, minimum), U64_MAX);
      SaturatingSub(
        SaturatingSub(
          SaturatingAdd(s.dr.TotalValue(), collateralized, U64_MAX),
          SaturatingMul(s.commits, fee, U64_MAX)),
        SaturatingMul(s.revealed, fee, U64_MAX))
  }

  function LockedTotal(pool: seq<RequestState>, minimum: U64): nat {
    if pool == [] then 0
    else LockedTotal(pool[..|pool| - 1], minimum) + LockedBy(pool[|pool| - 1], minimum)
  }

  /** The sum over all requests; none when it does not fit in a word, where the source panics. */
  method LockedWitsByRequests(pool: seq<RequestState>, minimum: U64) returns (total: Option<U64>)
    requires forall s :: s in pool ==> s.dr.CheckedTotalValue().Some?
    ensures total == if LockedTotal(pool, minimum) <= U64_MAX then Some(LockedTotal(pool, minimum)) else None
  {
    var sum: U64 := 0;
    assert pool[..|pool|] == pool;
    for i := 0 to |pool|
      invariant sum == LockedTotal(pool[..i], minimum)
    {
      assert pool[..i + 1][..i] == pool[..i];
      LockedGrows(pool, minimum, i + 1);
      var next := sum + LockedBy(pool[i], minimum);
      if next > U64_MAX {
        return None;
      }
      sum := next;
    }
    total := Some(sum);
  }

  lemma {:induction false} LockedGrows(pool: seq<RequestState>, minimum: U64, n: nat)
    requires n <= |pool|
    ensures LockedTotal(pool[..n], minimum) <= LockedTotal(pool, minimum)
    decreases |pool| - n
  {
    if n == |pool| {
      assert pool[..n] == pool;
    } else {
      LockedGrows(pool, minimum, n + 1);
      assert pool[..n + 1][..n] == pool[..n];
    }
  }

  /** The request's value and the collaterals fit in a word, with no more parties than witnesses. */
  ghost predicate Accountable(dr: DataRequestOutput, minimum: U64, commits: nat, revealed: nat) {
    && dr.TotalValue() + commits * CollateralOf(dr, minimum) <= U64_MAX
    && revealed <= commits <= dr.witnesses
  }

  /**
   * Nothing saturates: from the reveal stage on the request holds its value and the collaterals,
   * the minimum for a request that gives zero, minus the fees paid out. In the commit stage it
   * holds its value, whatever the commits so far.
   */
  lemma LockedExactly(dr: DataRequestOutput, minimum: U64, commits: nat, revealed: nat)
    requires Accountable(dr, minimum, commits, revealed)
    ensures var collateral := if dr.collateral == 0 then minimum else dr.collateral;
            && CollateralOf(dr, minimum) == collateral
            && LockedBy(RequestState(dr, Stage.Commit, commits, revealed), minimum) == dr.TotalValue()
            && forall stage :: stage == Stage.Reveal || stage == Stage.Tally ==>
                 LockedBy(RequestState(dr, stage, commits, revealed), minimum)
                 == dr.TotalValue() + commits * collateral
                    - commits * dr.commitAndRevealFee - revealed * dr.commitAndRevealFee
  {
    var f, w := dr.commitAndRevealFee, dr.witnesses as nat;
    MulMonotone(commits, w, f);
    MulMonotone(revealed, w, f);
    TotalValueExpands(dr);
    assert dr.witnessReward * w >= 0;
  }

  lemma TotalValueExpands(dr: DataRequestOutput)
    ensures dr.TotalValue()
         == dr.witnessReward * dr.witnesses + dr.witnesses * dr.commitAndRevealFee + dr.witnesses * dr.commitAndRevealFee
  {
    Distribute(dr.witnessReward + dr.commitAndRevealFee, dr.commitAndRevealFee, dr.witnesses);
    Distribute(dr.witnessReward, dr.commitAndRevealFee, dr.witnesses);
  }

  // ----- Who lied, who erred -----

  /** Revealers out of consensus with a value (liars) and with an error (errors). */
  function LiarsCount(liars: seq<bool>, errors: seq<bool>): nat
    requires |liars| == |errors|
  {
    if liars == [] then 0
    else
      var n := |liars| - 1;
      LiarsCount(liars[..n], errors[..n]) + if liars[n] && !errors[n] then 1 else 0
  }

  function ErrorsCount(liars: seq<bool>, errors: seq<bool>): nat
    requires |liars| == |errors|
  {
    if liars == [] then 0
    else
      var n := |liars| - 1;
      ErrorsCount(liars[..n], errors[..n]) + if liars[n] && errors[n] then 1 else 0
  }

  lemma {:induction false} CountsAddUp(liars: seq<bool>, errors: seq<bool>)
    requires |liars| == |errors|
    ensures LiarsCount(liars, errors) + ErrorsCount(liars, errors) + HonestCount(liars) == |liars|
    decreases |liars|
  {
    if liars != [] {
      CountsAddUp(liars[..|liars| - 1], errors[..|errors| - 1]);
    }
  }

  /** The two counts, as numbers of indexes. */
  lemma {:induction false} CountsAre(liars: seq<bool>, errors: seq<bool>)
    requires |liars| == |errors|
    ensures LiarsCount(liars, errors) == |Indexes(liars, true) - Indexes(errors, true)|
    ensures ErrorsCount(liars, errors) == |Indexes(liars, true) * Indexes(errors, true)|
    decreases |liars|
  {
    if liars != [] {
      var n := |liars| - 1;
      CountsAre(liars[..n], errors[..n]);
      CountsStep(liars, errors, n);
    }
  }

  lemma CountsStep(liars: seq<bool>, errors: seq<bool>, n: nat)
    requires |liars| == |errors| == n + 1
    ensures var l, e, l', e' :=
              Indexes(liars[..n], true), Indexes(errors[..n], true), Indexes(liars, true), Indexes(errors, true);
            && l' - e' == l - e + (if liars[n] && !errors[n] then {n} else {}) && n !in l - e
            && l' * e' == l * e + (if liars[n] && errors[n] then {n} else {}) && n !in l * e
  {
  }

  method CalculateErrorsAndLiarsCount(errors: seq<bool>, liars: seq<bool>) returns (liarsCount: nat, errorsCount: nat)
    requires |liars| == |errors|
    ensures liarsCount == LiarsCount(liars, errors) && errorsCount == ErrorsCount(liars, errors)
  {
    liarsCount, errorsCount := 0, 0;
    for i := 0 to |liars|
      invariant liarsCount == LiarsCount(liars[..i], errors[..i])
      invariant errorsCount == ErrorsCount(liars[..i], errors[..i])
    {
      assert liars[..i + 1][..i] == liars[..i] && errors[..i + 1][..i] == errors[..i];
      if liars[i] && errors[i] {
        errorsCount := errorsCount + 1;
      } else if liars[i] {
        liarsCount := liarsCount + 1;
      }
    }
    assert liars[..|liars|] == liars && errors[..|errors|] == errors;
  }

  // ----- Rewards -----

  /** The collaterals of so many witnesses. */
  function Slashed(collateral: nat, liars: nat): nat {
    collateral * liars
  }

  /** What is left when an amount is divided equally. */
  function Rest(pot: nat, honest: nat): nat
    requires honest > 0
  {
    pot % honest
  }

  /** An amount divided among the honest witnesses, and the rest of the division. */
  function Divided(pot: nat, honest: nat): (r: (nat, nat))
    requires honest > 0
    ensures honest * r.0 + r.1 == pot && r.1 == Rest(pot, honest) < honest
  {
    DivMod(pot, honest);
    (pot / honest, pot % honest)
  }

  /** The reward of an honest witness, and the rest of dividing the slashed collaterals. */
  function WitnessReward(
    commits: nat, liars: nat, errors: nat, reward: nat, collateral: nat, wip0023: bool): (nat, nat)
    requires liars + errors <= commits
  {
    var honest := commits - liars - errors;
    if commits == 0 then (0, 0)
    else if honest == 0 then (collateral, 0)
    else if wip0023 then (reward + collateral, 0)
    else
      var (share, rest) := Divided(Slashed(collateral, liars), honest);
      (reward + collateral + share, rest)
  }

  /** Before the second hard fork, nobody honest among some revealers divides by zero. */
  function WitnessRewardBeforeSecondHardFork(
    commits: nat, revealed: nat, liars: nat, errors: nat, reward: nat, collateral: nat): (nat, nat)
    requires liars + errors <= commits
    requires commits > 0 && revealed > 0 ==> liars + errors < commits
  {
    if commits == 0 then (0, 0)
    else if revealed == 0 then (collateral, 0)
    else
      var honest := commits - liars - errors;
      var (share, rest) := Divided(Slashed(collateral, liars), honest);
      (reward + collateral + share, rest)
  }

  /** What goes back to the requester for witnesses that did not commit, reveal or agree. */
  function TallyChange(commits: nat, revealed: nat, honest: nat, dr: DataRequestOutput): nat
    requires commits <= dr.witnesses && revealed <= dr.witnesses && honest <= dr.witnesses
  {
    var unrewarded: nat, unrevealed: nat, uncommitted: nat :=
      dr.witnesses - honest, dr.witnesses - revealed, dr.witnesses - commits;
    dr.witnessReward * unrewarded + dr.commitAndRevealFee * unrevealed + dr.commitAndRevealFee * uncommitted
  }

  function PaymentTo(liar: bool, error: bool, reward: nat, collateral: nat): Option<nat> {
    if liar && error then Some(collateral) else if liar then None else Some(reward)
  }

  datatype Output = Output(pkh: Pkh, value: nat)

  function Payments(
    revealers: seq<Pkh>, liars: seq<bool>, errors: seq<bool>, reward: nat, collateral: nat): seq<Output>
    requires |revealers| == |liars| == |errors|
  {
    if revealers == [] then []
    else
      var n := |revealers| - 1;
      var before := Payments(revealers[..n], liars[..n], errors[..n], reward, collateral);
      var p := PaymentTo(liars[n], errors[n], reward, collateral);
      if p.Some? then before + [Output(revealers[n], p.value)] else before
  }

  function OutputsValue(outputs: seq<Output>): nat {
    if outputs == [] then 0 else OutputsValue(outputs[..|outputs| - 1]) + outputs[|outputs| - 1].value
  }

  lemma OutputsValueLast(outputs: seq<Output>, last: Output)
    ensures OutputsValue(outputs + [last]) == OutputsValue(outputs) + last.value
  {
    assert (outputs + [last])[..|outputs|] == outputs;
  }

  lemma NoOutputs()
    ensures OutputsValue([]) == 0
  {
  }

  lemma {:induction false} PaymentsValue(
    revealers: seq<Pkh>, liars: seq<bool>, errors: seq<bool>, reward: nat, collateral: nat)
    requires |revealers| == |liars| == |errors|
    ensures OutputsValue(Payments(revealers, liars, errors, reward, collateral))
         == HonestCount(liars) * reward + ErrorsCount(liars, errors) * collateral
    decreases |revealers|
  {
    if revealers != [] {
      var n := |revealers| - 1;
      var before := Payments(revealers[..n], liars[..n], errors[..n], reward, collateral);
      PaymentsValue(revealers[..n], liars[..n], errors[..n], reward, collateral);
      OutputsValueLast(before, Output(revealers[n], reward));
      OutputsValueLast(before, Output(revealers[n], collateral));
      Distribute(HonestCount(liars[..n]), 1, reward);
      Distribute(ErrorsCount(liars[..n], errors[..n]), 1, collateral);
    }
  }

  // ----- Who is paid -----

  /** Exactly one output goes to `p`, and it is worth `value`. */
  ghost predicate PaidOnce(outputs: seq<Output>, p: Pkh, value: int) {
    exists j :: 0 <= j < |outputs| && outputs[j].pkh == p && outputs[j].value == value && NotPaidExcept(outputs, p, j)
  }

  ghost predicate NotPaidExcept(outputs: seq<Output>, p: Pkh, j: int) {
    forall k :: 0 <= k < |outputs| && k != j ==> outputs[k].pkh != p
  }

  ghost predicate NotPaid(outputs: seq<Output>, p: Pkh) {
    forall o :: o in outputs ==> o.pkh != p
  }

  /**
   * Revealers in consensus get the reward, those out of it with an error get their collateral
   * back, those out of it with a value get nothing, and nobody else is paid.
   */
  ghost predicate PaysEach(
    outputs: seq<Output>, revealers: seq<Pkh>, liars: seq<bool>, errors: seq<bool>, reward: int, collateral: nat)
    requires |revealers| == |liars| == |errors|
  {
    && (forall i :: 0 <= i < |revealers| && !liars[i] ==> PaidOnce(outputs, revealers[i], reward))
    && (forall i :: 0 <= i < |revealers| && liars[i] && errors[i] ==> PaidOnce(outputs, revealers[i], collateral))
    && (forall i :: 0 <= i < |revealers| && liars[i] && !errors[i] ==> NotPaid(outputs, revealers[i]))
    && (forall o :: o in outputs ==> o.pkh in revealers)
    && InOrder(outputs, revealers)
  }

  /** Who revealed first is paid first. */
  ghost predicate InOrder(outputs: seq<Output>, revealers: seq<Pkh>) {
    forall j, k :: 0 <= j < k < |outputs| ==> Before(revealers, outputs[j].pkh, outputs[k].pkh)
  }

  ghost predicate Before(revealers: seq<Pkh>, p: Pkh, q: Pkh) {
    forall a, b :: 0 <= a < |revealers| && 0 <= b < |revealers| && revealers[a] == p && revealers[b] == q ==> a < b
  }

  lemma OrderNext(before: seq<Output>, last: Output, revealers: seq<Pkh>)
    requires revealers != [] && revealers[|revealers| - 1] !in revealers[..|revealers| - 1]
    requires InOrder(before, revealers[..|revealers| - 1]) && NotPaid(before, revealers[|revealers| - 1])
    requires last.pkh == revealers[|revealers| - 1]
    ensures InOrder(before, revealers) && InOrder(before + [last], revealers)
  {
    var n := |revealers| - 1;
    forall p, q | p != revealers[n]
      ensures Before(revealers[..n], p, q) && q != revealers[n] ==> Before(revealers, p, q)
      ensures Before(revealers, p, revealers[n])
    {
      LastIsLast(revealers, p, q);
    }
    hide Before;
    assert forall j :: 0 <= j < |before| ==> before[j] in before;
  }

  lemma LastIsLast(revealers: seq<Pkh>, p: Pkh, q: Pkh)
    requires revealers != [] && revealers[|revealers| - 1] !in revealers[..|revealers| - 1]
    requires p != revealers[|revealers| - 1]
    ensures var n := |revealers| - 1;
            && (Before(revealers[..n], p, q) && q != revealers[n] ==> Before(revealers, p, q))
            && Before(revealers, p, revealers[n])
  {
    var n := |revealers| - 1;
    assert forall a :: 0 <= a < n ==> revealers[..n][a] == revealers[a];
    assert forall a :: 0 <= a < n ==> revealers[a] in revealers[..n];
  }

  /** Paying somebody else changes nothing. */
  lemma PayOther(outputs: seq<Output>, p: Pkh, value: nat, other: Output)
    requires PaidOnce(outputs, p, value) && other.pkh != p
    ensures PaidOnce(outputs + [other], p, value)
  {
    var j :| 0 <= j < |outputs| && outputs[j].pkh == p && outputs[j].value == value && NotPaidExcept(outputs, p, j);
    assert (outputs + [other])[j] == outputs[j] && NotPaidExcept(outputs + [other], p, j);
  }

  lemma PayFirst(outputs: seq<Output>, p: Pkh, value: nat)
    requires NotPaid(outputs, p)
    ensures PaidOnce(outputs + [Output(p, value)], p, value)
  {
    var j := |outputs|;
    assert (outputs + [Output(p, value)])[j] == Output(p, value);
    assert NotPaidExcept(outputs + [Output(p, value)], p, j);
  }

  lemma {:induction false} PaymentsPayEach(
    revealers: seq<Pkh>, liars: seq<bool>, errors: seq<bool>, reward: nat, collateral: nat)
    requires |revealers| == |liars| == |errors| && NoRepeats(revealers)
    ensures PaysEach(Payments(revealers, liars, errors, reward, collateral), revealers, liars, errors, reward, collateral)
    decreases |revealers|
  {
    if revealers != [] {
      var n := |revealers| - 1;
      PaymentsPayEach(revealers[..n], liars[..n], errors[..n], reward, collateral);
      var before := Payments(revealers[..n], liars[..n], errors[..n], reward, collateral);
      assert revealers[n] !in revealers[..n] && revealers == revealers[..n] + [revealers[n]];
      assert NotPaid(before, revealers[n]);
      hide Payments, PaidOnce, NoRepeats;
      PayNext(before, revealers, liars, errors, reward, collateral);
      PaymentsStep(revealers, liars, errors, reward, collateral);
    }
  }

  lemma PaymentsStep(revealers: seq<Pkh>, liars: seq<bool>, errors: seq<bool>, reward: nat, collateral: nat)
    requires |revealers| == |liars| == |errors| && revealers != []
    ensures var n := |revealers| - 1;
            Payments(revealers, liars, errors, reward, collateral)
            == Payments(revealers[..n], liars[..n], errors[..n], reward, collateral)
               + if !liars[n] then [Output(revealers[n], reward)]
                 else if errors[n] then [Output(revealers[n], collateral)]
                 else []
  {
  }

  lemma PayNext(
    before: seq<Output>, revealers: seq<Pkh>, liars: seq<bool>, errors: seq<bool>, reward: nat, collateral: nat)
    requires |revealers| == |liars| == |errors| && revealers != []
    requires revealers[|revealers| - 1] !in revealers[..|revealers| - 1]
    requires var n := |revealers| - 1;
             && PaysEach(before, revealers[..n], liars[..n], errors[..n], reward, collateral)
             && NotPaid(before, revealers[n])
    ensures var n := |revealers| - 1;
            PaysEach(before + if !liars[n] then [Output(revealers[n], reward)]
                              else if errors[n] then [Output(revealers[n], collateral)]
                              else [],
                     revealers, liars, errors, reward, collateral)
  {
    hide PaidOnce, InOrder;
    var n := |revealers| - 1;
    var p := revealers[n];
    var value := if !liars[n] then reward else collateral;
    PayFirst(before, p, value);
    OrderNext(before, Output(p, value), revealers);
    assert before + [] == before;
    forall i | 0 <= i < n
      ensures !liars[i] ==>
                && PaidOnce(before, revealers[i], reward)
                && PaidOnce(before + [Output(p, value)], revealers[i], reward)
      ensures liars[i] && errors[i] ==>
                && PaidOnce(before, revealers[i], collateral)
                && PaidOnce(before + [Output(p, value)], revealers[i], collateral)
      ensures liars[i] && !errors[i] ==>
                NotPaid(before, revealers[i]) && NotPaid(before + [Output(p, value)], revealers[i])
    {
      assert revealers[..n][i] == revealers[i] && liars[..n][i] == liars[i] && errors[..n][i] == errors[i];
      if !liars[i] {
        PayOther(before, revealers[i], reward, Output(p, value));
      } else if errors[i] {
        PayOther(before, revealers[i], collateral, Output(p, value));
      }
    }
  }

  // ----- The conservation law, on numbers -----

  /** Honest witnesses, refunded errors, change and remainder add up to what is held. */
  lemma HonestTallyAddsUp(
    w: nat, reward: nat, fee: nat, collateral: nat, commits: nat, revealed: nat,
    liars: nat, errors: nat, honest: nat, share: nat, rest: nat)
    requires revealed <= commits <= w && liars + errors + honest == revealed
    requires honest * share + rest == collateral * (liars + (commits - revealed))
    ensures honest * (reward + collateral + share) + errors * collateral
            + (reward * (w - honest) + fee * (w - revealed) + fee * (w - commits)) + rest
         == (reward * w + w * fee + w * fee) + commits * collateral - commits * fee - revealed * fee
  {
    Distribute(reward + collateral, share, honest);
    Distribute(reward, collateral, honest);
    Distribute(w - honest, honest, reward);
    Distribute(w - revealed, revealed, fee);
    Distribute(w - commits, commits, fee);
    Distribute(liars + (commits - revealed), honest + errors, collateral);
    Distribute(honest, errors, collateral);
    assert liars + (commits - revealed) + (honest + errors) == commits;
  }

  /** Collaterals are refunded and the requester gets everything else back. */
  lemma RefundAddsUp(w: nat, reward: nat, fee: nat, collateral: nat, commits: nat, revealed: nat)
    requires revealed <= commits <= w
    ensures commits * collateral + (reward * (w - 0) + fee * (w - revealed) + fee * (w - commits))
         == (reward * w + w * fee + w * fee) + commits * collateral - commits * fee - revealed * fee
  {
    Distribute(w - revealed, revealed, fee);
    Distribute(w - commits, commits, fee);
  }

  // ----- The tally transaction -----

  /** The protocol upgrades that the tally depends on. */
  datatype Wips = Wips(secondHardFork: bool, wip0023: bool, v2: bool)

  /** The reward of an honest witness and the division rest; liars count the non-revealers. */
  function RewardFor(
    wips: Wips, dr: DataRequestOutput, collateral: nat, commits: nat, revealed: nat, liars: nat, errors: nat): (nat, nat)
    requires liars + errors <= revealed <= commits
    requires !wips.secondHardFork && revealed > 0 ==> liars + errors < revealed
  {
    var slashed := liars + (commits - revealed);
    if wips.secondHardFork then
      WitnessReward(commits, slashed, errors, dr.witnessReward, collateral, wips.wip0023)
    else
      WitnessRewardBeforeSecondHardFork(commits, revealed, slashed, errors, dr.witnessReward, collateral)
  }

  /** What a request in the tally stage holds. */
  function Held(dr: DataRequestOutput, minimum: U64, commits: nat, revealed: nat): nat {
    LockedBy(RequestState(dr, Stage.Tally, commits, revealed), minimum)
  }

  /** With someone honest, payments, change and rest make up what is held; WIP-0023 burns the slashed part. */
  lemma HonestTallyConserves(
    wips: Wips, dr: DataRequestOutput, minimum: U64, commits: nat, revealed: nat, liars: nat, errors: nat, honest: nat)
    requires Accountable(dr, minimum, commits, revealed)
    requires honest > 0 && liars + errors + honest == revealed
    ensures var collateral := CollateralOf(dr, minimum);
            var (reward, rest) := RewardFor(wips, dr, collateral, commits, revealed, liars, errors);
            var paid := honest * reward + errors * collateral + TallyChange(commits, revealed, honest, dr);
            var slashed := Slashed(collateral, liars + (commits - revealed));
            && rest == (if wips.secondHardFork && wips.wip0023 then 0 else Rest(slashed, honest))
            && Held(dr, minimum, commits, revealed)
               == paid + if wips.secondHardFork && wips.wip0023 then slashed else Rest(slashed, honest)
  {
    hide RewardFor, LockedBy, TallyChange, CollateralOf, Rest, DataRequestOutput.TotalValue;
    var collateral := CollateralOf(dr, minimum);
    var share, rest := ShareOut(wips, dr, collateral, commits, revealed, liars, errors, honest);
    ChangeIs(commits, revealed, honest, dr);
    LockedExactly(dr, minimum, commits, revealed);
    TotalValueExpands(dr);
    HonestTallyAddsUp(dr.witnesses, dr.witnessReward, dr.commitAndRevealFee, collateral, commits, revealed,
                      liars, errors, honest, share, rest);
  }

  /** How the slashed collaterals are shared out; WIP-0023 shares nothing. */
  lemma ShareOut(
    wips: Wips, dr: DataRequestOutput, collateral: nat, commits: nat, revealed: nat, liars: nat, errors: nat, honest: nat)
    returns (share: nat, rest: nat)
    requires honest > 0 && liars + errors + honest == revealed <= commits
    ensures honest * share + rest == Slashed(collateral, liars + (commits - revealed))
    ensures var (reward, remainder) := RewardFor(wips, dr, collateral, commits, revealed, liars, errors);
            var pot := Slashed(collateral, liars + (commits - revealed));
            && reward == dr.witnessReward + collateral + share
            && if wips.secondHardFork && wips.wip0023 then share == remainder == 0 && rest == pot
            else rest == remainder == Rest(pot, honest) < honest
  {
    hide Divided, Rest, Slashed;
    var pot := Slashed(collateral, liars + (commits - revealed));
    var divided := Divided(pot, honest);
    var burn := wips.secondHardFork && wips.wip0023;
    share, rest := if burn then 0 else divided.0, if burn then pot else divided.1;
  }

  lemma ChangeIs(commits: nat, revealed: nat, honest: nat, dr: DataRequestOutput)
    requires commits <= dr.witnesses && revealed <= dr.witnesses && honest <= dr.witnesses
    ensures TallyChange(commits, revealed, honest, dr)
         == dr.witnessReward * (dr.witnesses - honest) + dr.commitAndRevealFee * (dr.witnesses - revealed)
            + dr.commitAndRevealFee * (dr.witnesses - commits)
  {
  }

  /**
   * No product and no sum of the source's 64-bit arithmetic overflows: neither those of the
   * change, nor the slashed collaterals, nor the reward.
   */
  lemma NothingOverflows(
    wips: Wips, dr: DataRequestOutput, minimum: U64, commits: nat, revealed: nat, liars: nat, errors: nat)
    requires Accountable(dr, minimum, commits, revealed) && liars + errors <= revealed
    requires !wips.secondHardFork && revealed > 0 ==> liars + errors < revealed
    ensures TallyChange(commits, revealed, revealed - liars - errors, dr) <= dr.TotalValue() <= U64_MAX
    ensures var collateral := CollateralOf(dr, minimum);
            && Slashed(collateral, liars + (commits - revealed)) <= U64_MAX
            && RewardFor(wips, dr, collateral, commits, revealed, liars, errors).0 <= U64_MAX
  {
    var collateral := CollateralOf(dr, minimum);
    assert dr.TotalValue() + commits * collateral <= U64_MAX && revealed <= commits <= dr.witnesses;
    hide CollateralOf, DataRequestOutput.TotalValue, TallyChange, RewardFor, Slashed, Accountable;
    ChangeFits(dr, commits, revealed, revealed - liars - errors);
    SlashedFits(commits, liars + (commits - revealed), collateral);
    RewardFits(wips, dr, collateral, commits, revealed, liars, errors);
  }

  /** Neither the products nor the sum that make up the change exceed the request's value. */
  lemma ChangeFits(dr: DataRequestOutput, commits: nat, revealed: nat, honest: nat)
    requires honest <= revealed <= commits <= dr.witnesses
    ensures dr.witnessReward * (dr.witnesses - honest) <= dr.TotalValue()
    ensures dr.commitAndRevealFee * (dr.witnesses - revealed) <= dr.TotalValue()
    ensures dr.commitAndRevealFee * (dr.witnesses - commits) <= dr.TotalValue()
    ensures TallyChange(commits, revealed, honest, dr) <= dr.TotalValue()
  {
    ChangeIs(commits, revealed, honest, dr);
    TotalValueExpands(dr);
    hide DataRequestOutput.TotalValue, TallyChange;
    var w, reward, fee := dr.witnesses as nat, dr.witnessReward as nat, dr.commitAndRevealFee as nat;
    PartFits(reward, w - honest, w);
    PartFits(fee, w - revealed, w);
    PartFits(fee, w - commits, w);
  }

  lemma PartFits(value: nat, part: nat, all: nat)
    requires part <= all
    ensures 0 <= value * part <= value * all == all * value
  {
    MulMonotone(part, all, value);
  }

  lemma SlashedFits(commits: nat, slashed: nat, collateral: nat)
    requires slashed <= commits
    ensures Slashed(collateral, slashed) <= commits * collateral
    ensures slashed < commits ==> Slashed(collateral, slashed) + collateral <= commits * collateral
  {
    MulMonotone(slashed, commits, collateral);
    if slashed < commits {
      MulMonotone(slashed + 1, commits, collateral);
      Distribute(slashed, 1, collateral);
    }
  }

  lemma RewardFits(
    wips: Wips, dr: DataRequestOutput, collateral: nat, commits: nat, revealed: nat, liars: nat, errors: nat)
    requires liars + errors <= revealed <= commits <= dr.witnesses
    requires !wips.secondHardFork && revealed > 0 ==> liars + errors < revealed
    ensures RewardFor(wips, dr, collateral, commits, revealed, liars, errors).0 <= dr.TotalValue() + commits * collateral
  {
    var honest, slashed := revealed - liars - errors, liars + (commits - revealed);
    SlashedFits(commits, slashed, collateral);
    if honest > 0 {
      hide RewardFor, DataRequestOutput.TotalValue;
      var share, rest := ShareOut(wips, dr, collateral, commits, revealed, liars, errors, honest);
      ShareIsPart(honest, share, rest, Slashed(collateral, slashed));
      RewardIsPart(dr);
    } else if commits > 0 {
      MulMonotone(1, commits, collateral);
    }
  }

  lemma ShareIsPart(honest: nat, share: nat, rest: nat, pot: nat)
    requires honest > 0 && honest * share + rest == pot
    ensures share <= pot
  {
    MulMonotone(1, honest, share);
  }

  lemma RewardIsPart(dr: DataRequestOutput)
    requires dr.witnesses > 0
    ensures dr.witnessReward <= dr.TotalValue()
  {
    TotalValueExpands(dr);
    MulMonotone(1, dr.witnesses, dr.witnessReward);
    assert dr.witnesses * dr.commitAndRevealFee >= 0;
  }

  /** With nobody honest, refunds and change make up what is held. */
  lemma RefundTallyConserves(
    wips: Wips, dr: DataRequestOutput, minimum: U64, commits: nat, revealed: nat, liars: nat, errors: nat)
    requires Accountable(dr, minimum, commits, revealed) && liars + errors == revealed
    requires !wips.secondHardFork ==> revealed == 0
    ensures var collateral := CollateralOf(dr, minimum);
            && RewardFor(wips, dr, collateral, commits, revealed, liars, errors).1 == 0
            && Held(dr, minimum, commits, revealed)
               == commits * collateral + TallyChange(commits, revealed, 0, dr)
  {
    LockedExactly(dr, minimum, commits, revealed);
    TotalValueExpands(dr);
    RefundAddsUp(dr.witnesses, dr.witnessReward, dr.commitAndRevealFee, CollateralOf(dr, minimum), commits, revealed);
  }

  /** The change, the rewards and the collaterals make up what is held. */
  lemma ChangeConserves(dr: DataRequestOutput, minimum: U64, commits: nat, revealed: nat, honest: nat)
    requires Accountable(dr, minimum, commits, revealed) && honest <= revealed
    ensures Held(dr, minimum, commits, revealed)
         == TallyChange(commits, revealed, honest, dr) + (honest * dr.witnessReward + commits * CollateralOf(dr, minimum))
  {
    var collateral := CollateralOf(dr, minimum);
    ChangeIs(commits, revealed, honest, dr);
    LockedExactly(dr, minimum, commits, revealed);
    TotalValueExpands(dr);
    hide LockedBy, TallyChange, CollateralOf, DataRequestOutput.TotalValue;
    RefundAddsUp(dr.witnesses, dr.witnessReward, dr.commitAndRevealFee, collateral, commits, revealed);
    Distribute(dr.witnesses - honest, honest, dr.witnessReward);
  }

  datatype TallyTransaction = TallyTransaction(
    outputs: seq<Output>, outOfConsensus: set<Pkh>, errorCommitters: seq<Pkh>)

  /** The revealers whose flag is not set. */
  function Truthful(revealers: seq<Pkh>, liars: seq<bool>): set<Pkh>
    requires |revealers| == |liars|
  {
    set i | 0 <= i < |revealers| && !liars[i] :: revealers[i]
  }

  function Flagged(revealers: seq<Pkh>, flags: seq<bool>): seq<Pkh>
    requires |revealers| == |flags|
  {
    if revealers == [] then []
    else
      var n := |revealers| - 1;
      Flagged(revealers[..n], flags[..n]) + if flags[n] then [revealers[n]] else []
  }

  /** The two branches that pay the revealers, for one protocol version or the other. */
  method PayRevealers(revealers: seq<Pkh>, liars: seq<bool>, errors: seq<bool>, committers: set<Pkh>,
                      reward: nat, collateral: nat)
    returns (outputs: seq<Output>, outOfConsensus: set<Pkh>, errorCommitters: seq<Pkh>)
    requires |revealers| == |liars| == |errors|
    ensures outputs == Payments(revealers, liars, errors, reward, collateral)
    ensures NoRepeats(revealers) ==> PaysEach(outputs, revealers, liars, errors, reward, collateral)
    ensures outOfConsensus == committers - Truthful(revealers, liars)
    ensures errorCommitters == Flagged(revealers, errors)
  {
    hide PaysEach, NoRepeats;
    outputs, outOfConsensus, errorCommitters := [], committers, [];
    for i := 0 to |revealers|
      invariant outputs == Payments(revealers[..i], liars[..i], errors[..i], reward, collateral)
      invariant outOfConsensus == committers - Truthful(revealers[..i], liars[..i])
      invariant errorCommitters == Flagged(revealers[..i], errors[..i])
    {
      PrefixStep(revealers, i);
      PrefixStep(liars, i);
      PrefixStep(errors, i);
      TruthfulStep(revealers, liars, i);
      var revealer := revealers[i];
      match (liars[i], errors[i])
      case (true, true) =>
        errorCommitters := errorCommitters + [revealer];
        outputs := outputs + [Output(revealer, collateral)];
      case (true, false) =>
      case (false, true) =>
        outOfConsensus := outOfConsensus - {revealer};
        errorCommitters := errorCommitters + [revealer];
        outputs := outputs + [Output(revealer, reward)];
      case (false, false) =>
        outOfConsensus := outOfConsensus - {revealer};
        outputs := outputs + [Output(revealer, reward)];
    }
    PrefixAll(revealers);
    PrefixAll(liars);
    PrefixAll(errors);
    if NoRepeats(revealers) {
      PaymentsPayEach(revealers, liars, errors, reward, collateral);
    }
  }

  lemma PrefixStep<T>(s: seq<T>, i: nat)
    requires i < |s|
    ensures s[..i + 1][..i] == s[..i] && s[..i + 1][i] == s[i]
  {
  }

  lemma PrefixAll<T>(s: seq<T>)
    ensures s[..|s|] == s
  {
  }

  lemma TruthfulStep(revealers: seq<Pkh>, liars: seq<bool>, i: nat)
    requires |revealers| == |liars| && i < |liars|
    ensures Truthful(revealers[..i + 1], liars[..i + 1])
         == Truthful(revealers[..i], liars[..i]) + if liars[i] then {} else {revealers[i]}
  {
    var before, after := Truthful(revealers[..i], liars[..i]), Truthful(revealers[..i + 1], liars[..i + 1]);
    forall p | p in before
      ensures p in after
    {
      var k :| 0 <= k < i && !liars[..i][k] && revealers[..i][k] == p;
      assert !liars[..i + 1][k] && revealers[..i + 1][k] == p;
    }
    if !liars[i] {
      assert !liars[..i + 1][i] && revealers[..i + 1][i] == revealers[i];
    }
  }

  /** Every committer gets the collateral back once, and nobody else is paid. */
  ghost predicate RefundsEach(outputs: seq<Output>, committers: set<Pkh>, collateral: nat) {
    && (forall p :: p in committers ==> PaidOnce(outputs, p, collateral))
    && (forall o :: o in outputs ==> o.pkh in committers)
  }

  /** Every committer gets the collateral back, in no particular order. */
  method RefundAll(committers: set<Pkh>, collateral: nat) returns (outputs: seq<Output>)
    ensures OutputsValue(outputs) == |committers| * collateral
    ensures RefundsEach(outputs, committers, collateral)
  {
    NoRefunds(collateral);
    hide RefundsEach;
    outputs := [];
    var rest := committers;
    assert committers - rest == {};
    while rest != {}
      invariant rest <= committers && |outputs| + |rest| == |committers|
      invariant OutputsValue(outputs) == |outputs| * collateral
      invariant RefundsEach(outputs, committers - rest, collateral)
      decreases rest
    {
      var p :| p in rest;
      RefundNext(outputs, committers - rest, collateral, p);
      assert committers - (rest - {p}) == committers - rest + {p};
      OutputsValueLast(outputs, Output(p, collateral));
      Distribute(|outputs|, 1, collateral);
      outputs, rest := outputs + [Output(p, collateral)], rest - {p};
    }
    assert committers - rest == committers;
  }

  lemma NoRefunds(collateral: nat)
    ensures RefundsEach([], {}, collateral)
  {
  }

  lemma RefundNext(outputs: seq<Output>, committers: set<Pkh>, collateral: nat, p: Pkh)
    requires RefundsEach(outputs, committers, collateral) && p !in committers
    ensures RefundsEach(outputs + [Output(p, collateral)], committers + {p}, collateral)
  {
    hide PaidOnce;
    PayFirst(outputs, p, collateral);
    forall q | q in committers
      ensures PaidOnce(outputs + [Output(p, collateral)], q, collateral)
    {
      PayOther(outputs, q, collateral, Output(p, collateral));
    }
  }

  function ChangeOutput(pkh: Pkh, change: nat): seq<Output> {
    if change > 0 then [Output(pkh, change)] else []
  }

  method AddChange(tally: TallyTransaction, pkh: Pkh, change: nat) returns (t: TallyTransaction)
    ensures t == tally.(outputs := tally.outputs + ChangeOutput(pkh, change))
    ensures OutputsValue(t.outputs) == OutputsValue(tally.outputs) + change
  {
    t := tally;
    if change > 0 {
      OutputsValueLast(tally.outputs, Output(pkh, change));
      t := tally.(outputs := tally.outputs + [Output(pkh, change)]);
    }
  }

  /** The reward of an honest witness and the division rest, from the masks. */
  function RewardOf(
    wips: Wips, dr: DataRequestOutput, collateral: nat, commits: nat, liars: seq<bool>, errors: seq<bool>): (nat, nat)
    requires |liars| == |errors| <= commits
    requires !wips.secondHardFork && liars != [] ==> HonestCount(liars) > 0
  {
    CountsAddUp(liars, errors);
    RewardFor(wips, dr, collateral, commits, |liars|, LiarsCount(liars, errors), ErrorsCount(liars, errors))
  }

  lemma RewardIs(wips: Wips, dr: DataRequestOutput, collateral: nat, commits: nat, liars: seq<bool>, errors: seq<bool>)
    requires |liars| == |errors| <= commits
    requires !wips.secondHardFork && liars != [] ==> HonestCount(liars) > 0
    ensures LiarsCount(liars, errors) + ErrorsCount(liars, errors) + HonestCount(liars) == |liars|
    ensures RewardOf(wips, dr, collateral, commits, liars, errors)
         == RewardFor(wips, dr, collateral, commits, |liars|, LiarsCount(liars, errors), ErrorsCount(liars, errors))
  {
    CountsAddUp(liars, errors);
  }

  /** What the witnesses are paid in all. */
  function SettledValue(liars: seq<bool>, errors: seq<bool>, commits: nat, reward: nat, collateral: nat, v2: bool): nat
    requires |liars| == |errors|
  {
    if v2 then 0
    else if HonestCount(liars) > 0 then HonestCount(liars) * reward + ErrorsCount(liars, errors) * collateral
    else commits * collateral
  }

  /** Who is paid what before the change, and the two lists of witnesses. */
  method Settle(liars: seq<bool>, errors: seq<bool>, revealers: seq<Pkh>, committers: set<Pkh>,
                reward: nat, collateral: nat, wips: Wips, anyHonest: bool)
    returns (tally: TallyTransaction)
    requires |liars| == |errors| == |revealers| && anyHonest == (HonestCount(liars) > 0)
    ensures OutputsValue(tally.outputs) == SettledValue(liars, errors, |committers|, reward, collateral, wips.v2)
    ensures Lists(tally, revealers, liars, errors, committers, wips.secondHardFork)
    ensures Settles(tally.outputs, liars, errors, revealers, committers, reward, collateral, wips.v2)
  {
    hide Payments, OutputsValue, Flagged, Truthful, PaysEach, RefundsEach, NoRepeats;
    NoOutputs();
    PaymentsValue(revealers, liars, errors, reward, collateral);
    var outputs, outOfConsensus, errorCommitters;
    if anyHonest {
      outputs, outOfConsensus, errorCommitters :=
        PayRevealers(revealers, liars, errors, committers, reward, collateral);
    } else {
      outOfConsensus, errorCommitters := committers, if wips.secondHardFork then revealers else [];
      outputs := RefundAll(outOfConsensus, collateral);
    }
    tally := TallyTransaction(if wips.v2 then [] else outputs, outOfConsensus, errorCommitters);
  }

  /** The two lists of witnesses: with nobody honest every committer is out of consensus. */
  ghost predicate Lists(
    tally: TallyTransaction, revealers: seq<Pkh>, liars: seq<bool>, errors: seq<bool>, committers: set<Pkh>,
    secondHardFork: bool)
    requires |revealers| == |liars| == |errors|
  {
    if HonestCount(liars) > 0 then
      && tally.outOfConsensus == committers - Truthful(revealers, liars)
      && tally.errorCommitters == Flagged(revealers, errors)
    else
      tally.outOfConsensus == committers && tally.errorCommitters == if secondHardFork then revealers else []
  }

  lemma SameLists(
    a: TallyTransaction, b: TallyTransaction, revealers: seq<Pkh>, liars: seq<bool>, errors: seq<bool>,
    committers: set<Pkh>, secondHardFork: bool)
    requires |revealers| == |liars| == |errors| && a.(outputs := b.outputs) == b
    requires Lists(a, revealers, liars, errors, committers, secondHardFork)
    ensures Lists(b, revealers, liars, errors, committers, secondHardFork)
  {
  }

  /**
   * `create_tally`. The caller passes one flag of each kind per reveal, and no more reveals than
   * commits and no more commits than witnesses.
   */
  method CreateTally(dr: DataRequestOutput, pkh: Pkh, liars: seq<bool>, errors: seq<bool>,
                     revealers: seq<Pkh>, committers: set<Pkh>, minimum: U64, wips: Wips)
    returns (tally: TallyTransaction)
    requires |liars| == |errors| == |revealers|
    requires Accountable(dr, minimum, |committers|, |revealers|)
    requires !wips.secondHardFork && revealers != [] ==> HonestCount(liars) > 0
    ensures |revealers| <= |committers|
    ensures Conserving(dr, minimum, liars, errors, |committers|, wips, OutputsValue(tally.outputs))
    ensures Pays(tally.outputs, dr, pkh, liars, errors, revealers, committers, minimum, wips)
    ensures Lists(tally, revealers, liars, errors, committers, wips.secondHardFork)
  {
    var commits, revealed := |committers|, |revealers|;
    assert revealed <= commits <= dr.witnesses;
    hide Accountable, DataRequestOutput.TotalValue;
    var liarsCount, errorsCount := CalculateErrorsAndLiarsCount(errors, liars);
    var collateral := CollateralOf(dr, minimum);
    hide TallyChange, OutputsValue, Payments, RewardFor, RewardOf, SettledValue, Conserving, HonestCount, LiarsCount,
         ErrorsCount, Truthful, Flagged, CollateralOf, ChangeOutput, Pays, Settles, Lists;
    RewardIs(wips, dr, collateral, commits, liars, errors);
    var (reward, _) := RewardFor(wips, dr, collateral, commits, revealed, liarsCount, errorsCount);
    var honest := revealed - liarsCount - errorsCount;
    var anyHonest := if wips.secondHardFork then honest > 0 else revealed > 0;
    assert honest == HonestCount(liars) && anyHonest == (honest > 0);
    tally := Settle(liars, errors, revealers, committers, reward, collateral, wips, anyHonest);
    var change := TallyChange(commits, revealed, honest, dr);
    PaidOut(dr, minimum, liars, errors, commits, wips);
    ghost var settled := tally;
    tally := AddChange(tally, pkh, change);
    SameLists(settled, tally, revealers, liars, errors, committers, wips.secondHardFork);
    PaysWithChange(settled.outputs, dr, pkh, liars, errors, revealers, committers, minimum, wips);
  }

  /**
   * What goes back to the requester: the rewards and fees of those who did not agree, reveal or
   * commit.
   */
  ghost function ChangeFor(dr: DataRequestOutput, commits: nat, revealed: nat, honest: nat): int {
    dr.witnessReward * (dr.witnesses - honest) + dr.commitAndRevealFee * (dr.witnesses - revealed)
    + dr.commitAndRevealFee * (dr.witnesses - commits)
  }

  /**
   * An honest revealer gets the reward, the collateral and a share of the slashed collaterals,
   * those of the liars and of who did not reveal. WIP-0023 does away with the share.
   */
  ghost function PayOf(
    dr: DataRequestOutput, collateral: nat, commits: nat, revealed: nat, liars: nat, honest: nat, wips: Wips): int
    requires honest > 0
  {
    dr.witnessReward + collateral
    + if wips.secondHardFork && wips.wip0023 then 0 else collateral * (liars + (commits - revealed)) / honest
  }

  /**
   * Who gets what. The last output, if anything is left, is the requester's change. Before it,
   * unless protocol version 2 pays nobody here, come the rewards and refunds of the revealers or,
   * if nobody is honest, the collaterals of all committers.
   */
  ghost predicate Pays(
    outputs: seq<Output>, dr: DataRequestOutput, pkh: Pkh, liars: seq<bool>, errors: seq<bool>, revealers: seq<Pkh>,
    committers: set<Pkh>, minimum: U64, wips: Wips)
    requires |liars| == |errors| == |revealers|
  {
    var commits, revealed, honest := |committers|, |revealers|, HonestCount(liars);
    var collateral := if dr.collateral == 0 then minimum else dr.collateral;
    var change := ChangeFor(dr, commits, revealed, honest);
    var n := if change > 0 then |outputs| - 1 else |outputs|;
    && n >= 0 && (change > 0 ==> outputs[n].pkh == pkh && outputs[n].value == change)
    && if wips.v2 then n == 0
       else if honest == 0 then RefundsEach(outputs[..n], committers, collateral)
       else
         NoRepeats(revealers) ==>
           PaysEach(outputs[..n], revealers, liars, errors,
                    PayOf(dr, collateral, commits, revealed, LiarsCount(liars, errors), honest, wips), collateral)
  }

  /** What the witnesses get before the change. */
  ghost predicate Settles(
    paid: seq<Output>, liars: seq<bool>, errors: seq<bool>, revealers: seq<Pkh>, committers: set<Pkh>,
    reward: nat, collateral: nat, v2: bool)
    requires |liars| == |errors| == |revealers|
  {
    if v2 then paid == []
    else if HonestCount(liars) == 0 then RefundsEach(paid, committers, collateral)
    else NoRepeats(revealers) ==> PaysEach(paid, revealers, liars, errors, reward, collateral)
  }

  lemma PaysWithChange(
    paid: seq<Output>, dr: DataRequestOutput, pkh: Pkh, liars: seq<bool>, errors: seq<bool>, revealers: seq<Pkh>,
    committers: set<Pkh>, minimum: U64, wips: Wips)
    requires |liars| == |errors| == |revealers| <= |committers| <= dr.witnesses
    requires !wips.secondHardFork && liars != [] ==> HonestCount(liars) > 0
    requires var collateral := CollateralOf(dr, minimum);
             Settles(paid, liars, errors, revealers, committers,
                     RewardOf(wips, dr, collateral, |committers|, liars, errors).0, collateral, wips.v2)
    ensures Pays(paid + ChangeOutput(pkh, TallyChange(|committers|, |revealers|, HonestCount(liars), dr)),
                 dr, pkh, liars, errors, revealers, committers, minimum, wips)
  {
    hide PaysEach, RefundsEach, NoRepeats, HonestCount, LiarsCount, ErrorsCount, RewardOf, RewardFor, TallyChange,
         ChangeFor, PayOf;
    var honest, collateral := HonestCount(liars), CollateralOf(dr, minimum);
    var change := TallyChange(|committers|, |revealers|, honest, dr);
    var outputs := paid + ChangeOutput(pkh, change);
    assert outputs[..|paid|] == paid;
    ChangeWrittenOut(|committers|, |revealers|, honest, dr);
    if honest > 0 {
      RewardIs(wips, dr, collateral, |committers|, liars, errors);
      RewardWrittenOut(wips, dr, collateral, |committers|, |revealers|, LiarsCount(liars, errors),
                       ErrorsCount(liars, errors), honest);
    }
  }

  lemma ChangeWrittenOut(commits: nat, revealed: nat, honest: nat, dr: DataRequestOutput)
    requires commits <= dr.witnesses && revealed <= dr.witnesses && honest <= dr.witnesses
    ensures TallyChange(commits, revealed, honest, dr) == ChangeFor(dr, commits, revealed, honest)
  {
    ChangeIs(commits, revealed, honest, dr);
  }

  lemma RewardWrittenOut(
    wips: Wips, dr: DataRequestOutput, collateral: nat, commits: nat, revealed: nat, liars: nat, errors: nat, honest: nat)
    requires honest > 0 && liars + errors + honest == revealed <= commits
    ensures RewardFor(wips, dr, collateral, commits, revealed, liars, errors).0
         == PayOf(dr, collateral, commits, revealed, liars, honest, wips)
  {
  }

  /**
   * What the outputs are worth. Before protocol version 2 they, the rest of dividing the slashed
   * collaterals and, under WIP-0023, those collaterals themselves make up what the request holds.
   * From version 2 on the outputs are short of it by the rewards and the collaterals.
   */
  ghost predicate Conserving(
    dr: DataRequestOutput, minimum: U64, liars: seq<bool>, errors: seq<bool>, commits: nat, wips: Wips, outputs: nat)
    requires |liars| == |errors| <= commits && Accountable(dr, minimum, commits, |liars|)
  {
    var honest := HonestCount(liars);
    var collateral := CollateralOf(dr, minimum);
    var slashed := Slashed(collateral, LiarsCount(liars, errors) + (commits - |liars|));
    Held(dr, minimum, commits, |liars|)
    == outputs
       + if wips.v2 then honest * dr.witnessReward + commits * collateral
         else if honest == 0 then 0
         else if wips.secondHardFork && wips.wip0023 then slashed
         else Rest(slashed, honest)
  }

  /** Payments or refunds, together with the change, conserve what is held. */
  lemma PaidOut(dr: DataRequestOutput, minimum: U64, liars: seq<bool>, errors: seq<bool>, commits: nat, wips: Wips)
    requires |liars| == |errors| <= commits && Accountable(dr, minimum, commits, |liars|)
    requires !wips.secondHardFork && liars != [] ==> HonestCount(liars) > 0
    ensures var collateral := CollateralOf(dr, minimum);
            var reward := RewardOf(wips, dr, collateral, commits, liars, errors).0;
            var paid := SettledValue(liars, errors, commits, reward, collateral, wips.v2);
            Conserving(dr, minimum, liars, errors, commits, wips, paid + TallyChange(commits, |liars|, HonestCount(liars), dr))
  {
    CountsAddUp(liars, errors);
    hide LockedBy, TallyChange, RewardFor, HonestCount, LiarsCount, ErrorsCount, CollateralOf, DataRequestOutput.TotalValue;
    var liarsCount, errorsCount := LiarsCount(liars, errors), ErrorsCount(liars, errors);
    if wips.v2 {
      ChangeConserves(dr, minimum, commits, |liars|, HonestCount(liars));
    } else if HonestCount(liars) > 0 {
      HonestTallyConserves(wips, dr, minimum, commits, |liars|, liarsCount, errorsCount, HonestCount(liars));
    } else {
      RefundTallyConserves(wips, dr, minimum, commits, |liars|, liarsCount, errorsCount);
    }
  }

  // ----- Who is slashed -----

  /** Out of consensus and not an error, as `calculate_liars_and_errors_count_from_tally` has it. */
  function LiarsOf(tally: TallyTransaction): set<Pkh> {
    set p | p in tally.outOfConsensus && p !in tally.errorCommitters
  }

  lemma {:induction false} FlaggedIff(revealers: seq<Pkh>, flags: seq<bool>, i: nat)
    requires |revealers| == |flags| && NoRepeats(revealers) && i < |revealers|
    ensures revealers[i] in Flagged(revealers, flags) <==> flags[i]
    ensures forall p :: p in Flagged(revealers, flags) ==> p in revealers
    decreases |revealers|
  {
    var n := |revealers| - 1;
    if i < n {
      FlaggedIff(revealers[..n], flags[..n], i);
    } else if n > 0 {
      FlaggedIff(revealers[..n], flags[..n], 0);
    }
  }

  /** The flagged revealers come in the order of the reveals. */
  lemma {:induction false} FlaggedAt(revealers: seq<Pkh>, flags: seq<bool>, i: nat)
    requires |revealers| == |flags| && i < |flags| && flags[i]
    ensures |Flagged(revealers, flags)| == |Indexes(flags, true)|
    ensures var k := |Indexes(flags[..i], true)|;
            k < |Flagged(revealers, flags)| && Flagged(revealers, flags)[k] == revealers[i]
    decreases |flags|
  {
    var n := |flags| - 1;
    FlaggedCount(revealers[..n], flags[..n]);
    FlaggedCount(revealers, flags);
    if i < n {
      FlaggedAt(revealers[..n], flags[..n], i);
      assert flags[..n][..i] == flags[..i];
    }
  }

  lemma {:induction false} FlaggedCount(revealers: seq<Pkh>, flags: seq<bool>)
    requires |revealers| == |flags|
    ensures |Flagged(revealers, flags)| == |Indexes(flags, true)|
    decreases |flags|
  {
    if flags != [] {
      var n := |flags| - 1;
      FlaggedCount(revealers[..n], flags[..n]);
      assert Indexes(flags, true) == Indexes(flags[..n], true) + if flags[n] then {n} else {};
    }
  }

  lemma TruthfulIff(revealers: seq<Pkh>, liars: seq<bool>, i: nat)
    requires |revealers| == |liars| && NoRepeats(revealers) && i < |revealers|
    ensures revealers[i] in Truthful(revealers, liars) <==> !liars[i]
  {
  }

  /** Of different revealers, exactly those out of consensus with a value are liars, if somebody is honest. */
  lemma LiarsIff(
    tally: TallyTransaction, revealers: seq<Pkh>, liars: seq<bool>, errors: seq<bool>, committers: set<Pkh>,
    secondHardFork: bool, i: nat)
    requires |revealers| == |liars| == |errors| && NoRepeats(revealers) && Elements(revealers) <= committers
    requires i < |revealers| && Lists(tally, revealers, liars, errors, committers, secondHardFork)
    requires !secondHardFork ==> HonestCount(liars) > 0
    ensures revealers[i] in LiarsOf(tally) <==> HonestCount(liars) > 0 && liars[i] && !errors[i]
  {
    hide Flagged, HonestCount, Truthful, NoRepeats;
    FlaggedIff(revealers, errors, i);
    TruthfulIff(revealers, liars, i);
    assert revealers[i] in Elements(revealers);
  }
}
