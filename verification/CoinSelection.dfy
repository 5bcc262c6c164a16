/** `take_enough_utxos`: greedy selection of unspent outputs, in the order of a strategy. */
module CoinSelection {
  import opened Options
  import opened Sequences
  import opened Words
  import opened UtxoPool
  import opened DataRequests

  datatype TransactionError =
    | ZeroAmount
    | OutputValueOverflow
    | FeeOverflow
    | NoMoney(totalBalance: nat, availableBalance: nat, transactionValue: nat)
    | ValueTransferWeightLimitExceeded(weight: nat, maxWeight: nat)
    | DataRequestWeightLimitExceeded(weight: nat, maxWeight: nat, dr: DataRequestOutput)

  datatype Result<+T> = Ok(value: T) | Err(error: TransactionError)

  datatype CollectedOutputs = CollectedOutputs(pointers: seq<OutputPointer>, totalValue: nat)

  /**
   * What a selection looks at: all the outputs, the node's own pointers with the time until
   * which each is reserved, the current time and the limit on the block number, if any.
   */
  datatype Funds = Funds(all: UtxoMap, own: map<OutputPointer, U64>, timestamp: U64, blockLimit: Option<nat>)
  {
    function Value(k: OutputPointer): U64 {
      if k in all then all[k].output.value else 0
    }

    /** `get_usage_timeout`: the most restrictive of the output's time lock and its reservation. */
    function UsageTimeout(k: OutputPointer): Option<U64> {
      if k in all && k in own then
        Some(if all[k].output.timeLock >= own[k] then all[k].output.timeLock else own[k])
      else if k in all then Some(all[k].output.timeLock)
      else Find(own, k)
    }

    predicate Eligible(k: OutputPointer) {
      && (UsageTimeout(k).Some? ==> UsageTimeout(k).value <= timestamp)
      && (blockLimit.Some? ==> k in all && all[k].block <= blockLimit.value)
    }
  }

  /** An own output that is neither time-locked nor reserved now, and not of a later block than allowed. */
  ghost predicate Usable(f: Funds, k: OutputPointer) {
    && k in f.all && k in f.own
    && f.all[k].output.timeLock <= f.timestamp
    && f.own[k] <= f.timestamp
    && (f.blockLimit.Some? ==> f.all[k].block <= f.blockLimit.value)
  }

  /** What is taken of the own outputs is exactly what can be used. */
  lemma EligibleIff(f: Funds, k: OutputPointer)
    requires k in f.all && k in f.own
    ensures f.Eligible(k) <==> Usable(f, k)
  {
  }

  function TotalValue(f: Funds, s: seq<OutputPointer>): nat {
    if s == [] then 0 else TotalValue(f, s[..|s| - 1]) + f.Value(s[|s| - 1])
  }

  function Eligibles(f: Funds, s: seq<OutputPointer>): seq<OutputPointer> {
    if s == [] then []
    else
      var before, k := Eligibles(f, s[..|s| - 1]), s[|s| - 1];
      if f.Eligible(k) then before + [k] else before
  }

  /** The selection goes on from `n` while what it has so far is below the amount. */
  function Scan(f: Funds, order: seq<OutputPointer>, amount: nat, n: nat): Result<CollectedOutputs>
    requires n <= |order|
    decreases |order| - n
  {
    if n == |order| then
      Err(NoMoney(TotalValue(f, order), TotalValue(f, Eligibles(f, order)), amount))
    else
      var pointers := Eligibles(f, order[..n + 1]);
      if TotalValue(f, order[..n + 1]) > U64_MAX then Err(OutputValueOverflow)
      else if TotalValue(f, pointers) >= amount then Ok(CollectedOutputs(pointers, TotalValue(f, pointers)))
      else Scan(f, order, amount, n + 1)
  }

  function Take(f: Funds, order: seq<OutputPointer>, amount: nat): Result<CollectedOutputs> {
    if amount == 0 then Err(ZeroAmount) else Scan(f, order, amount, 0)
  }

  lemma PrefixStep(f: Funds, order: seq<OutputPointer>, i: nat)
    requires i < |order|
    ensures TotalValue(f, order[..i + 1]) == TotalValue(f, order[..i]) + f.Value(order[i])
    ensures var before := Eligibles(f, order[..i]);
            && Eligibles(f, order[..i + 1]) == (if f.Eligible(order[i]) then before + [order[i]] else before)
            && TotalValue(f, before + [order[i]]) == TotalValue(f, before) + f.Value(order[i])
  {
    assert order[..i + 1][..i] == order[..i];
    var before := Eligibles(f, order[..i]);
    assert (before + [order[i]])[..|before|] == before;
  }

  lemma ScanFromTheStart(f: Funds, order: seq<OutputPointer>)
    ensures Eligibles(f, order[..0]) == [] && TotalValue(f, order[..0]) == TotalValue(f, []) == 0
    ensures order[..|order|] == order
  {
  }

  /** The loop of `take_enough_utxos`; it unwraps the output of every own pointer. */
  method TakeEnoughUtxos(f: Funds, order: seq<OutputPointer>, amount: nat) returns (r: Result<CollectedOutputs>)
    requires forall k :: k in order ==> k in f.all
    ensures r == Take(f, order, amount)
  {
    hide Eligibles, TotalValue;
    if amount == 0 {
      return Err(ZeroAmount);
    }
    var totalValue, total := 0, 0;
    var pointers := [];
    var i := 0;
    ScanFromTheStart(f, order);
    while i < |order|
      invariant 0 <= i <= |order|
      invariant total == TotalValue(f, order[..i]) && totalValue == TotalValue(f, pointers)
      invariant pointers == Eligibles(f, order[..i]) && totalValue < amount
      invariant Take(f, order, amount) == Scan(f, order, amount, i)
    {
      var k := order[i];
      PrefixStep(f, order, i);
      total := total + f.all[k].output.value;
      if total > U64_MAX {
        return Err(OutputValueOverflow);
      }
      i := i + 1;
      if f.Eligible(k) {
        totalValue := totalValue + f.all[k].output.value;
        pointers := pointers + [k];
        if totalValue >= amount {
          return Ok(CollectedOutputs(pointers, totalValue));
        }
      }
    }
    r := Err(NoMoney(total, totalValue, amount));
  }

  // ----- What a selection is -----

  lemma {:induction false} EligiblesAre(f: Funds, s: seq<OutputPointer>)
    requires NoRepeats(s)
    ensures NoRepeats(Eligibles(f, s)) && |Eligibles(f, s)| <= |s|
    ensures forall k :: k in Eligibles(f, s) <==> k in s && f.Eligible(k)
    decreases |s|
  {
    if s != [] {
      var init, last := s[..|s| - 1], s[|s| - 1];
      EligiblesAre(f, init);
      assert s == init + [last];
    }
  }

  lemma {:induction false} EligibleValueBelowTotal(f: Funds, s: seq<OutputPointer>)
    ensures TotalValue(f, Eligibles(f, s)) <= TotalValue(f, s)
    decreases |s|
  {
    if s != [] {
      EligibleValueBelowTotal(f, s[..|s| - 1]);
      var before, k := Eligibles(f, s[..|s| - 1]), s[|s| - 1];
      assert (before + [k])[..|before|] == before;
    }
  }

  lemma {:induction false} EligiblesAppend(f: Funds, s: seq<OutputPointer>, t: seq<OutputPointer>)
    ensures Eligibles(f, s + t) == Eligibles(f, s) + Eligibles(f, t)
    decreases |t|
  {
    if t == [] {
      assert s + t == s;
    } else {
      EligiblesAppend(f, s, t[..|t| - 1]);
      assert (s + t)[..|s + t| - 1] == s + t[..|t| - 1];
    }
  }

  /**
   * A selection is a shortest sufficient beginning of the eligible outputs, taken from the first
   * `n` outputs of the order.
   */
  ghost predicate Selection(f: Funds, order: seq<OutputPointer>, amount: nat, c: CollectedOutputs, n: nat) {
    && 0 < n <= |order|
    && c.pointers == Eligibles(f, order[..n])
    && c.totalValue == TotalValue(f, c.pointers) >= amount
    && TotalValue(f, Eligibles(f, order[..n - 1])) < amount
    && TotalValue(f, order[..n]) <= U64_MAX
  }

  lemma {:induction false} ScanSelects(f: Funds, order: seq<OutputPointer>, amount: nat, n: nat) returns (m: nat)
    requires n <= |order| && TotalValue(f, Eligibles(f, order[..n])) < amount
    requires Scan(f, order, amount, n).Ok?
    ensures m > n && Selection(f, order, amount, Scan(f, order, amount, n).value, m)
    decreases |order| - n
  {
    m := n + 1;
    if TotalValue(f, Eligibles(f, order[..n + 1])) < amount {
      m := ScanSelects(f, order, amount, n + 1);
    }
  }

  lemma TakeSelects(f: Funds, order: seq<OutputPointer>, amount: nat) returns (n: nat)
    requires Take(f, order, amount).Ok?
    ensures Selection(f, order, amount, Take(f, order, amount).value, n)
  {
    n := ScanSelects(f, order, amount, 0);
  }

  /**
   * The selected pointers are eligible and different; own ones are not locked, reserved or too
   * new. Without the last they fall short.
   */
  lemma SelectedPointers(f: Funds, order: seq<OutputPointer>, amount: nat)
    requires NoRepeats(order) && Take(f, order, amount).Ok?
    ensures var c := Take(f, order, amount).value;
            && c.pointers != [] && NoRepeats(c.pointers)
            && (forall k :: k in c.pointers ==> k in order && f.Eligible(k))
            && (forall k :: k in c.pointers && k in f.all && k in f.own ==>
                  && f.all[k].output.timeLock <= f.timestamp && f.own[k] <= f.timestamp
                  && (f.blockLimit.Some? ==> f.all[k].block <= f.blockLimit.value))
            && amount <= c.totalValue == TotalValue(f, c.pointers) <= U64_MAX
            && TotalValue(f, c.pointers[..|c.pointers| - 1]) < amount
            && c.pointers <= Eligibles(f, order)
  {
    hide Eligibles, TotalValue, Take;
    var c := Take(f, order, amount).value;
    var n := TakeSelects(f, order, amount);
    EligiblesAre(f, order[..n]);
    EligibleValueBelowTotal(f, order[..n]);
    EligiblesAppend(f, order[..n], order[n..]);
    assert order == order[..n] + order[n..];
    PrefixStep(f, order, n - 1);
    if f.Eligible(order[n - 1]) {
      assert c.pointers[..|c.pointers| - 1] == Eligibles(f, order[..n - 1]);
    }
  }

  lemma {:induction false} TotalGrows(f: Funds, s: seq<OutputPointer>, n: nat)
    requires n <= |s|
    ensures TotalValue(f, s[..n]) <= TotalValue(f, s)
    decreases |s| - n
  {
    if n == |s| {
      assert s[..n] == s;
    } else {
      TotalGrows(f, s, n + 1);
      assert s[..n + 1][..n] == s[..n];
    }
  }

  lemma {:induction false} EligibleTotalGrows(f: Funds, order: seq<OutputPointer>, n: nat)
    requires n <= |order|
    ensures TotalValue(f, Eligibles(f, order[..n])) <= TotalValue(f, Eligibles(f, order))
  {
    EligiblesAppend(f, order[..n], order[n..]);
    assert order == order[..n] + order[n..];
    var all := Eligibles(f, order);
    TotalGrows(f, all, |Eligibles(f, order[..n])|);
  }

  /**
   * An amount is refused for lack of money exactly when the own outputs' total fits in a word and
   * all the eligible outputs together fall short, and the refusal says so. With such a total, and
   * an amount other than zero, this is the only refusal.
   */
  lemma NoMoneyIff(f: Funds, order: seq<OutputPointer>, amount: nat)
    ensures var r, total, available := Take(f, order, amount), TotalValue(f, order), TotalValue(f, Eligibles(f, order));
            && (r.Err? && r.error.NoMoney? <==> amount > 0 && total <= U64_MAX && available < amount)
            && (r.Err? && r.error.NoMoney? ==> r.error == NoMoney(total, available, amount))
            && (amount > 0 && total <= U64_MAX ==> (r.Ok? <==> available >= amount))
  {
    if amount > 0 {
      if TotalValue(f, order) <= U64_MAX {
        ScanToTheEnd(f, order, amount, 0);
      } else {
        ScanEndsEarly(f, order, amount, 0);
      }
    }
  }

  /** A total that does not fit in a word never leads to a refusal for lack of money. */
  lemma {:induction false} ScanEndsEarly(f: Funds, order: seq<OutputPointer>, amount: nat, n: nat)
    requires n <= |order| && TotalValue(f, order[..n]) <= U64_MAX < TotalValue(f, order)
    ensures Scan(f, order, amount, n).Err? ==> !Scan(f, order, amount, n).error.NoMoney?
    decreases |order| - n
  {
    assert order[..|order|] == order;
    if n < |order| && TotalValue(f, order[..n + 1]) <= U64_MAX {
      ScanEndsEarly(f, order, amount, n + 1);
    }
  }

  /** The outputs up to `n` are worth more than a word can hold, and those before are not enough. */
  ghost predicate Overflows(f: Funds, order: seq<OutputPointer>, amount: nat, n: nat) {
    && 0 < n <= |order|
    && TotalValue(f, order[..n]) > U64_MAX
    && TotalValue(f, Eligibles(f, order[..n - 1])) < amount
  }

  /** The overflow is reported exactly when it is met before enough has been found. */
  lemma OverflowIff(f: Funds, order: seq<OutputPointer>, amount: nat)
    ensures Take(f, order, amount) == Err(OutputValueOverflow) <==> exists n :: Overflows(f, order, amount, n)
  {
    if n :| Overflows(f, order, amount, n) {
      ScanOverflows(f, order, amount, 0, n);
    }
    if Take(f, order, amount) == Err(OutputValueOverflow) {
      var n := OverflowFound(f, order, amount, 0);
    }
  }

  lemma {:induction false} ScanOverflows(f: Funds, order: seq<OutputPointer>, amount: nat, m: nat, n: nat)
    requires m < n && Overflows(f, order, amount, n)
    ensures Scan(f, order, amount, m) == Err(OutputValueOverflow)
    decreases n - m
  {
    if TotalValue(f, order[..m + 1]) <= U64_MAX {
      EligibleTotalGrows(f, order[..n - 1], m + 1);
      assert order[..n - 1][..m + 1] == order[..m + 1];
      ScanOverflows(f, order, amount, m + 1, n);
    }
  }

  lemma {:induction false} OverflowFound(f: Funds, order: seq<OutputPointer>, amount: nat, m: nat) returns (n: nat)
    requires m <= |order| && TotalValue(f, Eligibles(f, order[..m])) < amount
    requires Scan(f, order, amount, m) == Err(OutputValueOverflow)
    ensures Overflows(f, order, amount, n)
    decreases |order| - m
  {
    n := m + 1;
    if TotalValue(f, order[..m + 1]) <= U64_MAX {
      n := OverflowFound(f, order, amount, m + 1);
    }
  }

  /** Whatever is left out though it could be used comes after everything that is taken. */
  lemma LeftOutComesLater(f: Funds, order: seq<OutputPointer>, amount: nat, j: OutputPointer, k: OutputPointer)
    returns (a: nat, b: nat)
    requires NoRepeats(order) && Take(f, order, amount).Ok?
    requires j in Take(f, order, amount).value.pointers
    requires k in order && f.Eligible(k) && k !in Take(f, order, amount).value.pointers
    ensures a < b < |order| && order[a] == j && order[b] == k
  {
    hide Eligibles, TotalValue, Take;
    var n := TakeSelects(f, order, amount);
    EligiblesAre(f, order[..n]);
    a :| 0 <= a < n && order[..n][a] == j;
    assert order == order[..n] + order[n..] && k !in order[..n];
    var d :| 0 <= d < |order[n..]| && order[n..][d] == k;
    b := n + d;
  }

  lemma {:induction false} ScanToTheEnd(f: Funds, order: seq<OutputPointer>, amount: nat, n: nat)
    requires n <= |order| && TotalValue(f, order) <= U64_MAX
    requires TotalValue(f, Eligibles(f, order[..n])) < amount
    ensures var r := Scan(f, order, amount, n);
            && (r.Ok? <==> TotalValue(f, Eligibles(f, order)) >= amount)
            && (r.Err? ==> r.error == NoMoney(TotalValue(f, order), TotalValue(f, Eligibles(f, order)), amount))
    decreases |order| - n
  {
    if n == |order| {
      assert order[..n] == order;
    } else {
      TotalGrows(f, order, n + 1);
      if TotalValue(f, Eligibles(f, order[..n + 1])) >= amount {
        EligibleTotalGrows(f, order, n + 1);
      } else {
        ScanToTheEnd(f, order, amount, n + 1);
      }
    }
  }

  lemma ZeroAmountIff(f: Funds, order: seq<OutputPointer>, amount: nat)
    ensures Take(f, order, amount) == Err(ZeroAmount) <==> amount == 0
  {
    ScanNotZero(f, order, amount, 0);
  }

  lemma {:induction false} ScanNotZero(f: Funds, order: seq<OutputPointer>, amount: nat, n: nat)
    requires n <= |order|
    ensures Scan(f, order, amount, n) != Err(ZeroAmount)
    decreases |order| - n
  {
    if n < |order| {
      ScanNotZero(f, order, amount, n + 1);
    }
  }

  /** Asking for more never needs fewer inputs, and what fails for less fails for more. */
  lemma TakeMonotone(f: Funds, order: seq<OutputPointer>, amount: nat, more: nat)
    requires 0 < amount <= more
    ensures Take(f, order, more).Ok? ==>
              && Take(f, order, amount).Ok?
              && |Take(f, order, amount).value.pointers| <= |Take(f, order, more).value.pointers|
  {
    ScanMonotone(f, order, amount, more, 0);
  }

  lemma {:induction false} ScanMonotone(f: Funds, order: seq<OutputPointer>, amount: nat, more: nat, n: nat)
    requires 0 < amount <= more && n <= |order|
    ensures Scan(f, order, more, n).Ok? ==>
              && Scan(f, order, amount, n).Ok?
              && |Scan(f, order, amount, n).value.pointers| <= |Scan(f, order, more, n).value.pointers|
    decreases |order| - n
  {
    if n < |order| && TotalValue(f, Eligibles(f, order[..n + 1])) < more && Scan(f, order, more, n).Ok? {
      ScanMonotone(f, order, amount, more, n + 1);
      ScanGrows(f, order, more, n + 1);
      assert order[..n + 2][..n + 1] == order[..n + 1];
    }
  }

  lemma {:induction false} ScanGrows(f: Funds, order: seq<OutputPointer>, amount: nat, n: nat)
    requires n <= |order| && Scan(f, order, amount, n).Ok?
    ensures |Eligibles(f, order[..n])| <= |Scan(f, order, amount, n).value.pointers|
    decreases |order| - n
  {
    assert order[..n + 1][..n] == order[..n];
    if TotalValue(f, Eligibles(f, order[..n + 1])) < amount {
      ScanGrows(f, order, amount, n + 1);
    }
  }

  // ----- Biggest first uses the fewest inputs -----

  ghost predicate BiggestFirst(f: Funds, s: seq<OutputPointer>) {
    forall i, j :: 0 <= i < j < |s| ==> f.Value(s[i]) >= f.Value(s[j])
  }

  lemma {:induction false} EligiblesKeepOrder(f: Funds, s: seq<OutputPointer>)
    requires BiggestFirst(f, s)
    ensures BiggestFirst(f, Eligibles(f, s))
    ensures forall k :: k in Eligibles(f, s) ==> k in s
    decreases |s|
  {
    if s != [] {
      var init, last := s[..|s| - 1], s[|s| - 1];
      EligiblesKeepOrder(f, init);
      assert forall k :: k in init ==> f.Value(k) >= f.Value(last);
      assert forall k :: k in init ==> k in s;
    }
  }

  function Without<T>(s: seq<T>, i: nat): seq<T>
    requires i < |s|
  {
    s[..i] + s[i + 1..]
  }

  lemma {:induction false} TotalWithout(f: Funds, s: seq<OutputPointer>, i: nat)
    requires i < |s|
    ensures TotalValue(f, s) == f.Value(s[i]) + TotalValue(f, Without(s, i))
    decreases |s|
  {
    var n := |s| - 1;
    if i == n {
      assert Without(s, i) == s[..n];
    } else {
      TotalWithout(f, s[..n], i);
      assert Without(s, i)[..n - 1] == Without(s[..n], i);
    }
  }

  /** No choice of `|t|` different outputs is worth more than the first `|t|`, biggest first. */
  lemma {:induction false} TopValue(f: Funds, s: seq<OutputPointer>, t: seq<OutputPointer>)
    requires BiggestFirst(f, s) && NoRepeats(t) && forall k :: k in t ==> k in s
    ensures |t| <= |s| && TotalValue(f, t) <= TotalValue(f, s[..|t|])
    decreases |s|
  {
    hide TotalValue;
    if t == [] {
      assert s[..0] == t;
    } else {
      assert t[0] in s;
      var n := |s| - 1;
      if s[n] in t {
        var i, u := TakeOut(t, s[n]);
        TotalWithout(f, t, i);
        assert forall k :: k in u ==> k in s[..n];
        TopValue(f, s[..n], u);
        assert s[..n][..|u|] == s[..|u|];
        TotalStep(f, s, |u|);
      } else {
        assert forall k :: k in t ==> k in s[..n];
        TopValue(f, s[..n], t);
        assert s[..n][..|t|] == s[..|t|];
      }
    }
  }

  lemma TotalStep(f: Funds, s: seq<OutputPointer>, m: nat)
    requires m < |s|
    ensures TotalValue(f, s[..m + 1]) == TotalValue(f, s[..m]) + f.Value(s[m])
  {
    assert s[..m + 1][..m] == s[..m];
  }

  lemma TakeOut<T>(t: seq<T>, x: T) returns (i: nat, u: seq<T>)
    requires NoRepeats(t) && x in t
    ensures i < |t| && t[i] == x && u == Without(t, i) && |u| == |t| - 1
    ensures NoRepeats(u) && forall k :: k in u ==> k in t && k != x
  {
    i :| 0 <= i < |t| && t[i] == x;
    u := Without(t, i);
  }

  /** No set of eligible own outputs that reaches the amount is smaller than the selection. */
  lemma BigFirstIsMinimal(f: Funds, order: seq<OutputPointer>, amount: nat, other: seq<OutputPointer>)
    requires NoRepeats(order) && BiggestFirst(f, order) && Take(f, order, amount).Ok?
    requires NoRepeats(other) && (forall k :: k in other ==> k in order && f.Eligible(k))
    requires TotalValue(f, other) >= amount
    ensures |Take(f, order, amount).value.pointers| <= |other|
  {
    hide TotalValue, Eligibles, Take, Funds.Eligible;
    var pointers, all := Take(f, order, amount).value.pointers, Eligibles(f, order);
    SelectedPointers(f, order, amount);
    EligiblesAre(f, order);
    EligiblesKeepOrder(f, order);
    TopValue(f, all, other);
    if |other| < |pointers| {
      var n := |pointers| - 1;
      assert all[..n] == pointers[..n];
      assert all[..n][..|other|] == all[..|other|];
      TotalGrows(f, all[..n], |other|);
    }
  }
}
