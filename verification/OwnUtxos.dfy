/** The node's own unspent outputs: ordering, reserving and building transactions from them. */
module OwnUtxos {
  import opened Options
  import opened Words
  import opened Sequences
  import opened UtxoPool
  import opened DataRequests
  import opened CoinSelection
  import opened TransactionFactory

  datatype UtxoSelectionStrategy =
    | Random(from: Option<nat>)
    | BigFirst(from: Option<nat>)
    | SmallFirst(from: Option<nat>)
  {
    predicate AllowsFrom(address: nat) {
      from.Some? ==> from.value == address
    }
  }

  datatype Transaction = Transaction(inputs: seq<OutputPointer>, outputs: seq<ValueTransferOutput>, fee: U64)

  /** Every input is reserved until `until`; the other reservations stay as they are. */
  function Reserved<V>(own: map<OutputPointer, V>, inputs: seq<OutputPointer>, until: V): map<OutputPointer, V> {
    map k | k in own :: if k in inputs then until else own[k]
  }

  /** The outputs of `s` come by value, in the direction asked for. */
  ghost predicate Sorted(f: Funds, s: seq<OutputPointer>, biggerFirst: bool) {
    forall i, j :: 0 <= i < j < |s| ==>
      if biggerFirst then f.Value(s[i]) >= f.Value(s[j]) else f.Value(s[i]) <= f.Value(s[j])
  }

  /**
   * The transaction spends different own outputs that are neither locked nor reserved nor too new,
   * has the fee asked for, pays the outputs asked for and then the change, if there is any, to the
   * node's own address, and conserves value when the sums asked for fit.
   */
  ghost predicate Spends(f: Funds, o: Order, ownPkh: nat, tx: Transaction) {
    && NoRepeats(tx.inputs) && tx.inputs != []
    && (forall k :: k in tx.inputs ==>
          && k in f.own && k in f.all
          && f.all[k].output.timeLock <= f.timestamp && f.own[k] <= f.timestamp
          && (f.blockLimit.Some? ==> f.all[k].block <= f.blockLimit.value))
    && tx.fee == (match o.fee
                  case Absolute(nanowits) => nanowits
                  case Relative(priority) => FeeFor(priority, o.Estimate(|tx.inputs|)))
    && (exists change: U64 ::
          && TotalValue(f, tx.inputs) == o.OutputValue() + tx.fee + change
          && tx.outputs == o.outputs + if change > 0 then [ValueTransferOutput(ownPkh, change, 0)] else [])
    && (o.Fits() ==>
          TotalValue(f, tx.inputs)
          == OutputsTotal(tx.outputs) + (if o.dr.Some? then o.dr.value.TotalValue() else 0) + tx.fee)
  }

  /** Different own outputs that may be used now and reach the amount. */
  ghost predicate EnoughFunds(f: Funds, other: seq<OutputPointer>, amount: nat) {
    && NoRepeats(other)
    && (forall k :: k in other ==> Usable(f, k))
    && TotalValue(f, other) >= amount
  }

  /** No free own outputs that cover the value and the fee are fewer. */
  ghost predicate IsMinimal(f: Funds, o: Order, tx: Transaction) {
    forall other :: EnoughFunds(f, other, o.OutputValue() + tx.fee) ==> |tx.inputs| <= |other|
  }

  /** No free own output that is left out is bigger than one that is spent, or smaller. */
  ghost predicate TakesFirst(f: Funds, tx: Transaction, biggerFirst: bool) {
    forall j, k :: j in tx.inputs && Usable(f, k) && k !in tx.inputs ==>
      if biggerFirst then f.Value(j) >= f.Value(k) else f.Value(j) <= f.Value(k)
  }

  /** All own outputs in an order of the strategy, or none when it does not allow the node's address. */
  ghost predicate Offered(f: Funds, ownPkh: nat, strategy: UtxoSelectionStrategy, order: seq<OutputPointer>) {
    && NoRepeats(order)
    && Elements(order) == (if strategy.from == None || strategy.from == Some(ownPkh) then f.own.Keys else {})
    && (strategy.BigFirst? ==> Sorted(f, order, true))
    && (strategy.SmallFirst? ==> Sorted(f, order, false))
  }

  /** What a build answers, for the order in which the own outputs are offered. */
  ghost predicate Answers(
    o: Order, f: Funds, ownPkh: nat, strategy: UtxoSelectionStrategy, order: seq<OutputPointer>, r: Outcome<Transaction>)
  {
    && Offered(f, ownPkh, strategy, order)
    && (r.Done? <==> Payable(o, f, order))
    && (r.Failed? ==> Refused(o, f, order, r.error))
  }

  /** Whatever different outputs the node owns are worth together fits in a word. */
  ghost predicate Countable(f: Funds) {
    forall s: seq<OutputPointer> :: NoRepeats(s) && (forall k :: k in s ==> k in f.own) ==> TotalValue(f, s) <= U64_MAX
  }

  /** With a given fee: everything fits, and the node has enough free outputs. */
  ghost predicate Affordable(o: Order, f: Funds, ownPkh: nat, strategy: UtxoSelectionStrategy)
    requires o.fee.Absolute?
  {
    var amount := o.OutputValue() + o.fee.nanowits;
    && (strategy.from == None || strategy.from == Some(ownPkh))
    && o.Estimate(1) <= o.maxWeight
    && 0 < amount <= U64_MAX
    && exists other :: EnoughFunds(f, other, amount)
  }

  /**
   * Everything that a build promises about its result. It succeeds exactly when the order can be
   * paid, and a refusal says why.
   */
  ghost predicate Builds(o: Order, f: Funds, ownPkh: nat, strategy: UtxoSelectionStrategy, r: Outcome<Transaction>) {
    && (o.fee.Absolute? || o.maxWeight < U32_MAX ==> !r.Panic?)
    && (exists order :: Answers(o, f, ownPkh, strategy, order, r))
    && (o.fee.Absolute? && Countable(f) ==> (r.Done? <==> Affordable(o, f, ownPkh, strategy)))
    && (r.Done? ==>
          && Spends(f, o, ownPkh, r.value)
          && (strategy.BigFirst? ==> IsMinimal(f, o, r.value) && TakesFirst(f, r.value, true))
          && (strategy.SmallFirst? ==> TakesFirst(f, r.value, false)))
  }

  class OwnUnspentOutputsPool {
    // Every own pointer with the time until which it is reserved.
    var reservations: map<OutputPointer, U64>

    constructor ()
      ensures reservations == map[]
    {
      reservations := map[];
    }

    /** `sort`: the keys come in no particular order, and are sorted by value. */
    method Sort(f: Funds, biggerFirst: bool) returns (order: seq<OutputPointer>)
      ensures NoRepeats(order) && Elements(order) == reservations.Keys && Sorted(f, order, biggerFirst)
    {
      order := [];
      var rest := reservations.Keys;
      while rest != {}
        invariant rest <= reservations.Keys
        invariant NoRepeats(order) && Elements(order) == reservations.Keys - rest && Sorted(f, order, biggerFirst)
        decreases rest
      {
        var k :| k in rest;
        order := InsertSorted(f, order, k, biggerFirst);
        rest := rest - {k};
      }
    }

    method SortBy(f: Funds, pkh: nat, strategy: UtxoSelectionStrategy) returns (order: seq<OutputPointer>)
      ensures NoRepeats(order)
      ensures Elements(order) == if strategy.from == None || strategy.from == Some(pkh) then reservations.Keys else {}
      ensures strategy.BigFirst? ==> Sorted(f, order, true)
      ensures strategy.SmallFirst? ==> Sorted(f, order, false)
    {
      if !strategy.AllowsFrom(pkh) {
        return [];
      }
      match strategy
      case BigFirst(_) => order := Sort(f, true);
      case SmallFirst(_) => order := Sort(f, false);
      case Random(_) =>
        order := [];
        var rest := reservations.Keys;
        while rest != {}
          invariant rest <= reservations.Keys
          invariant NoRepeats(order) && Elements(order) == reservations.Keys - rest
          decreases rest
        {
          var k :| k in rest;
          assert Elements(order + [k]) == Elements(order) + {k};
          order, rest := order + [k], rest - {k};
        }
    }

    /** `set_used_output_pointer`: panics when an input is not an own pointer. */
    method SetUsedOutputPointer(inputs: seq<OutputPointer>, until: U64)
      requires forall k :: k in inputs ==> k in reservations
      modifies this
      ensures reservations == Reserved(old(reservations), inputs, until)
    {
      for i := 0 to |inputs|
        invariant reservations == Reserved(old(reservations), inputs[..i], until)
      {
        reservations := reservations[inputs[i] := until];
        assert inputs[..i + 1] == inputs[..i] + [inputs[i]];
      }
      assert inputs[..|inputs|] == inputs;
    }

    /**
     * What `build_vtt`, `build_drt` and `build_commit_collateral` have in common. The inputs are
     * different own outputs that were free, the inputs' value goes to the outputs, the data
     * request and the fee, and the inputs are reserved unless this is a dry run.
     */
    method Build(o: Order, all: UtxoMap, ownPkh: nat, timestamp: U64, timeout: U64,
                 blockLimit: Option<nat>, strategy: UtxoSelectionStrategy, dryRun: bool)
      returns (r: Outcome<Transaction>)
      requires reservations.Keys <= all.Keys && timestamp + timeout <= U64_MAX
      modifies this
      ensures Builds(o, Funds(all, old(reservations), timestamp, blockLimit), ownPkh, strategy, r)
      ensures reservations == if !r.Done? || dryRun then old(reservations)
                              else Reserved(old(reservations), r.value.inputs, timestamp + timeout)
    {
      hide TotalValue, Take, Payable, Refused, Funded, Builds, Sorted, NoRepeats;
      var f := Funds(all, reservations, timestamp, blockLimit);
      var order := SortBy(f, ownPkh, strategy);
      assert forall k :: k in order ==> k in Elements(order);
      var info := BuildInputsOutputs(o, f, order);
      if info.Done? {
        var tx := info.value;
        FundedCovers(o, f, order, tx);
        var change := tx.inputs.totalValue - tx.outputValue - tx.fee;
        r := Done(Transaction(tx.inputs.pointers, WithChange(o.outputs, ownPkh, change), tx.fee));
        ResultBuilds(o, f, ownPkh, strategy, order, info, r);
        if !dryRun {
          SetUsedOutputPointer(tx.inputs.pointers, timestamp + timeout);
        }
      } else {
        r := if info.Panic? then Panic else Failed(info.error);
        ResultBuilds(o, f, ownPkh, strategy, order, info, r);
      }
    }

    method BuildVtt(outputs: seq<ValueTransferOutput>, fee: Fee, all: UtxoMap, ownPkh: nat, timestamp: U64,
                    timeout: U64, strategy: UtxoSelectionStrategy, maxWeight: U32, dryRun: bool)
      returns (r: Outcome<Transaction>)
      requires reservations.Keys <= all.Keys && timestamp + timeout <= U64_MAX
      modifies this
      ensures Builds(Order(outputs, None, fee, maxWeight), Funds(all, old(reservations), timestamp, None),
                     ownPkh, strategy, r)
      ensures reservations == if !r.Done? || dryRun then old(reservations)
                              else Reserved(old(reservations), r.value.inputs, timestamp + timeout)
    {
      r := Build(Order(outputs, None, fee, maxWeight), all, ownPkh, timestamp, timeout, None, strategy, dryRun);
    }

    method BuildDrt(dr: DataRequestOutput, fee: Fee, all: UtxoMap, ownPkh: nat, timestamp: U64,
                    timeout: U64, maxWeight: U32, dryRun: bool)
      returns (r: Outcome<Transaction>)
      requires reservations.Keys <= all.Keys && timestamp + timeout <= U64_MAX
      modifies this
      ensures Builds(Order([], Some(dr), fee, maxWeight), Funds(all, old(reservations), timestamp, None),
                     ownPkh, Random(None), r)
      ensures reservations == if !r.Done? || dryRun then old(reservations)
                              else Reserved(old(reservations), r.value.inputs, timestamp + timeout)
    {
      r := Build(Order([], Some(dr), fee, maxWeight), all, ownPkh, timestamp, timeout, None, Random(None), dryRun);
    }

    /** A commit's inputs exceed its outputs by exactly the collateral. */
    method BuildCommitCollateral(collateral: U64, all: UtxoMap, ownPkh: nat, timestamp: U64, timeout: U64, blockLimit: nat)
      returns (r: Outcome<Transaction>)
      requires reservations.Keys <= all.Keys && timestamp + timeout <= U64_MAX
      modifies this
      ensures Builds(Order([], None, Absolute(collateral), U32_MAX),
                     Funds(all, old(reservations), timestamp, Some(blockLimit)), ownPkh, SmallFirst(None), r)
      ensures !r.Panic?
      ensures r.Done? ==>
                TotalValue(Funds(all, old(reservations), timestamp, Some(blockLimit)), r.value.inputs)
                == OutputsTotal(r.value.outputs) + collateral
      ensures reservations == if r.Done? then Reserved(old(reservations), r.value.inputs, timestamp + timeout)
                              else old(reservations)
    {
      var o := Order([], None, Absolute(collateral), U32_MAX);
      r := Build(o, all, ownPkh, timestamp, timeout, Some(blockLimit), SmallFirst(None), false);
    }
  }

  /** What a build returns for what `build_inputs_outputs` returned. */
  lemma ResultBuilds(
    o: Order, f: Funds, ownPkh: nat, strategy: UtxoSelectionStrategy, order: seq<OutputPointer>,
    info: Outcome<TransactionInfo>, r: Outcome<Transaction>)
    requires Offered(f, ownPkh, strategy, order) && f.own.Keys <= f.all.Keys
    requires info.Panic? ==> o.fee.Relative? && o.maxWeight == U32_MAX
    requires (info.Done? <==> Payable(o, f, order)) && (info.Failed? ==> Refused(o, f, order, info.error))
    requires info.Done? ==> Funded(o, f, order, info.value)
    requires match info
             case Panic => r == Panic
             case Failed(e) => r == Failed(e)
             case Done(tx) =>
               var left := tx.inputs.totalValue - tx.outputValue - tx.fee;
               0 <= left <= U64_MAX
               && r == Done(Transaction(tx.inputs.pointers, WithChange(o.outputs, ownPkh, left), tx.fee))
    ensures Builds(o, f, ownPkh, strategy, r)
  {
    hide TotalValue, Take, Payable, Refused, Funded, Spends, IsMinimal, TakesFirst, Countable, Affordable, Offered,
         WithChange, NoRepeats, Order.OutputValue, Order.Estimate;
    OfferedAreOwn(f, ownPkh, strategy, order);
    if info.Done? {
      var tx := info.value;
      BuiltSpends(o, f, order, tx, ownPkh, tx.inputs.totalValue - tx.outputValue - tx.fee);
      BuiltFirst(o, f, ownPkh, strategy, order, tx, r.value);
    }
    assert Answers(o, f, ownPkh, strategy, order, r);
    if o.fee.Absolute? && Countable(f) {
      PayableIff(o, f, ownPkh, strategy, order);
    }
  }

  lemma OfferedAreOwn(f: Funds, ownPkh: nat, strategy: UtxoSelectionStrategy, order: seq<OutputPointer>)
    requires Offered(f, ownPkh, strategy, order) && f.own.Keys <= f.all.Keys
    ensures NoRepeats(order) && forall k :: k in order ==> k in f.own && k in f.all
  {
    hide NoRepeats, Sorted;
    assert forall k :: k in order ==> k in Elements(order);
  }

  lemma BuiltSpends(o: Order, f: Funds, order: seq<OutputPointer>, tx: TransactionInfo, ownPkh: nat, change: U64)
    requires NoRepeats(order) && Funded(o, f, order, tx) && change == tx.inputs.totalValue - tx.outputValue - tx.fee
    requires forall k :: k in order ==> k in f.own && k in f.all
    ensures Spends(f, o, ownPkh, Transaction(tx.inputs.pointers, WithChange(o.outputs, ownPkh, change), tx.fee))
  {
    hide TotalValue, FeeFor, WeightOf, Take, OutputsTotal, NoRepeats, Order.Estimate, Order.OutputValue;
    FundedCovers(o, f, order, tx);
    ConservedIff(o, f, order, tx, ownPkh, change);
  }

  lemma BuiltFirst(
    o: Order, f: Funds, ownPkh: nat, strategy: UtxoSelectionStrategy, order: seq<OutputPointer>, info: TransactionInfo,
    tx: Transaction)
    requires Offered(f, ownPkh, strategy, order) && Funded(o, f, order, info)
    requires f.own.Keys <= f.all.Keys
    requires tx.inputs == info.inputs.pointers && tx.fee == info.fee
    ensures strategy.BigFirst? ==> IsMinimal(f, o, tx) && TakesFirst(f, tx, true)
    ensures strategy.SmallFirst? ==> TakesFirst(f, tx, false)
  {
    hide TotalValue, Take, FeeFor, WeightOf, EnoughFunds, Usable;
    FundedCovers(o, f, order, info);
    assert info.inputs.pointers[0] in Elements(order);
    if strategy.BigFirst? {
      FewestInputs(f, order, info.outputValue + info.fee);
      FirstInOrder(f, order, info.outputValue + info.fee, true);
    }
    if strategy.SmallFirst? {
      FirstInOrder(f, order, info.outputValue + info.fee, false);
    }
  }

  lemma FirstInOrder(f: Funds, order: seq<OutputPointer>, amount: nat, biggerFirst: bool)
    requires NoRepeats(order) && Elements(order) == f.own.Keys && Sorted(f, order, biggerFirst)
    requires Take(f, order, amount).Ok?
    ensures var pointers := Take(f, order, amount).value.pointers;
            forall j, k :: j in pointers && Usable(f, k) && k !in pointers ==>
              if biggerFirst then f.Value(j) >= f.Value(k) else f.Value(j) <= f.Value(k)
  {
    hide Take;
    var pointers := Take(f, order, amount).value.pointers;
    forall j, k | j in pointers && Usable(f, k) && k !in pointers
      ensures if biggerFirst then f.Value(j) >= f.Value(k) else f.Value(j) <= f.Value(k)
    {
      EligibleIff(f, k);
      assert k in Elements(order);
      var a, b := LeftOutComesLater(f, order, amount, j, k);
    }
  }

  /** Parts of a list of different outputs are worth no more than the whole. */
  lemma {:induction false} PartValue(f: Funds, s: seq<OutputPointer>, t: seq<OutputPointer>)
    requires NoRepeats(s) && NoRepeats(t) && forall k :: k in t ==> k in s
    ensures TotalValue(f, t) <= TotalValue(f, s)
    decreases |s|
  {
    hide TotalValue;
    if t == [] {
      ScanFromTheStart(f, t);
    } else {
      assert t[0] in s;
      var n := |s| - 1;
      TotalStep(f, s, n);
      assert s[..n + 1] == s;
      if s[n] in t {
        var i, u := TakeOut(t, s[n]);
        TotalWithout(f, t, i);
        assert forall k :: k in u ==> k in s[..n];
        PartValue(f, s[..n], u);
      } else {
        assert forall k :: k in t ==> k in s[..n];
        PartValue(f, s[..n], t);
      }
    }
  }

  /** The amount can be taken exactly when there are free own outputs that reach it. */
  lemma EnoughIff(f: Funds, order: seq<OutputPointer>, amount: nat)
    requires NoRepeats(order) && Elements(order) == f.own.Keys && f.own.Keys <= f.all.Keys
    requires amount > 0 && TotalValue(f, order) <= U64_MAX
    ensures Take(f, order, amount).Ok? <==> exists other :: EnoughFunds(f, other, amount)
  {
    hide TotalValue, Take, Eligibles, Funds.Eligible;
    var free := Eligibles(f, order);
    NoMoneyIff(f, order, amount);
    EligiblesAre(f, order);
    forall k
      ensures k in free <==> Usable(f, k)
    {
      assert k in order <==> k in Elements(order);
      if k in order {
        EligibleIff(f, k);
      }
    }
    if Take(f, order, amount).Ok? {
      assert EnoughFunds(f, free, amount);
    }
    if other :| EnoughFunds(f, other, amount) {
      PartValue(f, free, other);
    }
  }

  /** In whatever order the own outputs are offered, the order is paid exactly when it is affordable. */
  lemma PayableIff(o: Order, f: Funds, ownPkh: nat, strategy: UtxoSelectionStrategy, order: seq<OutputPointer>)
    requires o.fee.Absolute? && Countable(f) && Offered(f, ownPkh, strategy, order) && f.own.Keys <= f.all.Keys
    ensures Payable(o, f, order) <==> Affordable(o, f, ownPkh, strategy)
  {
    hide Take, TotalValue, Order.OutputValue, Order.Estimate, Order.AmountFor, EnoughFunds, Countable, Sorted, NoRepeats;
    var amount := o.AmountFor(0);
    AbsoluteAmount(o);
    TotalFits(f, ownPkh, strategy, order);
    ZeroAmountIff(f, order, amount);
    if strategy.from != None && strategy.from != Some(ownPkh) {
      NothingOffered(f, order, amount);
    } else if amount > 0 {
      EnoughIff(f, order, amount);
    }
  }

  lemma AbsoluteAmount(o: Order)
    requires o.fee.Absolute?
    ensures o.AmountFor(0) == o.OutputValue() + o.fee.nanowits
  {
  }

  lemma TotalFits(f: Funds, ownPkh: nat, strategy: UtxoSelectionStrategy, order: seq<OutputPointer>)
    requires Countable(f) && Offered(f, ownPkh, strategy, order)
    ensures TotalValue(f, order) <= U64_MAX
  {
    hide TotalValue, Sorted;
    assert forall k :: k in order ==> k in Elements(order);
  }

  lemma NothingOffered(f: Funds, order: seq<OutputPointer>, amount: nat)
    requires Elements(order) == {}
    ensures Take(f, order, amount).Err?
  {
    NoElements(order);
  }

  lemma FewestInputs(f: Funds, order: seq<OutputPointer>, amount: nat)
    requires NoRepeats(order) && Elements(order) == f.own.Keys && Sorted(f, order, true)
    requires Take(f, order, amount).Ok?
    ensures forall other :: EnoughFunds(f, other, amount) ==> |Take(f, order, amount).value.pointers| <= |other|
  {
    forall other | EnoughFunds(f, other, amount)
      ensures |Take(f, order, amount).value.pointers| <= |other|
    {
      assert forall k :: k in other ==> k in Elements(order);
      forall k | k in other ensures f.Eligible(k) {
        EligibleIff(f, k);
      }
      BigFirstIsMinimal(f, order, amount, other);
    }
  }

  /** Whether an output worth `a` may come before one worth `b`. */
  predicate MayPrecede(a: nat, b: nat, biggerFirst: bool) {
    if biggerFirst then a >= b else a <= b
  }

  method InsertSorted(f: Funds, s: seq<OutputPointer>, k: OutputPointer, biggerFirst: bool)
    returns (t: seq<OutputPointer>)
    requires NoRepeats(s) && k !in s && Sorted(f, s, biggerFirst)
    ensures NoRepeats(t) && Elements(t) == Elements(s) + {k} && Sorted(f, t, biggerFirst)
  {
    hide NoRepeats, Elements, Sorted, Funds.Value;
    var i := 0;
    while i < |s| && MayPrecede(f.Value(s[i]), f.Value(k), biggerFirst)
      invariant 0 <= i <= |s|
      invariant forall j :: 0 <= j < i ==> MayPrecede(f.Value(s[j]), f.Value(k), biggerFirst)
    {
      i := i + 1;
    }
    t := s[..i] + [k] + s[i..];
    InsertKeeps(s, k, i);
    InsertKeepsOrder(f, s, k, i, biggerFirst);
  }

  lemma InsertKeepsOrder(f: Funds, s: seq<OutputPointer>, k: OutputPointer, i: nat, biggerFirst: bool)
    requires Sorted(f, s, biggerFirst) && i <= |s|
    requires forall j :: 0 <= j < i ==> MayPrecede(f.Value(s[j]), f.Value(k), biggerFirst)
    requires i < |s| ==> !MayPrecede(f.Value(s[i]), f.Value(k), biggerFirst)
    ensures Sorted(f, s[..i] + [k] + s[i..], biggerFirst)
  {
    hide Funds.Value;
    var t := s[..i] + [k] + s[i..];
    forall a, b | 0 <= a < b < |t|
      ensures MayPrecede(f.Value(t[a]), f.Value(t[b]), biggerFirst)
    {
      assert a < i ==> t[a] == s[a];
      assert a > i ==> t[a] == s[a - 1];
      assert b < i ==> t[b] == s[b];
      assert b > i ==> t[b] == s[b - 1];
    }
  }

  lemma InsertKeeps<T>(s: seq<T>, x: T, i: nat)
    requires NoRepeats(s) && x !in s && i <= |s|
    ensures NoRepeats(s[..i] + [x] + s[i..]) && Elements(s[..i] + [x] + s[i..]) == Elements(s) + {x}
  {
    assert s == s[..i] + s[i..];
  }

  // ----- Runs of builds -----

  datatype Event =
    | Built(time: nat, inputs: seq<OutputPointer>)  // a transaction that was not a dry run
    | Received(k: OutputPointer, until: nat)        // a new own output
    | Spent(k: OutputPointer)                       // an own output leaves the set

  function InputsOf(events: seq<Event>): set<OutputPointer> {
    if events == [] then {}
    else
      var e := events[|events| - 1];
      InputsOf(events[..|events| - 1]) + if e.Built? then Elements(e.inputs) else {}
  }

  function OwnAfter(own: map<OutputPointer, nat>, events: seq<Event>, timeout: nat): map<OutputPointer, nat> {
    if events == [] then own
    else
      var before := OwnAfter(own, events[..|events| - 1], timeout);
      match events[|events| - 1]
      case Built(time, inputs) => Reserved(before, inputs, time + timeout)
      case Received(k, until) => before[k := until]
      case Spent(k) => before - {k}
  }

  function LastTime(events: seq<Event>): nat {
    if events == [] then 0
    else if events[|events| - 1].Built? then events[|events| - 1].time
    else LastTime(events[..|events| - 1])
  }

  /**
   * Time does not go back, a build takes own outputs that are free at its time, as every build
   * does (`BuildInRun`), and an output that was used does not come back.
   */
  ghost predicate Legal(own: map<OutputPointer, nat>, events: seq<Event>, timeout: nat) {
    events != [] ==>
      var init := events[..|events| - 1];
      var before := OwnAfter(own, init, timeout);
      && Legal(own, init, timeout)
      && match events[|events| - 1]
         case Built(time, inputs) =>
           LastTime(init) <= time && forall k :: k in inputs ==> k in before && before[k] <= time
         case Received(k, _) => k !in InputsOf(init)
         case Spent(_) => true
  }

  /** A used output stays reserved for the whole timeout, or is gone for good. */
  lemma {:induction false} ReservationHolds(
    own: map<OutputPointer, nat>, events: seq<Event>, timeout: nat, i: nat, k: OutputPointer)
    requires Legal(own, events, timeout)
    requires i < |events| && events[i].Built? && k in events[i].inputs
    ensures k in InputsOf(events) && events[i].time <= LastTime(events)
    ensures k in OwnAfter(own, events, timeout) ==> OwnAfter(own, events, timeout)[k] >= events[i].time + timeout
    decreases |events|
  {
    var n := |events| - 1;
    if i < n {
      assert events[..n][i] == events[i];
      ReservationHolds(own, events[..n], timeout, i, k);
    }
  }

  /** Two builds less than the timeout apart never share an input. */
  lemma {:induction false} BuildsDoNotShare(own: map<OutputPointer, nat>, events: seq<Event>, timeout: nat, i: nat, j: nat)
    requires Legal(own, events, timeout)
    requires i < j < |events| && events[i].Built? && events[j].Built?
    requires events[j].time < events[i].time + timeout
    ensures Elements(events[i].inputs) !! Elements(events[j].inputs)
    decreases |events|
  {
    var n := |events| - 1;
    if j < n {
      assert events[..n][i] == events[i] && events[..n][j] == events[j];
      BuildsDoNotShare(own, events[..n], timeout, i, j);
    } else {
      forall k | k in events[i].inputs
        ensures k !in events[j].inputs
      {
        assert events[..n][i] == events[i];
        ReservationHolds(own, events[..n], timeout, i, k);
      }
    }
  }

  /** A transaction of free own outputs is a legal event, and reserving its inputs is its effect. */
  lemma SpendingIsLegal(
    own: map<OutputPointer, nat>, events: seq<Event>, timeout: nat, f: Funds, o: Order, ownPkh: nat, tx: Transaction)
    requires Legal(own, events, timeout) && LastTime(events) <= f.timestamp
    requires f.own == OwnAfter(own, events, timeout) && Spends(f, o, ownPkh, tx)
    ensures var more := events + [Built(f.timestamp, tx.inputs)];
            && Legal(own, more, timeout)
            && OwnAfter(own, more, timeout) == Reserved(f.own, tx.inputs, f.timestamp + timeout)
  {
    hide TotalValue, FeeFor, WeightOf, OutputsTotal, Reserved;
    var more := events + [Built(f.timestamp, tx.inputs)];
    assert more[..|more| - 1] == events;
  }

  /** A build in the middle of any run: whatever it returns, the run goes on legally. */
  method BuildInRun(
    pool: OwnUnspentOutputsPool, ghost own: map<OutputPointer, nat>, ghost events: seq<Event>,
    o: Order, all: UtxoMap, ownPkh: nat, timestamp: U64, timeout: U64, blockLimit: Option<nat>,
    strategy: UtxoSelectionStrategy)
    returns (r: Outcome<Transaction>, ghost more: seq<Event>)
    requires Legal(own, events, timeout) && LastTime(events) <= timestamp
    requires pool.reservations == OwnAfter(own, events, timeout)
    requires pool.reservations.Keys <= all.Keys && timestamp + timeout <= U64_MAX
    modifies pool
    ensures more == if r.Done? then events + [Built(timestamp, r.value.inputs)] else events
    ensures Legal(own, more, timeout) && pool.reservations == OwnAfter(own, more, timeout)
  {
    hide Spends, IsMinimal, Legal, OwnAfter, LastTime, Answers, Affordable, Countable;
    ghost var f := Funds(all, pool.reservations, timestamp, blockLimit);
    r := pool.Build(o, all, ownPkh, timestamp, timeout, blockLimit, strategy, false);
    more := events;
    if r.Done? {
      SpendingIsLegal(own, events, timeout, f, o, ownPkh, r.value);
      more := events + [Built(timestamp, r.value.inputs)];
    }
  }
}
