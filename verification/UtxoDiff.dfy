/** `UtxoDiff` and `Diff::apply`, and whole runs of blocks, snapshots and persists. */
module UtxoDiffs {
  import opened Options
  import opened UtxoPool

  datatype Edit = Insert(k: OutputPointer, u: Utxo) | Remove(k: OutputPointer)

  const NO_DIFF := Diff(map[], {})

  // ----- One block, on values -----

  /** The outputs that a second diff over a pool's outputs stands for. The pool is asked first. */
  function DiffView(diff: Diff, pool: UtxoMap): UtxoMap {
    (diff.toAdd + pool) - diff.toRemove
  }

  function EditedDiff(diff: Diff, e: Edit): Diff {
    match e
    case Insert(k, u) => diff.(toAdd := diff.toAdd[k := u])
    case Remove(k) =>
      if k in diff.toAdd then diff.(toAdd := diff.toAdd - {k})
      else diff.(toRemove := diff.toRemove + {k})
  }

  /** What an edit means on a plain map. */
  function EditedMap(m: UtxoMap, e: Edit): UtxoMap {
    match e
    case Insert(k, u) => m[k := u]
    case Remove(k) => m - {k}
  }

  function BlockDiff(edits: seq<Edit>): Diff {
    if edits == [] then NO_DIFF else EditedDiff(BlockDiff(edits[..|edits| - 1]), edits[|edits| - 1])
  }

  function BlockMap(m: UtxoMap, edits: seq<Edit>): UtxoMap {
    if edits == [] then m else EditedMap(BlockMap(m, edits[..|edits| - 1]), edits[|edits| - 1])
  }

  /** Insertions are of pointers that nothing knows, removals of outputs that are there. */
  ghost predicate Allowed(e: Edit, diff: Diff, live: Diff, db: UtxoMap) {
    match e
    case Insert(k, _) =>
      && k !in diff.toAdd && k !in diff.toRemove
      && k !in live.toAdd && k !in live.toRemove && k !in db
    case Remove(k) => k in DiffView(diff, View(live, db))
  }

  ghost predicate ValidBlock(edits: seq<Edit>, live: Diff, db: UtxoMap) {
    edits != [] ==>
      && ValidBlock(edits[..|edits| - 1], live, db)
      && Allowed(edits[|edits| - 1], BlockDiff(edits[..|edits| - 1]), live, db)
  }

  /** A diff that adds only unknown pointers and removes only outputs of the pool. */
  ghost predicate Over(diff: Diff, live: Diff, db: UtxoMap) {
    && diff.toAdd.Keys !! live.toAdd.Keys
    && diff.toAdd.Keys !! live.toRemove
    && diff.toAdd.Keys !! db.Keys
    && diff.toRemove <= View(live, db).Keys
  }

  /** The block's diff agrees with a plain map that is edited step by step. */
  lemma {:induction false} BlockAgrees(edits: seq<Edit>, live: Diff, db: UtxoMap)
    requires ValidBlock(edits, live, db)
    ensures Over(BlockDiff(edits), live, db)
    ensures DiffView(BlockDiff(edits), View(live, db)) == BlockMap(View(live, db), edits)
    decreases |edits|
  {
    if edits != [] {
      BlockAgrees(edits[..|edits| - 1], live, db);
      EditAgrees(BlockDiff(edits[..|edits| - 1]), edits[|edits| - 1], live, db);
    }
  }

  lemma EditAgrees(diff: Diff, e: Edit, live: Diff, db: UtxoMap)
    requires Over(diff, live, db) && Allowed(e, diff, live, db)
    ensures Over(EditedDiff(diff, e), live, db)
    ensures DiffView(EditedDiff(diff, e), View(live, db)) == EditedMap(DiffView(diff, View(live, db)), e)
  {
  }

  function Applied(live: Diff, diff: Diff): Diff {
    Diff(live.toAdd + diff.toAdd, live.toRemove + diff.toRemove)
  }

  /** Applying the diff to the pool gives its outputs, and no assertion of the pool fails. */
  lemma ApplyAgrees(diff: Diff, live: Diff, db: UtxoMap)
    requires Over(diff, live, db) && Coherent(live, db)
    ensures diff.toAdd.Keys !! live.toAdd.Keys && diff.toRemove !! live.toRemove
    ensures Coherent(Applied(live, diff), db)
    ensures View(Applied(live, diff), db) == DiffView(diff, View(live, db))
  {
  }

  // ----- The classes -----

  class UtxoDiff {
    var diff: Diff
    const utxoSet: UnspentOutputsPool
    const blockNumber: nat

    constructor (utxoSet: UnspentOutputsPool, blockNumber: nat)
      ensures this.utxoSet == utxoSet && this.blockNumber == blockNumber && diff == NO_DIFF
    {
      this.utxoSet, this.blockNumber, diff := utxoSet, blockNumber, NO_DIFF;
    }

    function Utxos(): UtxoMap
      reads this, utxoSet, utxoSet.db
    {
      DiffView(diff, utxoSet.Utxos())
    }

    /** On a diff of the kind that blocks make, the outputs change as a plain map does. */
    ghost predicate Shows(e: Edit)
      reads this, utxoSet, utxoSet.db
    {
      Over(diff, utxoSet.diff, utxoSet.Stored()) && Allowed(e, diff, utxoSet.diff, utxoSet.Stored())
    }

    method InsertUtxo(k: OutputPointer, output: ValueTransferOutput, block: Option<nat>)
      modifies this
      ensures var u := Utxo(output, if block.Some? then block.value else blockNumber);
              && diff == EditedDiff(old(diff), Insert(k, u))
              && (old(Shows(Insert(k, u))) ==> Utxos() == old(Utxos())[k := u])
    {
      var u := Utxo(output, if block.Some? then block.value else blockNumber);
      if Shows(Insert(k, u)) {
        EditAgrees(diff, Insert(k, u), utxoSet.diff, utxoSet.Stored());
      }
      diff := diff.(toAdd := diff.toAdd[k := u]);
    }

    method RemoveUtxo(k: OutputPointer)
      modifies this
      ensures diff == EditedDiff(old(diff), Remove(k))
      ensures old(Shows(Remove(k))) ==> Utxos() == old(Utxos()) - {k}
    {
      if Shows(Remove(k)) {
        EditAgrees(diff, Remove(k), utxoSet.diff, utxoSet.Stored());
      }
      if k in diff.toAdd {
        diff := diff.(toAdd := diff.toAdd - {k});
      } else {
        diff := diff.(toRemove := diff.toRemove + {k});
      }
    }

    method Get(k: OutputPointer) returns (r: Option<ValueTransferOutput>)
      ensures r == if k in Utxos() then Some(Utxos()[k].output) else None
    {
      var fromPool := utxoSet.GetMap(k);
      if fromPool.Some? {
        r := Some(fromPool.value.output);
      } else if k in diff.toAdd {
        r := Some(diff.toAdd[k].output);
      } else {
        r := None;
      }
      if r.Some? && k in diff.toRemove {
        r := None;
      }
    }
  }

  /** `Diff::apply` */
  method Apply(diff: Diff, pool: UnspentOutputsPool)
    requires diff.toAdd.Keys !! pool.diff.toAdd.Keys && diff.toRemove !! pool.diff.toRemove
    modifies pool
    ensures pool.diff == Applied(old(pool.diff), diff)
  {
    hide View;
    var adds, removes := diff.toAdd.Keys, diff.toRemove;
    while adds != {}
      invariant adds <= diff.toAdd.Keys
      invariant pool.diff == Diff(old(pool.diff.toAdd) + (diff.toAdd - adds), old(pool.diff.toRemove))
      decreases adds
    {
      var k :| k in adds;
      pool.Insert(k, diff.toAdd[k]);
      adds := adds - {k};
      assert diff.toAdd - adds == (diff.toAdd - (adds + {k}))[k := diff.toAdd[k]];
    }
    assert diff.toAdd - adds == diff.toAdd;
    while removes != {}
      invariant removes <= diff.toRemove
      invariant pool.diff == Diff(old(pool.diff.toAdd) + diff.toAdd, old(pool.diff.toRemove) + (diff.toRemove - removes))
      decreases removes
    {
      var k :| k in removes;
      pool.Remove(k);
      removes := removes - {k};
      assert diff.toRemove - removes == diff.toRemove - (removes + {k}) + {k};
    }
    assert diff.toRemove - removes == diff.toRemove;
  }

  // ----- Whole runs -----

  datatype Event =
    | Block(edits: seq<Edit>)   // a validated block is applied to the live pool
    | TakeSnapshot(index: nat)  // the live pool is cloned for a superblock
    | Consolidate(index: nat)   // that superblock's snapshot is pruned from the live pool and persisted
    | PersistLive               // during synchronization, the live pool itself is persisted

  datatype Snapshot = Snapshot(diff: Diff, index: nat)

  /**
   * The live pool's diff, the snapshot if there is one, the highest superblock whose snapshot was
   * persisted, and the database. A snapshot is stale when the live pool was persisted after it was
   * taken.
   */
  datatype Chain = Chain(live: Diff, snapshot: Option<Snapshot>, stale: bool, highest: nat, db: UtxoMap)

  ghost function Start(db: UtxoMap, highest: nat): Chain {
    Chain(NO_DIFF, None, false, highest, db)
  }

  ghost function Inserted(edits: seq<Edit>): set<OutputPointer> {
    set e | e in edits && e.Insert? :: e.k
  }

  /** Blocks do not create outputs again that a stale snapshot knows: pointers are not reused. */
  ghost predicate Enabled(c: Chain, e: Event) {
    e.Block? ==>
      && ValidBlock(e.edits, c.live, c.db)
      && (c.snapshot.Some? && c.stale ==>
            Inserted(e.edits) !! c.snapshot.value.diff.toAdd.Keys + c.snapshot.value.diff.toRemove)
  }

  /** What `remove_persisted_from_memory` unwraps and asserts. */
  ghost predicate InMemory(live: Diff, persisted: Diff) {
    persisted.toAdd.Keys <= live.toAdd.Keys && persisted.toRemove <= live.toRemove
  }

  /** Superblock 0 and the highest persisted one are not persisted again. */
  ghost predicate AlreadyPersisted(c: Chain, index: nat) {
    index == 0 || index == c.highest
  }

  /** `restore` finds the snapshot it is asked for. */
  ghost predicate Restorable(c: Chain, index: nat) {
    index > c.highest && c.snapshot.Some? && c.snapshot.value.index == index
  }

  /** None when the node panics. */
  ghost function Step(c: Chain, e: Event): Option<Chain> {
    match e
    case Block(edits) => Some(c.(live := Applied(c.live, BlockDiff(edits))))
    case TakeSnapshot(index) => Some(c.(snapshot := Some(Snapshot(c.live, index)), stale := false))
    case Consolidate(index) =>
      if AlreadyPersisted(c, index) then Some(c)
      else if !Restorable(c, index) then None
      else
        var persisted := c.snapshot.value.diff;
        if !InMemory(c.live, persisted) then None
        else Some(Chain(Pruned(c.live, persisted), None, false, index, View(persisted, c.db)))
    case PersistLive => Some(c.(live := Pruned(c.live, c.live), stale := true, db := View(c.live, c.db)))
  }

  ghost function Run(c: Chain, events: seq<Event>): Option<Chain> {
    if events == [] then Some(c)
    else
      var before := Run(c, events[..|events| - 1]);
      if before.None? then None else Step(before.value, events[|events| - 1])
  }

  /** The events up to a panic are possible. */
  ghost predicate EnabledRun(c: Chain, events: seq<Event>) {
    events != [] ==>
      var before := Run(c, events[..|events| - 1]);
      && EnabledRun(c, events[..|events| - 1])
      && (before.Some? ==> Enabled(before.value, events[|events| - 1]))
  }

  /** One plain map, edited by the blocks and by nothing else. */
  ghost function Reference(m: UtxoMap, events: seq<Event>): UtxoMap {
    if events == [] then m
    else
      var before, e := Reference(m, events[..|events| - 1]), events[|events| - 1];
      if e.Block? then BlockMap(before, e.edits) else before
  }

  /** A snapshot that the live pool was not persisted after is part of it. */
  ghost predicate Fresh(c: Chain, snapshot: Diff) {
    && Coherent(snapshot, c.db)
    && Extends(c.live, snapshot)
    && !Resurrects(c.live, snapshot)
  }

  /** Nothing of a stale snapshot is in memory, and what it removed is gone for good. */
  ghost predicate Stale(c: Chain, snapshot: Diff) {
    && snapshot.toAdd.Keys !! c.live.toAdd.Keys
    && snapshot.toRemove !! c.live.toRemove
    && snapshot.toRemove !! View(c.live, c.db).Keys
  }

  ghost predicate Sound(c: Chain) {
    && Coherent(c.live, c.db)
    && (c.snapshot.Some? ==>
          if c.stale then Stale(c, c.snapshot.value.diff) else Fresh(c, c.snapshot.value.diff))
  }

  /**
   * A snapshot is missing where one is needed, or it is stale and holds something.
   */
  ghost predicate Breaks(c: Chain, e: Event) {
    && e.Consolidate?
    && !AlreadyPersisted(c, e.index)
    && (Restorable(c, e.index) ==> c.stale && c.snapshot.value.diff != NO_DIFF)
  }

  /** Exactly when a step panics. */
  lemma StepPanicsIff(c: Chain, e: Event)
    requires Sound(c) && Enabled(c, e)
    ensures Step(c, e).None? <==> Breaks(c, e)
  {
    if c.snapshot.Some? && c.stale {
      StaleInMemory(c, c.snapshot.value.diff);
    }
  }

  lemma StaleInMemory(c: Chain, snapshot: Diff)
    requires Stale(c, snapshot)
    ensures InMemory(c.live, snapshot) <==> snapshot == NO_DIFF
  {
    if InMemory(c.live, snapshot) {
      assert snapshot.toAdd.Keys == {} && snapshot.toRemove == {};
      assert snapshot.toAdd == map[];
    }
  }

  /** A block keeps everything sound, and the pool's outputs change as a plain map does. */
  lemma BlockStep(c: Chain, edits: seq<Edit>)
    requires Sound(c) && Enabled(c, Block(edits))
    ensures var c' := Step(c, Block(edits)).value;
            Sound(c') && View(c'.live, c'.db) == BlockMap(View(c.live, c.db), edits)
  {
    var diff := BlockDiff(edits);
    BlockAgrees(edits, c.live, c.db);
    ApplyAgrees(diff, c.live, c.db);
    if c.snapshot.Some? {
      if c.stale {
        BlockAdds(edits);
        hide BlockMap, BlockDiff, ValidBlock, Inserted;
        BlockKeepsStale(c, c.snapshot.value.diff, diff);
      } else {
        BlockKeepsFresh(c, c.snapshot.value.diff, diff);
      }
    }
  }

  lemma BlockKeepsFresh(c: Chain, snapshot: Diff, diff: Diff)
    requires Fresh(c, snapshot) && Over(diff, c.live, c.db)
    ensures Fresh(c.(live := Applied(c.live, diff)), snapshot)
  {
  }

  lemma BlockKeepsStale(c: Chain, snapshot: Diff, diff: Diff)
    requires Stale(c, snapshot) && Over(diff, c.live, c.db) && Coherent(c.live, c.db)
    requires diff.toAdd.Keys !! snapshot.toAdd.Keys + snapshot.toRemove
    ensures Stale(c.(live := Applied(c.live, diff)), snapshot)
  {
    ApplyAgrees(diff, c.live, c.db);
  }

  /** A block's diff adds only what the block inserts. */
  lemma {:induction false} BlockAdds(edits: seq<Edit>)
    ensures BlockDiff(edits).toAdd.Keys <= Inserted(edits)
    decreases |edits|
  {
    if edits != [] {
      var n := |edits| - 1;
      BlockAdds(edits[..n]);
      assert edits[n] in edits;
      forall k | k in Inserted(edits[..n])
        ensures k in Inserted(edits)
      {
        var e :| e in edits[..n] && e.Insert? && e.k == k;
        assert e in edits;
      }
    }
  }

  lemma PersistLiveStep(c: Chain)
    requires Sound(c)
    ensures var c' := Step(c, PersistLive).value;
            Sound(c') && View(c'.live, c'.db) == View(c.live, c.db)
  {
    PersistInSteps(c.live, c.live, c.db);
    assert Pruned(c.live, c.live).toAdd.Keys == {};
  }

  lemma ConsolidateStep(c: Chain, index: nat)
    requires Sound(c) && Step(c, Consolidate(index)).Some?
    ensures var c' := Step(c, Consolidate(index)).value;
            Sound(c') && View(c'.live, c'.db) == View(c.live, c.db)
  {
    if !AlreadyPersisted(c, index) {
      var snapshot := c.snapshot.value.diff;
      if c.stale {
        StaleInMemory(c, snapshot);
        EmptySnapshot(c.live, c.db);
      } else {
        PersistInSteps(c.live, snapshot, c.db);
      }
    }
  }

  lemma EmptySnapshot(live: Diff, db: UtxoMap)
    ensures Pruned(live, NO_DIFF) == live && View(NO_DIFF, db) == db
  {
  }

  /**
   * In every run the live pool behaves as one plain map: blocks edit it, and taking snapshots,
   * persisting and pruning them never shows.
   */
  lemma {:induction false} PoolIsPlainMap(db: UtxoMap, highest: nat, events: seq<Event>)
    requires EnabledRun(Start(db, highest), events)
    ensures var c := Run(Start(db, highest), events);
            c.Some? ==> Sound(c.value) && View(c.value.live, c.value.db) == Reference(db, events)
    decreases |events|
  {
    hide BlockMap, BlockDiff, ValidBlock, Stale, Fresh, Coherent;
    var start := Start(db, highest);
    if events == [] {
      StartIsSound(db, highest);
    } else {
      var n := |events| - 1;
      PoolIsPlainMap(db, highest, events[..n]);
      var before, e := Run(start, events[..n]), events[n];
      if before.Some? && Step(before.value, e).Some? {
        match e
        case Block(edits) => BlockStep(before.value, edits);
        case TakeSnapshot(index) => FreshAtFirst(before.value, index);
        case Consolidate(index) => ConsolidateStep(before.value, index);
        case PersistLive => PersistLiveStep(before.value);
      }
    }
  }

  lemma StartIsSound(db: UtxoMap, highest: nat)
    ensures Sound(Start(db, highest)) && View(NO_DIFF, db) == db
  {
  }

  lemma FreshAtFirst(c: Chain, index: nat)
    requires Sound(c)
    ensures Sound(c.(snapshot := Some(Snapshot(c.live, index)), stale := false))
  {
  }

  /** In every run the next event panics if and only if it breaks the rules of snapshots. */
  lemma RunPanicsIff(db: UtxoMap, highest: nat, events: seq<Event>, e: Event)
    requires EnabledRun(Start(db, highest), events + [e])
    ensures var before := Run(Start(db, highest), events);
            before.Some? ==> (Run(Start(db, highest), events + [e]).None? <==> Breaks(before.value, e))
  {
    assert (events + [e])[..|events|] == events;
    PoolIsPlainMap(db, highest, events);
    hide BlockMap, BlockDiff, ValidBlock, Sound;
    var before := Run(Start(db, highest), events);
    if before.Some? {
      StepPanicsIff(before.value, e);
    }
  }

  lemma RunStep(c: Chain, events: seq<Event>, e: Event)
    requires EnabledRun(c, events) && Run(c, events).Some? && Enabled(Run(c, events).value, e)
    ensures EnabledRun(c, events + [e]) && Run(c, events + [e]) == Step(Run(c, events).value, e)
  {
    assert (events + [e])[..|events|] == events;
  }

  /** One output, a snapshot, a persist of the live pool: the snapshot can no longer be consolidated. */
  lemma StaleSnapshotFails(k: OutputPointer, u: Utxo)
    ensures var events := [Block([Insert(k, u)]), TakeSnapshot(1), PersistLive];
            && EnabledRun(Start(map[], 0), events + [Consolidate(1)])
            && Run(Start(map[], 0), events).Some?
            && Run(Start(map[], 0), events + [Consolidate(1)]).None?
  {
    var start, block := Start(map[], 0), Block([Insert(k, u)]);
    assert [block] == [] + [block] && [block, TakeSnapshot(1)] == [block] + [TakeSnapshot(1)];
    assert [block, TakeSnapshot(1), PersistLive] == [block, TakeSnapshot(1)] + [PersistLive];
    RunStep(start, [], block);
    RunStep(start, [block], TakeSnapshot(1));
    RunStep(start, [block, TakeSnapshot(1)], PersistLive);
    RunStep(start, [block, TakeSnapshot(1), PersistLive], Consolidate(1));
    var c := Run(start, [block, TakeSnapshot(1), PersistLive]).value;
    assert k in c.snapshot.value.diff.toAdd && k !in c.live.toAdd;
  }

  /** How often, and when, snapshots were persisted does not matter once everything is persisted. */
  lemma PersistedDatabaseIsReference(db: UtxoMap, highest: nat, events: seq<Event>, index: nat)
    requires EnabledRun(Start(db, highest), events)
    requires var before := Run(Start(db, highest), events); before.Some? && before.value.highest < index
    ensures var after := Run(Start(db, highest), events + [TakeSnapshot(index), Consolidate(index)]);
            after.Some? && after.value.db == Reference(db, events)
  {
    PoolIsPlainMap(db, highest, events);
    hide BlockMap, BlockDiff, ValidBlock, Sound;
    var last := events + [TakeSnapshot(index)];
    assert last[..|events|] == events;
    assert (events + [TakeSnapshot(index), Consolidate(index)])[..|last|] == last;
    assert Run(Start(db, highest), last) == Step(Run(Start(db, highest), events).value, TakeSnapshot(index));
  }
}
