/** `UnspentOutputsPool`: an in-memory diff over a database that several pools share. */
module UtxoPool {
  import opened Options
  import opened Words

  type OutputPointer = nat
  datatype ValueTransferOutput = ValueTransferOutput(pkh: nat, value: U64, timeLock: U64)
  /** An output and the number of the block that included it. */
  datatype Utxo = Utxo(output: ValueTransferOutput, block: nat)
  type UtxoMap = map<OutputPointer, Utxo>

  datatype Diff = Diff(toAdd: UtxoMap, toRemove: set<OutputPointer>)

  function Find<V>(m: map<OutputPointer, V>, k: OutputPointer): Option<V> {
    if k in m then Some(m[k]) else None
  }

  // ----- Diffs on values -----

  /** The outputs that a diff over a database stands for. */
  function View(diff: Diff, db: UtxoMap): UtxoMap {
    (db + diff.toAdd) - diff.toRemove
  }

  /** Nothing is added that the database has, and nothing is removed that is not there. */
  ghost predicate Coherent(diff: Diff, db: UtxoMap) {
    && diff.toAdd.Keys !! db.Keys
    && diff.toRemove <= diff.toAdd.Keys + db.Keys
  }

  /** `live` is the snapshot plus later insertions and removals. */
  ghost predicate Extends(live: Diff, snapshot: Diff) {
    && (forall k :: k in snapshot.toAdd ==> k in live.toAdd && live.toAdd[k] == snapshot.toAdd[k])
    && snapshot.toRemove <= live.toRemove
  }

  function Pruned(live: Diff, persisted: Diff): Diff {
    Diff(live.toAdd - persisted.toAdd.Keys, live.toRemove - persisted.toRemove)
  }

  /** A pointer that the snapshot removed has been inserted again since. */
  ghost predicate Resurrects(live: Diff, snapshot: Diff) {
    exists k :: k in snapshot.toRemove && k in live.toAdd && k !in snapshot.toAdd
  }

  /**
   * Pruning a live pool by a snapshot that is persisted to the shared database leaves the live
   * pool's outputs unchanged exactly when no pointer that the snapshot removed was inserted again.
   */
  lemma PruneKeepsViewIff(live: Diff, snapshot: Diff, db: UtxoMap)
    requires Extends(live, snapshot)
    ensures View(Pruned(live, snapshot), View(snapshot, db)) == View(live, db) <==> !Resurrects(live, snapshot)
  {
    var after, before := View(Pruned(live, snapshot), View(snapshot, db)), View(live, db);
    if Resurrects(live, snapshot) {
      var k :| k in snapshot.toRemove && k in live.toAdd && k !in snapshot.toAdd;
      assert k in after && k !in before;
    } else {
      forall k
        ensures Find(after, k) == Find(before, k)
      {
      }
      assert forall k :: k in after <==> Find(after, k).Some?;
      assert forall k :: k in before <==> Find(before, k).Some?;
      assert after.Keys == before.Keys;
    }
  }

  /** One output that the snapshot removed and that was inserted again: pruning makes it appear. */
  lemma ResurrectionShows(k: OutputPointer, u: Utxo)
    ensures var db, snapshot, live := map[k := u], Diff(map[], {k}), Diff(map[k := u], {k});
            && Extends(live, snapshot)
            && k !in View(live, db)
            && k in View(Pruned(live, snapshot), View(snapshot, db))
  {
    assert Resurrects(Diff(map[k := u], {k}), Diff(map[], {k}));
  }

  /** After pruning and persisting, the rest of the diff is coherent with the new database. */
  lemma PruneKeepsCoherence(live: Diff, snapshot: Diff, db: UtxoMap)
    requires Extends(live, snapshot) && Coherent(live, db) && !Resurrects(live, snapshot)
    ensures Coherent(Pruned(live, snapshot), View(snapshot, db))
  {
  }

  /** Persisting a snapshot and then the rest gives the database of persisting all at once. */
  lemma PersistInSteps(live: Diff, snapshot: Diff, db: UtxoMap)
    requires Extends(live, snapshot) && Coherent(live, db) && !Resurrects(live, snapshot)
    ensures var db' := View(snapshot, db);
            var rest := Pruned(live, snapshot);
            Coherent(rest, db') && View(rest, db') == View(live, db)
  {
    PruneKeepsViewIff(live, snapshot, db);
    PruneKeepsCoherence(live, snapshot, db);
  }

  // ----- The database and the pool -----

  datatype WriteItem = Put(k: OutputPointer, u: Utxo) | Delete(k: OutputPointer)

  function WrittenItem(db: UtxoMap, item: WriteItem): UtxoMap {
    match item
    case Put(k, u) => db[k := u]
    case Delete(k) => db - {k}
  }

  function Written(db: UtxoMap, batch: seq<WriteItem>): UtxoMap {
    if batch == [] then db
    else WrittenItem(Written(db, batch[..|batch| - 1]), batch[|batch| - 1])
  }

  lemma WrittenLast(db: UtxoMap, batch: seq<WriteItem>, item: WriteItem)
    ensures Written(db, batch + [item]) == WrittenItem(Written(db, batch), item)
  {
    assert (batch + [item])[..|batch|] == batch;
  }

  class Database {
    var utxos: UtxoMap

    constructor (utxos: UtxoMap)
      ensures this.utxos == utxos
    {
      this.utxos := utxos;
    }

    method Write(batch: seq<WriteItem>)
      modifies this
      ensures utxos == Written(old(utxos), batch)
    {
      for i := 0 to |batch|
        invariant utxos == Written(old(utxos), batch[..i])
      {
        assert batch[..i + 1] == batch[..i] + [batch[i]];
        WrittenLast(old(utxos), batch[..i], batch[i]);
        utxos := WrittenItem(utxos, batch[i]);
      }
      assert batch[..|batch|] == batch;
    }
  }

  class UnspentOutputsPool {
    var diff: Diff
    // Shared with the snapshots of this pool. Without a database nothing is stored.
    const db: Database?

    constructor (db: Database?)
      ensures this.db == db && diff == Diff(map[], {})
    {
      this.db, diff := db, Diff(map[], {});
    }

    function Stored(): UtxoMap
      reads this, db
    {
      if db == null then map[] else db.utxos
    }

    function Utxos(): UtxoMap
      reads this, db
    {
      View(diff, Stored())
    }

    function GetMap(k: OutputPointer): (r: Option<Utxo>)
      reads this, db
      ensures r == Find(Utxos(), k)
    {
      if k in diff.toRemove then None
      else if k in diff.toAdd then Some(diff.toAdd[k])
      else Find(Stored(), k)
    }

    /** Panics when the pointer was added before; one that was removed before stays removed. */
    method Insert(k: OutputPointer, u: Utxo)
      requires k !in diff.toAdd
      modifies this
      ensures diff == Diff(old(diff.toAdd)[k := u], old(diff.toRemove))
      ensures Utxos() == if k in old(diff.toRemove) then old(Utxos()) else old(Utxos())[k := u]
    {
      diff := diff.(toAdd := diff.toAdd[k := u]);
    }

    /** Panics when the pointer was removed before. */
    method Remove(k: OutputPointer)
      requires k !in diff.toRemove
      modifies this
      ensures diff == Diff(old(diff.toAdd), old(diff.toRemove) + {k})
      ensures Utxos() == old(Utxos()) - {k}
    {
      diff := diff.(toRemove := diff.toRemove + {k});
    }

    /** Sanity check: an output is only written once. */
    method DbInsert(batch: seq<WriteItem>, k: OutputPointer, u: Utxo) returns (extended: seq<WriteItem>)
      requires k !in Utxos()
      ensures extended == batch + [Put(k, u)]
    {
      assert GetMap(k).None?;
      extended := batch + [Put(k, u)];
    }

    /** Sanity check: an output is only removed once. */
    method DbRemove(batch: seq<WriteItem>, k: OutputPointer) returns (extended: seq<WriteItem>)
      requires k in Utxos()
      ensures extended == batch + [Delete(k)]
    {
      assert GetMap(k).Some?;
      extended := batch + [Delete(k)];
    }

    /** The deletions that end a batch. */
    method DeleteAll(before: seq<WriteItem>, stale: set<OutputPointer>) returns (batch: seq<WriteItem>)
      requires stale <= Utxos().Keys
      ensures Written(Stored(), batch) == Written(Stored(), before) - stale
    {
      batch := before;
      var toRemove := stale;
      while toRemove != {}
        invariant toRemove <= stale
        invariant Written(Stored(), batch) == Written(Stored(), before) - (stale - toRemove)
        decreases toRemove
      {
        var k :| k in toRemove;
        toRemove := toRemove - {k};
        WrittenLast(Stored(), batch, Delete(k));
        batch := DbRemove(batch, k);
      }
    }

    /**
     * `persist_add_to_batch`: the diff becomes writes that leave the database with the pool's
     * outputs. None of the sanity checks fails for a coherent diff.
     */
    method PersistAddToBatch() returns (batch: seq<WriteItem>)
      requires Coherent(diff, Stored())
      modifies this
      ensures diff == Diff(map[], {})
      ensures Written(Stored(), batch) == old(Utxos())
    {
      var taken := diff;
      diff := Diff(map[], {});
      var rest := taken.toAdd.Keys;
      var toRemove := taken.toRemove;
      batch := [];
      while rest != {}
        invariant rest <= taken.toAdd.Keys && diff == Diff(map[], {})
        invariant toRemove == taken.toRemove - (taken.toAdd.Keys - rest)
        invariant Written(Stored(), batch) == AddedSoFar(taken, rest, Stored())
        decreases rest
      {
        var k :| k in rest;
        AddStep(taken, rest, Stored(), k);
        rest := rest - {k};
        if k in toRemove {
          toRemove := toRemove - {k};
          assert GetMap(k).None?;
        } else {
          WrittenLast(Stored(), batch, Put(k, taken.toAdd[k]));
          batch := DbInsert(batch, k, taken.toAdd[k]);
        }
      }
      assert Written(Stored(), batch) - toRemove == View(taken, Stored());
      batch := DeleteAll(batch, toRemove);
    }

    /** Panics without a database. */
    method Persist()
      requires db != null && Coherent(diff, Stored())
      modifies this, db
      ensures diff == Diff(map[], {})
      ensures Stored() == old(Utxos())
    {
      var batch := PersistAddToBatch();
      db.Write(batch);
    }

    /** `remove_persisted_from_memory`: panics unless the live diff has everything persisted. */
    method RemovePersistedFromMemory(persisted: Diff)
      requires persisted.toAdd.Keys <= diff.toAdd.Keys && persisted.toRemove <= diff.toRemove
      modifies this
      ensures diff == Pruned(old(diff), persisted)
    {
      var adds, removes := persisted.toAdd.Keys, persisted.toRemove;
      while adds != {}
        invariant adds <= persisted.toAdd.Keys
        invariant diff == Diff(old(diff.toAdd) - (persisted.toAdd.Keys - adds), old(diff.toRemove))
        decreases adds
      {
        var k :| k in adds;
        assert k in diff.toAdd;
        diff := diff.(toAdd := diff.toAdd - {k});
        adds := adds - {k};
        assert persisted.toAdd.Keys - adds == persisted.toAdd.Keys - (adds + {k}) + {k};
      }
      while removes != {}
        invariant removes <= persisted.toRemove
        invariant diff == Diff(old(diff.toAdd) - persisted.toAdd.Keys, old(diff.toRemove) - (persisted.toRemove - removes))
        decreases removes
      {
        var k :| k in removes;
        assert k in diff.toRemove;
        diff := diff.(toRemove := diff.toRemove - {k});
        removes := removes - {k};
      }
    }
  }

  /** The database with the insertions outside `rest` that are not also removed. */
  ghost function AddedSoFar(diff: Diff, rest: set<OutputPointer>, db: UtxoMap): UtxoMap {
    db + (diff.toAdd - rest - diff.toRemove)
  }

  lemma AddStep(diff: Diff, rest: set<OutputPointer>, db: UtxoMap, k: OutputPointer)
    requires k in rest && rest <= diff.toAdd.Keys
    ensures AddedSoFar(diff, rest - {k}, db)
         == if k in diff.toRemove then AddedSoFar(diff, rest, db) else AddedSoFar(diff, rest, db)[k := diff.toAdd[k]]
  {
  }

  /** Persisting the snapshot and pruning the live pool, in either order, keeps the live outputs. */
  method ConsolidateSnapshot(live: UnspentOutputsPool, snapshot: UnspentOutputsPool)
    requires live != snapshot && live.db == snapshot.db != null
    requires Extends(live.diff, snapshot.diff) && !Resurrects(live.diff, snapshot.diff)
    requires Coherent(live.diff, live.db.utxos) && Coherent(snapshot.diff, live.db.utxos)
    modifies live, snapshot, live.db
    ensures live.Utxos() == old(live.Utxos())
    ensures live.db.utxos == old(snapshot.Utxos())
    ensures live.diff == Pruned(old(live.diff), old(snapshot.diff)) && snapshot.diff == Diff(map[], {})
    ensures Coherent(live.diff, live.db.utxos)
  {
    PersistInSteps(live.diff, snapshot.diff, live.db.utxos);
    live.RemovePersistedFromMemory(snapshot.diff);
    snapshot.Persist();
  }
}
