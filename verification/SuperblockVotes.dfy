/**
 * The mempool that counts superblock votes. Signatures have been checked, so a vote is the
 * identity that signed it, the superblock hash and the superblock index.
 */
module SuperblockVotes {
  import opened Options
  import opened Sequences
  import opened Words

  type Hash = nat
  datatype Vote = Vote(pkh: Pkh, hash: Hash, index: U32)

  // ----- What a set of valid votes says, whatever the order they came in -----

  ghost predicate Voted(seen: set<Vote>, p: Pkh) {
    exists v :: v in seen && v.pkh == p
  }

  /** The identity voted for two different hashes. */
  ghost predicate VotedTwice(seen: set<Vote>, p: Pkh) {
    exists v, w :: v in seen && w in seen && v.pkh == p && w.pkh == p && v.hash != w.hash
  }

  /** The identities that voted for `h` and for nothing else. */
  ghost function Supporters(seen: set<Vote>, h: Hash): set<Pkh> {
    set v | v in seen && v.hash == h && !VotedTwice(seen, v.pkh) :: v.pkh
  }

  ghost function Penalized(seen: set<Vote>): set<Pkh> {
    set v | v in seen && VotedTwice(seen, v.pkh) :: v.pkh
  }

  ghost function Counted(seen: set<Vote>): set<Pkh> {
    set v | v in seen && !VotedTwice(seen, v.pkh) :: v.pkh
  }

  // ----- The most voted superblock -----

  /** The order visits every hash that has a supporter once. */
  ghost predicate Visits(order: seq<Hash>, seen: set<Vote>) {
    NoRepeats(order) && forall h :: h in order <==> |Supporters(seen, h)| > 0
  }

  /** The last of the hashes with the most supporters, as `max_by_key` picks it. */
  ghost function LastBest(order: seq<Hash>, seen: set<Vote>): Hash
    requires order != []
  {
    var n := |order| - 1;
    if n == 0 then order[0]
    else
      var best := LastBest(order[..n], seen);
      if |Supporters(seen, best)| <= |Supporters(seen, order[n])| then order[n] else best
  }

  lemma {:induction false} LastBestIsBest(order: seq<Hash>, seen: set<Vote>)
    requires order != []
    ensures LastBest(order, seen) in order
    ensures forall h :: h in order ==> |Supporters(seen, h)| <= |Supporters(seen, LastBest(order, seen))|
    decreases |order|
  {
    hide Supporters;
    var n := |order| - 1;
    if n > 0 {
      LastBestIsBest(order[..n], seen);
      assert order == order[..n] + [order[n]];
    }
  }

  /** Every hash that no other exceeds is picked in some order, for one when it is visited last. */
  lemma VisitedLast(order: seq<Hash>, seen: set<Vote>, h: Hash)
    requires forall g :: |Supporters(seen, g)| <= |Supporters(seen, h)|
    ensures LastBest(order + [h], seen) == h
  {
    assert (order + [h])[..|order|] == order;
  }

  // ----- The mempool -----

  /** `votesOf` holds a vote of every counted identity. */
  ghost predicate Recorded(seen: set<Vote>, votesOf: map<Pkh, Vote>) {
    && (forall p :: p in votesOf <==> Voted(seen, p) && !VotedTwice(seen, p))
    && (forall p :: p in votesOf ==> votesOf[p] in seen && votesOf[p].pkh == p)
  }

  /** `votesOn` lists the votes in `listed` by hash, each once, and has no empty lists. */
  ghost predicate Grouped(listed: map<Pkh, Vote>, votesOn: map<Hash, seq<Vote>>) {
    && (forall p :: p in listed ==> listed[p].pkh == p)
    && (forall h :: h in votesOn ==> votesOn[h] != [] && NoRepeats(votesOn[h]))
    && (forall h, v :: h in votesOn && v in votesOn[h] ==> v.hash == h && v.pkh in listed && listed[v.pkh] == v)
    && (forall p :: p in listed ==> listed[p].hash in votesOn && listed[p] in votesOn[listed[p].hash])
  }

  /** `Vec::swap_remove` */
  function SwapRemove<T>(s: seq<T>, pos: nat): seq<T>
    requires pos < |s|
  {
    s[pos := s[|s| - 1]][..|s| - 1]
  }

  lemma SwapRemoveKeepsOthers<T>(s: seq<T>, pos: nat)
    requires pos < |s| && NoRepeats(s)
    ensures NoRepeats(SwapRemove(s, pos))
    ensures forall x :: x in SwapRemove(s, pos) <==> x in s && x != s[pos]
  {
    var r := SwapRemove(s, pos);
    forall x | x in s && x != s[pos]
      ensures x in r
    {
      var k :| 0 <= k < |s| && s[k] == x;
      assert r[if k == |s| - 1 then pos else k] == x;
    }
  }

  class SuperBlockVotesMempool {
    var penalizedIdentities: set<Pkh>
    var receivedVotes: set<Vote>
    var votesOfEachIdentity: map<Pkh, Vote>
    var votesOnEachSuperblock: map<Hash, seq<Vote>>
    // The votes judged valid since the mempool was last cleared.
    ghost var seen: set<Vote>
    // The vote of each counted identity that is in the lists: the first of its votes, where
    // `votesOfEachIdentity` has the last.
    ghost var listed: map<Pkh, Vote>

    ghost predicate Valid()
      reads this
    {
      && Recorded(seen, votesOfEachIdentity)
      && Recorded(seen, listed)
      && Grouped(listed, votesOnEachSuperblock)
      && penalizedIdentities == Penalized(seen)
    }

    constructor ()
      ensures Valid() && seen == {} && receivedVotes == {} && votesOfEachIdentity == listed == map[]
    {
      penalizedIdentities, receivedVotes, votesOfEachIdentity, votesOnEachSuperblock := {}, {}, map[], map[];
      seen, listed := {}, map[];
    }

    /** True exactly when counting `v` as well would make its identity a double voter. */
    method CheckDoubleVote(v: Vote) returns (double: bool)
      requires Valid()
      ensures double <==> VotedTwice(seen + {v}, v.pkh)
    {
      TwiceAfter(seen, v);
      if v.pkh in penalizedIdentities {
        double := true;
      } else if v.pkh in votesOfEachIdentity {
        double := v.hash != votesOfEachIdentity[v.pkh].hash;
        assert votesOfEachIdentity[v.pkh] in seen;
      } else {
        double := false;
      }
    }

    /** The recorded vote is in the list of its hash exactly when it is the listed one. */
    predicate Findable(p: Pkh)
      reads this
    {
      p in votesOfEachIdentity ==>
        var v := votesOfEachIdentity[p];
        v.hash in votesOnEachSuperblock && v in votesOnEachSuperblock[v.hash]
    }

    lemma FindableIff(p: Pkh)
      requires Valid()
      ensures votesOfEachIdentity.Keys == listed.Keys
      ensures Findable(p) <==> (p in votesOfEachIdentity ==> votesOfEachIdentity[p] == listed[p])
    {
      hide VotedTwice, Voted;
      SameKeys(seen, votesOfEachIdentity, listed);
    }

    /**
     * Both votes are taken back and the identity is penalized. The source unwraps the position of
     * the recorded vote in the list, which is there exactly when the vote is findable.
     */
    method OverrideVote(p: Pkh, ghost v: Vote)
      requires Valid() && v.pkh == p && VotedTwice(seen + {v}, p) && Findable(p)
      modifies this
      ensures Valid() && seen == old(seen) + {v} && receivedVotes == old(receivedVotes)
      ensures votesOfEachIdentity == old(votesOfEachIdentity) - {p} && listed == old(listed) - {p}
    {
      hide Grouped, Recorded, Penalized, VotedTwice, SwapRemove;
      FindableIff(p);
      PenaltyKeepsRest(seen, votesOfEachIdentity, v);
      PenaltyKeepsRest(seen, listed, v);
      PenaltyGrows(seen, v);
      if p in votesOfEachIdentity {
        var oldVote := votesOfEachIdentity[p];
        var list := votesOnEachSuperblock[oldVote.hash];
        var pos: nat :| pos < |list| && list[pos] == oldVote;
        var rest := SwapRemove(list, pos);
        UngroupVote(listed, votesOnEachSuperblock, p, pos);
        votesOfEachIdentity := votesOfEachIdentity - {p};
        listed := listed - {p};
        if rest == [] {
          votesOnEachSuperblock := votesOnEachSuperblock - {oldVote.hash};
        } else {
          votesOnEachSuperblock := votesOnEachSuperblock[oldVote.hash := rest];
        }
      }
      penalizedIdentities := penalizedIdentities + {p};
      seen := seen + {v};
    }

    /** The identity is counted once, however many votes for one hash it sends. */
    method InsertVote(v: Vote)
      requires Valid() && !VotedTwice(seen + {v}, v.pkh)
      modifies this
      ensures Valid() && seen == old(seen) + {v} && receivedVotes == old(receivedVotes)
      ensures votesOfEachIdentity == old(votesOfEachIdentity)[v.pkh := v]
      ensures listed == if v.pkh in old(listed) then old(listed) else old(listed)[v.pkh := v]
    {
      hide Grouped, Recorded, Penalized, VotedTwice;
      FindableIff(v.pkh);
      RecordVote(seen, votesOfEachIdentity, v);
      RecordVote(seen, listed, v);
      var known := v.pkh in votesOfEachIdentity;
      if !known {
        var list := if v.hash in votesOnEachSuperblock then votesOnEachSuperblock[v.hash] else [];
        GroupVote(listed, votesOnEachSuperblock, v);
        votesOnEachSuperblock := votesOnEachSuperblock[v.hash := list + [v]];
        listed := listed[v.pkh := v];
      }
      votesOfEachIdentity := votesOfEachIdentity[v.pkh := v];
      seen := seen + {v};
    }

    method ClearAndRemoveVotes() returns (oldVotes: set<Vote>)
      modifies this
      ensures Valid() && seen == {} && receivedVotes == {} && votesOfEachIdentity == listed == map[]
      ensures oldVotes == old(receivedVotes)
    {
      oldVotes := receivedVotes;
      penalizedIdentities, receivedVotes, votesOfEachIdentity, votesOnEachSuperblock := {}, {}, map[], map[];
      seen, listed := {}, map[];
    }

    /** The hash that `max_by_key` picks when the hash map is visited in the given order. */
    method MostVotedSuperblock(order: seq<Hash>) returns (most: Option<(Hash, nat)>)
      requires Valid() && NoRepeats(order) && Elements(order) == votesOnEachSuperblock.Keys
      ensures Visits(order, seen)
      ensures most == if order == [] then None
                      else Some((LastBest(order, seen), |Supporters(seen, LastBest(order, seen))|))
      ensures most.None? <==> Counted(seen) == {}
    {
      hide Recorded, Grouped, Penalized, Counted, Supporters;
      most := None;
      forall h ensures |Supporters(seen, h)| == if h in votesOnEachSuperblock then |votesOnEachSuperblock[h]| else 0 {
        SupportIsListLength(seen, listed, votesOnEachSuperblock, h);
      }
      CountedIsKeys(seen, listed);
      SomebodyVoted(listed, votesOnEachSuperblock);
      for i := 0 to |order|
        invariant most == if i == 0 then None
                          else Some((LastBest(order[..i], seen), |Supporters(seen, LastBest(order[..i], seen))|))
      {
        assert order[..i + 1][..i] == order[..i] && order[i] in Elements(order);
        var votes := |votesOnEachSuperblock[order[i]]|;
        if most.None? || most.value.1 <= votes {
          most := Some((order[i], votes));
        }
      }
      assert order[..|order|] == order;
      assert order != [] ==> order[0] in Elements(order);
    }

    method ValidVotesCounter() returns (n: nat)
      requires Valid()
      ensures n == |Counted(seen)|
    {
      CountedIsKeys(seen, votesOfEachIdentity);
      n := |votesOfEachIdentity|;
    }

    method InvalidVotesCounter() returns (n: nat)
      requires Valid()
      ensures n == |Penalized(seen)|
    {
      n := |penalizedIdentities|;
    }
  }

  // ----- Steps of the mempool, on values -----

  lemma TwiceAfter(seen: set<Vote>, v: Vote)
    ensures VotedTwice(seen + {v}, v.pkh)
       <==> VotedTwice(seen, v.pkh) || exists w :: w in seen && w.pkh == v.pkh && w.hash != v.hash
    ensures forall p :: p != v.pkh ==> (VotedTwice(seen + {v}, p) <==> VotedTwice(seen, p))
    ensures forall p :: Voted(seen + {v}, p) <==> Voted(seen, p) || p == v.pkh
  {
    var after := seen + {v};
    assert v in after;
    if w :| w in seen && w.pkh == v.pkh && w.hash != v.hash {
      assert w in after;
    }
    forall p | VotedTwice(seen, p)
      ensures VotedTwice(after, p)
    {
      var a, b :| a in seen && b in seen && a.pkh == p && b.pkh == p && a.hash != b.hash;
      assert a in after && b in after;
    }
    forall p | Voted(seen, p)
      ensures Voted(after, p)
    {
      var a :| a in seen && a.pkh == p;
      assert a in after;
    }
  }

  lemma RecordVote(seen: set<Vote>, votesOf: map<Pkh, Vote>, v: Vote)
    requires Recorded(seen, votesOf) && !VotedTwice(seen + {v}, v.pkh)
    ensures Recorded(seen + {v}, votesOf[v.pkh := v])
    ensures v.pkh in votesOf ==> Recorded(seen + {v}, votesOf)
    ensures v.pkh in votesOf ==> votesOf[v.pkh].hash == v.hash
    ensures Penalized(seen + {v}) == Penalized(seen)
  {
    TwiceAfter(seen, v);
  }

  lemma PenaltyKeepsRest(seen: set<Vote>, votesOf: map<Pkh, Vote>, v: Vote)
    requires Recorded(seen, votesOf) && VotedTwice(seen + {v}, v.pkh)
    ensures Recorded(seen + {v}, votesOf - {v.pkh})
    ensures v.pkh !in votesOf ==> votesOf - {v.pkh} == votesOf
  {
    TwiceAfter(seen, v);
    hide VotedTwice;
  }

  lemma PenaltyGrows(seen: set<Vote>, v: Vote)
    requires VotedTwice(seen + {v}, v.pkh)
    ensures Penalized(seen + {v}) == Penalized(seen) + {v.pkh}
  {
    TwiceAfter(seen, v);
    hide VotedTwice;
    assert v in seen + {v};
  }

  lemma SameKeys(seen: set<Vote>, votesOf: map<Pkh, Vote>, listed: map<Pkh, Vote>)
    requires Recorded(seen, votesOf) && Recorded(seen, listed)
    ensures votesOf.Keys == listed.Keys
    ensures forall p :: p in listed ==> votesOf[p].hash == listed[p].hash
  {
    forall p | p in listed
      ensures votesOf[p].hash == listed[p].hash
    {
      assert votesOf[p] in seen && listed[p] in seen;
    }
    assert forall p :: p in votesOf.Keys <==> p in listed.Keys;
  }

  lemma GroupVote(listed: map<Pkh, Vote>, votesOn: map<Hash, seq<Vote>>, v: Vote)
    requires Grouped(listed, votesOn) && v.pkh !in listed
    ensures var list := if v.hash in votesOn then votesOn[v.hash] else [];
            Grouped(listed[v.pkh := v], votesOn[v.hash := list + [v]])
  {
    var list := if v.hash in votesOn then votesOn[v.hash] else [];
    assert v !in list;
    assert v in list + [v];
    assert forall w :: w in list ==> w in list + [v];
  }

  lemma UngroupVote(listed: map<Pkh, Vote>, votesOn: map<Hash, seq<Vote>>, p: Pkh, pos: nat)
    requires Grouped(listed, votesOn) && p in listed
    requires pos < |votesOn[listed[p].hash]| && votesOn[listed[p].hash][pos] == listed[p]
    ensures var h := listed[p].hash;
            var rest := SwapRemove(votesOn[h], pos);
            Grouped(listed - {p}, if rest == [] then votesOn - {h} else votesOn[h := rest])
  {
    hide SwapRemove;
    var list := votesOn[listed[p].hash];
    SwapRemoveKeepsOthers(list, pos);
    TakenOff(listed, votesOn, p, SwapRemove(list, pos));
  }

  /** The list without the identity's vote takes the place of the list with it. */
  lemma TakenOff(listed: map<Pkh, Vote>, votesOn: map<Hash, seq<Vote>>, p: Pkh, rest: seq<Vote>)
    requires Grouped(listed, votesOn) && p in listed && NoRepeats(rest)
    requires forall v :: v in rest <==> v in votesOn[listed[p].hash] && v != listed[p]
    ensures var h := listed[p].hash;
            Grouped(listed - {p}, if rest == [] then votesOn - {h} else votesOn[h := rest])
  {
    hide NoRepeats;
    var h := listed[p].hash;
    var after := if rest == [] then votesOn - {h} else votesOn[h := rest];
    forall g, v | g in after && v in after[g]
      ensures v in votesOn[g] && v.pkh != p
    {
      assert v in votesOn[g];
    }
    forall q | q in listed - {p}
      ensures listed[q].hash in after && listed[q] in after[listed[q].hash]
    {
      assert listed[q] in votesOn[listed[q].hash];
      assert listed[q].hash == h ==> listed[q] in rest;
    }
  }

  lemma SomebodyVoted(listed: map<Pkh, Vote>, votesOn: map<Hash, seq<Vote>>)
    requires Grouped(listed, votesOn)
    ensures listed.Keys == {} <==> votesOn.Keys == {}
    ensures forall h :: h in votesOn ==> |votesOn[h]| > 0
  {
    if h :| h in votesOn {
      assert votesOn[h][0] in votesOn[h];
      assert votesOn[h][0].pkh in listed.Keys;
    }
    if p :| p in listed {
      assert listed[p].hash in votesOn.Keys;
    }
  }

  lemma CountedIsKeys(seen: set<Vote>, votesOf: map<Pkh, Vote>)
    requires Recorded(seen, votesOf)
    ensures Counted(seen) == votesOf.Keys && |votesOf| == |Counted(seen)|
  {
    assert forall p :: p in votesOf ==> votesOf[p] in seen;
    assert |votesOf| == |votesOf.Keys|;
  }

  lemma SupportersAre(seen: set<Vote>, votesOf: map<Pkh, Vote>, h: Hash)
    requires Recorded(seen, votesOf)
    ensures forall p :: p in Supporters(seen, h) <==> p in votesOf && votesOf[p].hash == h
  {
    forall p
      ensures p in Supporters(seen, h) <==> p in votesOf && votesOf[p].hash == h
    {
      if p in votesOf {
        assert votesOf[p] in seen;
      }
    }
  }

  /** The lists hold one vote of each supporter of their hashes. */
  lemma SupportIsListLength(seen: set<Vote>, listed: map<Pkh, Vote>, votesOn: map<Hash, seq<Vote>>, h: Hash)
    requires Recorded(seen, listed) && Grouped(listed, votesOn)
    ensures |Supporters(seen, h)| == if h in votesOn then |votesOn[h]| else 0
  {
    SupportersAre(seen, listed, h);
    hide Supporters, Recorded;
    if h in votesOn {
      SignersCount(listed, votesOn, h, Supporters(seen, h));
    } else {
      assert Supporters(seen, h) == {};
    }
  }

  lemma SignersCount(listed: map<Pkh, Vote>, votesOn: map<Hash, seq<Vote>>, h: Hash, signers: set<Pkh>)
    requires Grouped(listed, votesOn) && h in votesOn
    requires forall p :: p in signers <==> p in listed && listed[p].hash == h
    ensures |signers| == |votesOn[h]|
  {
    var list := votesOn[h];
    var pkhs := seq(|list|, i requires 0 <= i < |list| => list[i].pkh);
    forall i, j | 0 <= i < j < |list|
      ensures pkhs[i] != pkhs[j]
    {
      assert list[i] in list && list[j] in list;
    }
    DistinctCount(pkhs);
    forall p | p in signers
      ensures p in pkhs
    {
      var k :| 0 <= k < |list| && list[k] == listed[p];
      assert pkhs[k] == p;
    }
    forall p | p in pkhs
      ensures p in signers
    {
      var k :| 0 <= k < |list| && pkhs[k] == p;
      assert list[k] in list;
    }
    assert Elements(pkhs) == signers;
  }
}
