/** `SuperBlockState`: which votes are accepted, and what the accepted votes decide. */
module SuperblockState {
  import opened Options
  import opened Sequences
  import opened Words
  import opened SuperblockVotes
  import opened SuperblockConsensus
  import opened Committee

  datatype AddSuperBlockVote =
    | AlreadySeen
    | DoubleVote
    | InvalidIndex
    | MaybeValid
    | NotInSigningCommittee
    | ValidButDifferentHash
    | ValidWithSameHash

  /**
   * A node's view of the vote on superblock `index`. Of each counted identity, `first` has the
   * vote that the mempool lists and `last` the one that it records.
   */
  datatype Node = Node(
    index: U32, local: Hash, committee: set<Pkh>, received: set<Vote>, seen: set<Vote>,
    first: map<Pkh, Vote>, last: map<Pkh, Vote>)

  predicate Eligible(v: Vote, index: U32, committee: set<Pkh>) {
    v.index == index && v.pkh in committee
  }

  ghost function EligibleIn(votes: set<Vote>, index: U32, committee: set<Pkh>): set<Vote> {
    set v | v in votes && Eligible(v, index, committee)
  }

  /** The recorded vote of the identity is not the listed one. */
  ghost predicate Mixed(n: Node, p: Pkh) {
    p in n.first && p in n.last && n.first[p] != n.last[p]
  }

  /**
   * A valid vote is counted, or its identity penalized. None when the node panics: the double
   * vote is to take back a vote that is not listed.
   */
  ghost function Inserted(n: Node, v: Vote): Option<Node> {
    var seen := n.seen + {v};
    if !VotedTwice(seen, v.pkh) then
      Some(n.(seen := seen, last := n.last[v.pkh := v],
              first := if v.pkh in n.first then n.first else n.first[v.pkh := v]))
    else if Mixed(n, v.pkh) then
      None
    else
      Some(n.(seen := seen, last := n.last - {v.pkh}, first := n.first - {v.pkh}))
  }

  /**
   * A vote arrives and is judged by the index that the caller passes, the number of superblock
   * periods that have begun, which runs ahead of `n.index` until the next superblock is built.
   */
  ghost function AfterVote(n: Node, v: Vote, index: U32): Option<Node> {
    if v in n.received then
      Some(n)
    else
      var m := n.(received := n.received + {v});
      if Eligible(v, index, n.committee) then Inserted(m, v) else Some(m)
  }

  /** The next superblock is built: only early votes for it are kept. */
  ghost function AfterBuild(n: Node, index: U32, committee: set<Pkh>, local: Hash): Node {
    var seen := EligibleIn(n.received, index, committee);
    Node(index, local, committee, {}, seen, VotesBy(seen), VotesBy(seen))
  }

  ghost function VoteOf(seen: set<Vote>, p: Pkh): Vote
    requires p in Counted(seen)
  {
    var v :| v in seen && v.pkh == p;
    v
  }

  /** A vote of each counted identity. */
  ghost function VotesBy(seen: set<Vote>): map<Pkh, Vote> {
    map p | p in Counted(seen) :: VoteOf(seen, p)
  }

  lemma VotesByIsRecorded(seen: set<Vote>)
    ensures Recorded(seen, VotesBy(seen))
  {
    forall p
      ensures p in Counted(seen) <==> Voted(seen, p) && !VotedTwice(seen, p)
    {
    }
  }

  /** With votes for one index only, there is just one way to record them. */
  lemma OneIndexOneRecord(seen: set<Vote>, votesOf: map<Pkh, Vote>, index: U32)
    requires Recorded(seen, votesOf) && forall v :: v in seen ==> v.index == index
    ensures votesOf == VotesBy(seen)
  {
    VotesByIsRecorded(seen);
    SameKeys(seen, votesOf, VotesBy(seen));
    hide VotesBy, VotedTwice, Voted;
    forall p | p in votesOf
      ensures votesOf[p] == VotesBy(seen)[p]
    {
      assert votesOf[p] in seen && VotesBy(seen)[p] in seen;
    }
  }

  lemma EligibleStep(votes: set<Vote>, v: Vote, index: U32, committee: set<Pkh>)
    ensures EligibleIn(votes + {v}, index, committee)
         == EligibleIn(votes, index, committee) + if Eligible(v, index, committee) then {v} else {}
  {
  }

  class SuperBlockState {
    var arsCurrentIdentities: seq<Pkh>
    var arsPreviousIdentities: seq<Pkh>
    var currentIndex: U32
    var currentHash: Hash
    var signingCommittee: set<Pkh>
    const votesMempool: SuperBlockVotesMempool

    ghost predicate Valid()
      reads this, votesMempool
    {
      && votesMempool.Valid()
      && Within(votesMempool.seen, signingCommittee)
    }

    ghost function View(): Node
      reads this, votesMempool
    {
      Node(currentIndex, currentHash, signingCommittee, votesMempool.receivedVotes, votesMempool.seen,
           votesMempool.listed, votesMempool.votesOfEachIdentity)
    }

    constructor (genesisHash: Hash, bootstrapCommittee: seq<Pkh>)
      ensures Valid() && fresh(votesMempool)
      ensures View() == Node(0, genesisHash, Elements(bootstrapCommittee), {}, {}, map[], map[])
      ensures arsCurrentIdentities == arsPreviousIdentities == bootstrapCommittee
    {
      arsCurrentIdentities, arsPreviousIdentities := bootstrapCommittee, bootstrapCommittee;
      currentIndex, currentHash := 0, genesisHash;
      signingCommittee := Elements(bootstrapCommittee);
      votesMempool := new SuperBlockVotesMempool();
    }

    /** True, false or unknown. The committee of the next superblock is not known yet. */
    function IsValid(v: Vote, index: U32): (r: Option<bool>)
      reads this
      ensures r == Some(true) <==> Eligible(v, index, signingCommittee)
      ensures r == None <==> v.index == index + 1
      ensures r == Some(false) <==> if v.index == index then v.pkh !in signingCommittee else v.index != index + 1
    {
      if index == v.index then Some(v.pkh in signingCommittee)
      else if v.index == (if index < U32_MAX then index + 1 else U32_MAX) then None
      else Some(false)
    }

    method InsertVote(v: Vote) returns (r: Option<AddSuperBlockVote>)
      requires Valid() && v.pkh in signingCommittee
      modifies votesMempool
      ensures Valid()
      ensures Inserted(old(View()), v) == if r.Some? then Some(View()) else None
      ensures r.None? ==> View() == old(View())
      ensures r.Some? ==>
                r.value == if VotedTwice(votesMempool.seen, v.pkh) then DoubleVote
                           else if v.hash == currentHash then ValidWithSameHash
                           else ValidButDifferentHash
    {
      hide VotedTwice, Recorded, Grouped, Penalized;
      votesMempool.FindableIff(v.pkh);
      var double := votesMempool.CheckDoubleVote(v);
      if double {
        if !votesMempool.Findable(v.pkh) {
          return None;
        }
        votesMempool.OverrideVote(v.pkh, v);
        r := Some(DoubleVote);
      } else {
        votesMempool.InsertVote(v);
        r := Some(if v.hash == currentHash then ValidWithSameHash else ValidButDifferentHash);
      }
    }

    /** `add_vote`, with any index; none when it panics. */
    method AddVote(v: Vote, index: U32) returns (r: Option<AddSuperBlockVote>)
      requires Valid()
      modifies votesMempool
      ensures Valid()
      ensures AfterVote(old(View()), v, index) == if r.Some? then Some(View()) else None
      ensures v in old(votesMempool.receivedVotes) <==> r == Some(AlreadySeen)
      ensures r.Some? && (r.value.DoubleVote? || r.value.ValidWithSameHash? || r.value.ValidButDifferentHash?) ==>
                Eligible(v, index, signingCommittee)
      ensures r == Some(DoubleVote) ==> VotedTwice(votesMempool.seen, v.pkh)
      ensures r.Some? && (r.value.ValidWithSameHash? || r.value.ValidButDifferentHash?) ==>
                v.pkh in Supporters(votesMempool.seen, v.hash) && (r.value.ValidWithSameHash? <==> v.hash == currentHash)
      ensures r == Some(NotInSigningCommittee) ==>
                if v.index == index then v.pkh !in signingCommittee
                else v.index != index + 1 && arsPreviousIdentities == []
      ensures r == Some(InvalidIndex) ==> v.index != index && v.index != index + 1 && arsPreviousIdentities != []
      ensures r == Some(MaybeValid) ==> v.index == index + 1
    {
      hide VotedTwice, Recorded, Grouped, Penalized;
      if v in votesMempool.receivedVotes {
        return Some(AlreadySeen);
      }
      votesMempool.receivedVotes := votesMempool.receivedVotes + {v};
      match IsValid(v, index)
      case Some(true) =>
        r := InsertVote(v);
        assert r.Some? ==> v in votesMempool.seen;
      case Some(false) =>
        r := Some(if v.index == index || arsPreviousIdentities == [] then NotInSigningCommittee else InvalidIndex);
      case None =>
        r := Some(MaybeValid);
    }

    /**
     * `build_superblock`, for the superblock hash it arrives at. The committee comes from the
     * previous list of identities, unless an emergency period or the bootstrapping of a new
     * protocol version replaces it.
     */
    method BuildSuperblock(
      arsIdentities: seq<Pkh>, committeeSize: U32, index: U32, superblockHash: Hash, replacement: Option<set<Pkh>>,
      digest: nat, bytes: seq<nat>, afterSecondHardFork: bool)
      requires Valid() && committeeSize > 0 && bytes != []
      modifies this, votesMempool
      ensures Valid()
      ensures View() == AfterBuild(old(View()), index, signingCommittee, superblockHash)
      ensures arsPreviousIdentities == old(arsCurrentIdentities) && arsCurrentIdentities == arsIdentities
      ensures replacement.Some? ==> signingCommittee == replacement.value
      ensures replacement.None? ==>
                && Chosen(signingCommittee, arsPreviousIdentities, committeeSize, digest, bytes, afterSecondHardFork)
                && (forall p :: p in signingCommittee ==> p in arsPreviousIdentities)
                && (NoRepeats(arsPreviousIdentities) ==>
                      |signingCommittee| == Min(committeeSize, |arsPreviousIdentities|))
    {
      hide Chosen;
      arsPreviousIdentities, arsCurrentIdentities := arsCurrentIdentities, arsIdentities;
      var committee := SigningCommittee(arsPreviousIdentities, committeeSize, digest, bytes, afterSecondHardFork);
      signingCommittee := if replacement.Some? then replacement.value else committee;
      currentIndex, currentHash := index, superblockHash;
      var oldVotes := votesMempool.ClearAndRemoveVotes();
      ReinsertVotes(oldVotes);
    }

    /** The early votes come out of the drained set in no particular order, and cause no panic. */
    method ReinsertVotes(oldVotes: set<Vote>)
      requires Valid() && votesMempool.seen == {}
      modifies votesMempool
      ensures Valid() && votesMempool.receivedVotes == old(votesMempool.receivedVotes)
      ensures votesMempool.seen == EligibleIn(oldVotes, currentIndex, signingCommittee)
      ensures votesMempool.listed == votesMempool.votesOfEachIdentity == VotesBy(votesMempool.seen)
    {
      hide VotedTwice, Recorded, Grouped, Penalized, VotesBy;
      var rest := oldVotes;
      while rest != {}
        invariant rest <= oldVotes && Valid()
        invariant votesMempool.receivedVotes == old(votesMempool.receivedVotes)
        invariant votesMempool.seen == EligibleIn(oldVotes - rest, currentIndex, signingCommittee)
        decreases rest
      {
        var v :| v in rest;
        EligibleStep(oldVotes - rest, v, currentIndex, signingCommittee);
        assert oldVotes - (rest - {v}) == oldVotes - rest + {v};
        rest := rest - {v};
        SettledTables();
        if IsValid(v, currentIndex) == Some(true) {
          var r := InsertVote(v);
          assert r.Some?;
        }
      }
      assert oldVotes - rest == oldVotes;
      SettledTables();
    }

    lemma SettledTables()
      requires Valid() && forall v :: v in votesMempool.seen ==> v.index == currentIndex
      ensures votesMempool.listed == votesMempool.votesOfEachIdentity == VotesBy(votesMempool.seen)
    {
      hide VotesBy, Recorded;
      OneIndexOneRecord(votesMempool.seen, votesMempool.listed, currentIndex);
      OneIndexOneRecord(votesMempool.seen, votesMempool.votesOfEachIdentity, currentIndex);
    }

    /** `has_consensus`: the subtraction of counted and penalized votes never underflows. */
    method HasConsensus(order: seq<Hash>) returns (r: SuperBlockConsensus)
      requires Valid() && NoRepeats(order) && Elements(order) == votesMempool.votesOnEachSuperblock.Keys
      ensures Visits(order, votesMempool.seen)
      ensures r == Answer(signingCommittee, currentHash, votesMempool.seen, order)
      ensures Decides(r, signingCommittee, currentHash, votesMempool.seen)
    {
      ghost var seen := votesMempool.seen;
      hide Decides, Supporters, Counted, Penalized, Recorded, Grouped, LastBest, Visits;
      var mostVoted := votesMempool.MostVotedSuperblock(order);
      AnswerDecides(signingCommittee, currentHash, seen, order);
      if signingCommittee == {} {
        return SameAsLocal;
      }
      var n := |signingCommittee|;
      if mostVoted.None? {
        return Unknown;
      }
      var (hash, votes) := mostVoted.value;
      if TwoThirdsConsensus(votes, n) {
        return if hash == currentHash then SameAsLocal else Different(hash);
      }
      var total := votesMempool.ValidVotesCounter();
      var invalid := votesMempool.InvalidVotesCounter();
      NoUnderflow(seen, signingCommittee);
      if TwoThirdsConsensus(votes + (n - total - invalid), n) {
        return Unknown;
      }
      r := NoConsensus;
    }
  }

  // ----- Runs -----

  /** A vote and the index that the caller passed with it. */
  datatype Arrival = Arrival(vote: Vote, index: U32)

  /** What a node did between two superblocks: it built one and then received votes. */
  datatype Period = Period(index: U32, committee: set<Pkh>, local: Hash, arrivals: seq<Arrival>)

  /** None when the node panicked on the way. */
  ghost function AfterVotes(n: Node, arrivals: seq<Arrival>): Option<Node> {
    if arrivals == [] then Some(n)
    else
      var last := arrivals[|arrivals| - 1];
      var before := AfterVotes(n, arrivals[..|arrivals| - 1]);
      if before.None? then None else AfterVote(before.value, last.vote, last.index)
  }

  ghost function AfterPeriod(n: Node, p: Period): Option<Node> {
    AfterVotes(AfterBuild(n, p.index, p.committee, p.local), p.arrivals)
  }

  ghost function Votes(arrivals: seq<Arrival>): set<Vote> {
    set i | 0 <= i < |arrivals| :: arrivals[i].vote
  }

  /** The vote of arrival `i` has not come before. */
  ghost predicate First(arrivals: seq<Arrival>, i: nat)
    requires i < |arrivals|
  {
    arrivals[i].vote !in Votes(arrivals[..i])
  }

  /** Arrival `i` brings a new vote that is valid under the index it comes with. */
  ghost predicate AcceptedAt(arrivals: seq<Arrival>, committee: set<Pkh>, i: nat)
    requires i < |arrivals|
  {
    First(arrivals, i) && Eligible(arrivals[i].vote, arrivals[i].index, committee)
  }

  /** The votes that were valid under the index they first came with. */
  ghost function Accepted(arrivals: seq<Arrival>, committee: set<Pkh>): set<Vote> {
    set i | 0 <= i < |arrivals| && AcceptedAt(arrivals, committee, i) :: arrivals[i].vote
  }

  lemma VotesStep(init: seq<Arrival>, last: Arrival)
    ensures Votes(init + [last]) == Votes(init) + {last.vote}
  {
    var all := init + [last];
    assert all[|init|] == last;
    assert forall i :: 0 <= i < |init| ==> all[i] == init[i];
    forall v | v in Votes(init)
      ensures v in Votes(all)
    {
      var i :| 0 <= i < |init| && init[i].vote == v;
      assert all[i].vote == v;
    }
  }

  lemma AcceptedStep(init: seq<Arrival>, last: Arrival, committee: set<Pkh>)
    ensures Accepted(init + [last], committee)
         == Accepted(init, committee)
            + if last.vote !in Votes(init) && Eligible(last.vote, last.index, committee) then {last.vote} else {}
  {
    hide Votes;
    var all := init + [last];
    assert all[|init|] == last && all[..|init|] == init;
    forall i: nat | i < |init|
      ensures all[i] == init[i] && First(all, i) == First(init, i)
    {
      assert all[..i] == init[..i];
    }
    forall v | v in Accepted(init, committee)
      ensures v in Accepted(all, committee)
    {
      var i: nat :| i < |init| && AcceptedAt(init, committee, i) && init[i].vote == v;
      assert AcceptedAt(all, committee, i) && all[i].vote == v;
    }
    if last.vote !in Votes(init) && Eligible(last.vote, last.index, committee) {
      assert AcceptedAt(all, committee, |init|);
    }
  }

  /** What a node that has not panicked has received and seen, whatever indexes the votes came with. */
  lemma {:induction false} VotesAccumulate(n: Node, arrivals: seq<Arrival>)
    requires n.received == {} && AfterVotes(n, arrivals).Some?
    ensures var m := AfterVotes(n, arrivals).value;
            && m == n.(received := m.received, seen := m.seen, first := m.first, last := m.last)
            && m.received == Votes(arrivals)
            && m.seen == n.seen + Accepted(arrivals, n.committee)
    decreases |arrivals|
  {
    if arrivals != [] {
      var init, last := arrivals[..|arrivals| - 1], arrivals[|arrivals| - 1];
      VotesAccumulate(n, init);
      assert arrivals == init + [last];
      VotesStep(init, last);
      AcceptedStep(init, last, n.committee);
      hide Votes, Accepted, VotedTwice, Mixed;
    }
  }

  /**
   * Whatever happened before, what a node counts for a superblock is the eligible votes that
   * reached it in the period before, under any indexes, and the votes accepted in this one.
   */
  lemma CountsTwoPeriods(start: Node, before: Period, now: Period)
    requires AfterPeriod(start, before).Some? && AfterPeriod(AfterPeriod(start, before).value, now).Some?
    ensures AfterPeriod(AfterPeriod(start, before).value, now).value.seen
         == EligibleIn(Votes(before.arrivals), now.index, now.committee) + Accepted(now.arrivals, now.committee)
  {
    hide Votes, Accepted, AfterVotes, EligibleIn, VotesBy;
    VotesAccumulate(AfterBuild(start, before.index, before.committee, before.local), before.arrivals);
    var mid := AfterPeriod(start, before).value;
    VotesAccumulate(AfterBuild(mid, now.index, now.committee, now.local), now.arrivals);
  }

  // ----- Exactly when a run panics -----

  /** The accepted votes of an identity in the order they came, after the one it had before. */
  ghost function Given(n: Node, arrivals: seq<Arrival>, p: Pkh): seq<Vote> {
    if arrivals == [] then
      if p in n.first then [n.first[p]] else []
    else
      var k := |arrivals| - 1;
      Given(n, arrivals[..k], p)
      + if AcceptedAt(arrivals, n.committee, k) && arrivals[k].vote.pkh == p then [arrivals[k].vote] else []
  }

  ghost predicate OneHash(votes: seq<Vote>) {
    forall i, j :: 0 <= i < j < |votes| ==> votes[i].hash == votes[j].hash
  }

  /**
   * Arrival `k` brings an accepted vote of an identity that so far voted for one other hash only,
   * with a last vote that is not its first: one for the same hash with another index.
   */
  ghost predicate Breaks(n: Node, arrivals: seq<Arrival>, k: nat)
    requires k < |arrivals|
  {
    var v := arrivals[k].vote;
    var given := Given(n, arrivals[..k], v.pkh);
    && AcceptedAt(arrivals, n.committee, k)
    && v.pkh !in Penalized(n.seen)
    && given != [] && OneHash(given) && given[0].hash != v.hash && given[0] != given[|given| - 1]
  }

  /** A node right after a superblock is built. */
  ghost predicate Settled(n: Node) {
    n.received == {} && n.first == n.last && Recorded(n.seen, n.first)
  }

  /** What the tables say of an identity whose accepted votes are `given`. */
  ghost predicate Follows(n: Node, m: Node, given: seq<Vote>, p: Pkh) {
    && (Voted(m.seen, p) <==> given != [] || p in Penalized(n.seen))
    && (p in m.first <==> p !in Penalized(n.seen) && given != [] && OneHash(given))
    && (p in m.first ==> p in m.last && m.first[p] == given[0] && m.last[p] == given[|given| - 1])
  }

  ghost predicate Tabled(m: Node) {
    Recorded(m.seen, m.first) && Recorded(m.seen, m.last)
  }

  /** The double-vote test, in terms of what is recorded. */
  lemma DoubleIff(m: Node, v: Vote)
    requires Tabled(m)
    ensures VotedTwice(m.seen + {v}, v.pkh) <==>
              if v.pkh in m.last then m.last[v.pkh].hash != v.hash else Voted(m.seen, v.pkh)
    ensures m.first.Keys == m.last.Keys
  {
    SameKeys(m.seen, m.first, m.last);
    TwiceAfter(m.seen, v);
    if v.pkh in m.last {
      assert m.last[v.pkh] in m.seen;
    }
  }

  /** Inserting a vote keeps the tables right. */
  lemma InsertedIsTabled(m: Node, v: Vote)
    requires Tabled(m) && Inserted(m, v).Some?
    ensures Tabled(Inserted(m, v).value)
    ensures forall p :: Voted(Inserted(m, v).value.seen, p) <==> Voted(m.seen, p) || p == v.pkh
  {
    hide Recorded, VotedTwice, Voted;
    SameKeys(m.seen, m.first, m.last);
    TwiceAfter(m.seen, v);
    if VotedTwice(m.seen + {v}, v.pkh) {
      PenaltyKeepsRest(m.seen, m.first, v);
      PenaltyKeepsRest(m.seen, m.last, v);
    } else {
      RecordVote(m.seen, m.first, v);
      RecordVote(m.seen, m.last, v);
    }
  }

  lemma OneHashStep(given: seq<Vote>, v: Vote)
    ensures OneHash(given + [v]) <==> OneHash(given) && (given == [] || given[|given| - 1].hash == v.hash)
    ensures given == [] ==> OneHash(given)
    ensures given != [] ==> (given + [v])[0] == given[0]
    ensures (given + [v])[|given|] == v
  {
    if OneHash(given + [v]) {
      forall i, j | 0 <= i < j < |given|
        ensures given[i].hash == given[j].hash
      {
        assert (given + [v])[i].hash == (given + [v])[j].hash;
      }
      if given != [] {
        assert (given + [v])[|given| - 1].hash == (given + [v])[|given|].hash;
      }
    }
  }

  lemma TabledStep(m: Node, v: Vote, index: U32)
    requires Tabled(m) && AfterVote(m, v, index).Some?
    ensures Tabled(AfterVote(m, v, index).value)
  {
    hide Recorded, VotedTwice;
    if v !in m.received && Eligible(v, index, m.committee) {
      InsertedIsTabled(m.(received := m.received + {v}), v);
    }
  }

  /** One accepted vote keeps the tables in line with the votes given. */
  lemma FollowsStep(n: Node, m: Node, given: seq<Vote>, v: Vote, p: Pkh)
    requires Tabled(m) && Follows(n, m, given, p) && Inserted(m, v).Some?
    ensures Follows(n, Inserted(m, v).value, if v.pkh == p then given + [v] else given, p)
  {
    hide VotedTwice, Voted, Recorded, OneHash, Penalized;
    DoubleIff(m, v);
    InsertedIsTabled(m, v);
    if v.pkh == p {
      OneHashStep(given, v);
      var m' := Inserted(m, v).value;
      if p in m.first {
        assert given[|given| - 1] == m.last[p];
        assert p in m'.first <==> OneHash(given + [v]);
      } else {
        assert p in m'.first <==> p !in Penalized(n.seen) && given == [];
      }
    }
  }

  lemma AfterVoteFollows(n: Node, m: Node, given: seq<Vote>, v: Vote, index: U32, p: Pkh)
    requires Tabled(m) && Follows(n, m, given, p)
    requires v !in m.received && Eligible(v, index, m.committee) && AfterVote(m, v, index).Some?
    ensures Follows(n, AfterVote(m, v, index).value, if v.pkh == p then given + [v] else given, p)
  {
    hide VotedTwice, Voted, Recorded, OneHash, Penalized, Inserted;
    var m' := m.(received := m.received + {v});
    SameTables(n, m, m', given, p);
    FollowsStep(n, m', given, v, p);
  }

  lemma FollowsAtFirst(n: Node, p: Pkh)
    requires Settled(n)
    ensures Follows(n, n, Given(n, [], p), p)
  {
    if p in Penalized(n.seen) {
      assert Voted(n.seen, p) && VotedTwice(n.seen, p);
    }
    if Voted(n.seen, p) && VotedTwice(n.seen, p) {
      var v :| v in n.seen && v.pkh == p;
      assert p in Penalized(n.seen);
    }
  }

  /** As long as a run has not panicked, the tables have the first and the last vote of each identity. */
  lemma {:induction false} TablesFollow(n: Node, arrivals: seq<Arrival>)
    requires Settled(n) && AfterVotes(n, arrivals).Some?
    ensures var m := AfterVotes(n, arrivals).value;
            Tabled(m) && forall p :: Follows(n, m, Given(n, arrivals, p), p)
    decreases |arrivals|
  {
    hide Follows, OneHash, Votes, Accepted, Recorded, Inserted;
    if arrivals == [] {
      forall p ensures Follows(n, n, Given(n, arrivals, p), p) {
        FollowsAtFirst(n, p);
      }
    } else {
      var k := |arrivals| - 1;
      var init, last := arrivals[..k], arrivals[k];
      TablesFollow(n, init);
      VotesAccumulate(n, init);
      var m := AfterVotes(n, init).value;
      TabledStep(m, last.vote, last.index);
      forall p
        ensures Follows(n, AfterVotes(n, arrivals).value, Given(n, arrivals, p), p)
      {
        if AcceptedAt(arrivals, n.committee, k) {
          AfterVoteFollows(n, m, Given(n, init, p), last.vote, last.index, p);
        } else {
          SameTables(n, m, AfterVotes(n, arrivals).value, Given(n, init, p), p);
          assert Given(n, init, p) + [] == Given(n, init, p);
        }
        assert last.vote.pkh != p ==> Given(n, init, p) + [] == Given(n, init, p);
      }
    }
  }

  lemma SameTables(n: Node, m: Node, m': Node, given: seq<Vote>, p: Pkh)
    requires Tabled(m) && Follows(n, m, given, p)
    requires m'.seen == m.seen && m'.first == m.first && m'.last == m.last
    ensures Tabled(m') && Follows(n, m', given, p)
  {
  }

  /** A run panics if and only if some arrival breaks it. */
  lemma {:induction false} PanicsIff(n: Node, arrivals: seq<Arrival>)
    requires Settled(n)
    ensures AfterVotes(n, arrivals).None? <==> exists k: nat :: k < |arrivals| && Breaks(n, arrivals, k)
    decreases |arrivals|
  {
    hide Given, OneHash, Votes, Accepted, Recorded, Inserted;
    if arrivals != [] {
      var k := |arrivals| - 1;
      var init, last := arrivals[..k], arrivals[k];
      PanicsIff(n, init);
      forall i: nat | i < k
        ensures Breaks(n, arrivals, i) == Breaks(n, init, i)
      {
        assert arrivals[..i] == init[..i];
      }
      if AfterVotes(n, init).None? {
        var i: nat :| i < |init| && Breaks(n, init, i);
        assert Breaks(n, arrivals, i);
      } else {
        LastArrival(n, arrivals);
        if AfterVotes(n, arrivals).None? {
          assert Breaks(n, arrivals, k);
        }
      }
    }
  }

  /** Whether the last arrival panics, when none before did. */
  lemma LastArrival(n: Node, arrivals: seq<Arrival>)
    requires Settled(n) && arrivals != [] && AfterVotes(n, arrivals[..|arrivals| - 1]).Some?
    ensures AfterVotes(n, arrivals).None? <==> Breaks(n, arrivals, |arrivals| - 1)
  {
    var k := |arrivals| - 1;
    var init, v := arrivals[..k], arrivals[k].vote;
    VotesAccumulate(n, init);
    TablesFollow(n, init);
    var m := AfterVotes(n, init).value;
    assert Follows(n, m, Given(n, init, v.pkh), v.pkh);
    DoubleIff(m, v);
    SameHash(Given(n, init, v.pkh));
    hide AfterVotes, Given, OneHash, Votes, Accepted, Recorded, VotedTwice, Voted, Penalized;
    assert AfterVotes(n, arrivals) == AfterVote(m, v, arrivals[k].index) by { LastStep(n, arrivals); }
  }

  lemma LastStep(n: Node, arrivals: seq<Arrival>)
    requires arrivals != [] && AfterVotes(n, arrivals[..|arrivals| - 1]).Some?
    ensures var k := |arrivals| - 1;
            AfterVotes(n, arrivals) == AfterVote(AfterVotes(n, arrivals[..k]).value, arrivals[k].vote, arrivals[k].index)
  {
  }

  lemma SameHash(given: seq<Vote>)
    ensures given != [] && OneHash(given) ==> given[0].hash == given[|given| - 1].hash
  {
  }

  /**
   * Nothing in the period came out of time: no vote for another superblock came with that
   * superblock's index, and no vote for this one came first with another index, unless it had
   * come in the period before.
   */
  ghost predicate Timely(arrivals: seq<Arrival>, early: set<Vote>, index: U32, committee: set<Pkh>) {
    forall i: nat :: i < |arrivals| && First(arrivals, i) ==>
      var a := arrivals[i];
      && (Eligible(a.vote, a.index, committee) ==> a.index == index)
      && (Eligible(a.vote, index, committee) && a.vote !in early ==> a.index == index)
  }

  /** Every vote given is by the identity and, when nothing came out of time, for the one index. */
  lemma {:induction false} GivenIndex(n: Node, arrivals: seq<Arrival>, p: Pkh, index: U32)
    requires Recorded(n.seen, n.first) && forall v :: v in n.seen ==> v.index == index
    requires forall i: nat :: i < |arrivals| && AcceptedAt(arrivals, n.committee, i) ==> arrivals[i].index == index
    ensures forall v :: v in Given(n, arrivals, p) ==> v.pkh == p && v.index == index
    decreases |arrivals|
  {
    hide Votes, Recorded;
    if arrivals == [] {
      RecordedVote(n.seen, n.first, p);
    } else {
      var k := |arrivals| - 1;
      forall i: nat | i < k
        ensures AcceptedAt(arrivals[..k], n.committee, i) == AcceptedAt(arrivals, n.committee, i)
      {
        assert arrivals[..k][..i] == arrivals[..i];
      }
      GivenIndex(n, arrivals[..k], p, index);
    }
  }

  lemma RecordedVote(seen: set<Vote>, votesOf: map<Pkh, Vote>, p: Pkh)
    requires Recorded(seen, votesOf)
    ensures p in votesOf ==> votesOf[p] in seen && votesOf[p].pkh == p
  {
  }

  /** Nothing out of time, no panic. */
  lemma TimelyNeverPanics(mid: Node, early: set<Vote>, now: Period)
    requires Timely(now.arrivals, early, now.index, now.committee)
    ensures AfterPeriod(mid, now).Some?
  {
    var n := AfterBuild(mid, now.index, now.committee, now.local);
    VotesByIsRecorded(n.seen);
    PanicsIff(n, now.arrivals);
    hide AfterVotes, Given, Votes, Recorded, VotesBy;
    forall k: nat | k < |now.arrivals|
      ensures !Breaks(n, now.arrivals, k)
    {
      var v, before := now.arrivals[k].vote, now.arrivals[..k];
      forall i: nat | i < k
        ensures AcceptedAt(before, n.committee, i) == AcceptedAt(now.arrivals, n.committee, i)
      {
        assert before[..i] == now.arrivals[..i];
      }
      GivenIndex(n, before, v.pkh, now.index);
      SameHash(Given(n, before, v.pkh));
    }
  }

  /**
   * A node counts exactly the eligible votes that came in this period or the one before, and
   * does not panic, if and only if no vote of this period came out of time.
   */
  lemma CountsExactlyIff(start: Node, before: Period, now: Period)
    requires AfterPeriod(start, before).Some?
    ensures var after := AfterPeriod(AfterPeriod(start, before).value, now);
            after.Some? && after.value.seen
                           == EligibleIn(Votes(before.arrivals) + Votes(now.arrivals), now.index, now.committee)
            <==> Timely(now.arrivals, Votes(before.arrivals), now.index, now.committee)
  {
    hide Votes, Accepted, AfterVotes, EligibleIn, VotesBy, Timely;
    var mid := AfterPeriod(start, before).value;
    if Timely(now.arrivals, Votes(before.arrivals), now.index, now.committee) {
      TimelyNeverPanics(mid, Votes(before.arrivals), now);
    }
    if AfterPeriod(mid, now).Some? {
      CountsTwoPeriods(start, before, now);
      AcceptedIff(now.arrivals, Votes(before.arrivals), now.index, now.committee);
    }
  }

  lemma AcceptedIff(arrivals: seq<Arrival>, early: set<Vote>, index: U32, committee: set<Pkh>)
    ensures EligibleIn(early, index, committee) + Accepted(arrivals, committee)
            == EligibleIn(early + Votes(arrivals), index, committee)
       <==> Timely(arrivals, early, index, committee)
  {
    var counted := EligibleIn(early, index, committee) + Accepted(arrivals, committee);
    var eligible := EligibleIn(early + Votes(arrivals), index, committee);
    if counted == eligible {
      forall i: nat | i < |arrivals| && First(arrivals, i)
        ensures var a := arrivals[i];
                && (Eligible(a.vote, a.index, committee) ==> a.index == index)
                && (Eligible(a.vote, index, committee) && a.vote !in early ==> a.index == index)
      {
        var a := arrivals[i];
        if Eligible(a.vote, a.index, committee) {
          assert AcceptedAt(arrivals, committee, i) && a.vote in Accepted(arrivals, committee) && a.vote in counted;
        }
        if Eligible(a.vote, index, committee) && a.vote !in early {
          assert a.vote in Votes(arrivals) && a.vote in eligible && a.vote in Accepted(arrivals, committee);
          AcceptedFirst(arrivals, committee, i);
        }
      }
    }
    if Timely(arrivals, early, index, committee) {
      forall v | v in eligible
        ensures v in counted
      {
        if v !in early {
          var i := FirstArrival(arrivals, v);
          assert AcceptedAt(arrivals, committee, i) && v in Accepted(arrivals, committee);
        }
      }
      forall v | v in Accepted(arrivals, committee)
        ensures v in eligible
      {
        var i: nat :| i < |arrivals| && AcceptedAt(arrivals, committee, i) && arrivals[i].vote == v;
        assert v in Votes(arrivals);
      }
      assert counted == eligible;
    }
  }

  lemma FirstArrival(arrivals: seq<Arrival>, v: Vote) returns (i: nat)
    requires v in Votes(arrivals)
    ensures i < |arrivals| && arrivals[i].vote == v && First(arrivals, i)
  {
    i :| i < |arrivals| && arrivals[i].vote == v;
    while !First(arrivals, i)
      invariant i < |arrivals| && arrivals[i].vote == v
      decreases i
    {
      var j :| 0 <= j < |arrivals[..i]| && arrivals[..i][j].vote == v;
      i := j;
    }
  }

  /** An accepted vote was valid when it came first. */
  lemma AcceptedFirst(arrivals: seq<Arrival>, committee: set<Pkh>, i: nat)
    requires i < |arrivals| && First(arrivals, i) && arrivals[i].vote in Accepted(arrivals, committee)
    ensures Eligible(arrivals[i].vote, arrivals[i].index, committee)
  {
    var k: nat :| k < |arrivals| && AcceptedAt(arrivals, committee, k) && arrivals[k].vote == arrivals[i].vote;
    if k < i {
      CameBefore(arrivals, k, i);
    } else if i < k {
      CameBefore(arrivals, i, k);
    }
  }

  lemma CameBefore(arrivals: seq<Arrival>, k: nat, i: nat)
    requires k < i < |arrivals|
    ensures arrivals[k].vote in Votes(arrivals[..i])
  {
    assert arrivals[..i][k] == arrivals[k];
  }

  /**
   * Order, repetition and arriving before or after `build_superblock` make no difference: two
   * nodes that got the same votes over the two periods, none out of time in the second, count
   * and penalize the same identities.
   */
  lemma OrderDoesNotMatter(a: Node, beforeA: Period, nowA: Period, b: Node, beforeB: Period, nowB: Period)
    requires nowA.index == nowB.index && nowA.committee == nowB.committee
    requires AfterPeriod(a, beforeA).Some? && AfterPeriod(b, beforeB).Some?
    requires Votes(beforeA.arrivals) + Votes(nowA.arrivals) == Votes(beforeB.arrivals) + Votes(nowB.arrivals)
    requires Timely(nowA.arrivals, Votes(beforeA.arrivals), nowA.index, nowA.committee)
    requires Timely(nowB.arrivals, Votes(beforeB.arrivals), nowB.index, nowB.committee)
    ensures var x := AfterPeriod(AfterPeriod(a, beforeA).value, nowA);
            var y := AfterPeriod(AfterPeriod(b, beforeB).value, nowB);
            && x.Some? && y.Some?
            && Counted(x.value.seen) == Counted(y.value.seen)
            && Penalized(x.value.seen) == Penalized(y.value.seen)
            && forall h :: Supporters(x.value.seen, h) == Supporters(y.value.seen, h)
  {
    hide Votes, AfterVotes, EligibleIn, VotesBy, Timely;
    CountsExactlyIff(a, beforeA, nowA);
    CountsExactlyIff(b, beforeB, nowB);
  }

  // ----- Concrete votes -----

  ghost function OnSuperblock10(local: Hash): Node {
    Node(10, local, {7}, {}, {}, map[], map[])
  }

  /**
   * A member votes for superblock 10, and for superblock 11 when its period has begun but the
   * node has not built it yet: the node takes it for a double voter on superblock 10.
   */
  lemma NextVoteCountsAsDouble(local: Hash)
    ensures var one := AfterVotes(OnSuperblock10(local), [Arrival(Vote(7, 100, 10), 10)]);
            var both := AfterVotes(OnSuperblock10(local), [Arrival(Vote(7, 100, 10), 10), Arrival(Vote(7, 111, 11), 11)]);
            && one.Some? && 7 in Supporters(one.value.seen, 100)
            && both.Some? && 7 in Penalized(both.value.seen) && 7 !in Counted(both.value.seen)
  {
    var v, w := Vote(7, 100, 10), Vote(7, 111, 11);
    FirstOfTwo(local, v, w);
    assert v in {v} + {w} && w in {v} + {w} && v.hash != w.hash;
    assert VotedTwice({v} + {w}, 7);
  }

  lemma FirstOfTwo(local: Hash, v: Vote, w: Vote)
    requires v.pkh == w.pkh == 7 && v.index == 10 && w.index == 11
    ensures var n := OnSuperblock10(local);
            var one := AfterVotes(n, [Arrival(v, 10)]);
            && one == Some(n.(received := {v}, seen := {v}, first := map[7 := v], last := map[7 := v]))
            && AfterVotes(n, [Arrival(v, 10), Arrival(w, 11)]) == AfterVote(one.value, w, 11)
  {
    var one, both := [Arrival(v, 10)], [Arrival(v, 10), Arrival(w, 11)];
    assert both[..1] == one && one[..0] == [];
    assert !VotedTwice({} + {v}, 7) && {} + {v} == {v};
  }

  /**
   * The member sends a vote for superblock 10, one for the same hash with index 11, and then one
   * for another hash with index 11: the node panics.
   */
  lemma ThirdVotePanics(local: Hash)
    ensures var n := OnSuperblock10(local);
            var votes := [Arrival(Vote(7, 100, 10), 10), Arrival(Vote(7, 100, 11), 11), Arrival(Vote(7, 111, 11), 11)];
            AfterVotes(n, votes[..2]).Some? && AfterVotes(n, votes).None?
  {
    var n := OnSuperblock10(local);
    var u, v, w := Vote(7, 100, 10), Vote(7, 100, 11), Vote(7, 111, 11);
    var votes := [Arrival(u, 10), Arrival(v, 11), Arrival(w, 11)];
    assert votes[..2] == [Arrival(u, 10), Arrival(v, 11)];
    FirstOfTwo(local, u, v);
    var two := AfterVotes(n, votes[..2]);
    assert !VotedTwice({u} + {v}, 7);
    assert two.Some? && two.value.seen == {u} + {v} && two.value.first[7] == u && two.value.last[7] == v;
    assert u in {u} + {v} + {w} && w in {u} + {v} + {w};
    assert VotedTwice({u} + {v} + {w}, 7);
    assert votes[..|votes| - 1] == votes[..2];
  }

  /** A vote for superblock 10 that comes when the period of superblock 11 has begun is not counted. */
  lemma LateVoteIsLost(local: Hash)
    ensures AfterVotes(OnSuperblock10(local), [Arrival(Vote(7, 100, 10), 11)])
         == Some(OnSuperblock10(local).(received := {Vote(7, 100, 10)}))
  {
    var late := [Arrival(Vote(7, 100, 10), 11)];
    assert late[..0] == [];
    assert {} + {Vote(7, 100, 10)} == {Vote(7, 100, 10)};
  }

  lemma {:induction false} SeenGrows(n: Node, arrivals: seq<Arrival>)
    requires Within(n.seen, n.committee) && AfterVotes(n, arrivals).Some?
    ensures var m := AfterVotes(n, arrivals).value;
            m.committee == n.committee && n.seen <= m.seen && Within(m.seen, n.committee)
    decreases |arrivals|
  {
    hide VotedTwice, Mixed;
    if arrivals != [] {
      SeenGrows(n, arrivals[..|arrivals| - 1]);
    }
  }

  /**
   * Once no superblock can win, no further votes in the period make one win, whatever indexes
   * they come with; the answer stays the same unless every voter is penalized.
   */
  lemma NoConsensusIsFinal(n: Node, arrivals: seq<Arrival>, r: SuperBlockConsensus)
    requires Within(n.seen, n.committee) && AfterVotes(n, arrivals).Some?
    requires Decides(NoConsensus, n.committee, n.local, n.seen)
    requires Decides(r, n.committee, n.local, AfterVotes(n, arrivals).value.seen)
    ensures r == if Counted(AfterVotes(n, arrivals).value.seen) == {} then Unknown else NoConsensus
  {
    SeenGrows(n, arrivals);
    var after := AfterVotes(n, arrivals).value.seen;
    hide AfterVotes, Counted, Supporters, Potential;
    forall h ensures 3 * |Potential(after, n.committee, h)| + 2 < 2 * |n.committee| {
      PotentialShrinks(n.seen, after, n.committee, h);
    }
    var answer := if Counted(after) == {} then Unknown else NoConsensus;
    forall h ensures !Elected(after, n.committee, h) {
      SupportersArePotential(after, n.committee, h);
    }
    NotElected(n.committee, n.local, after, answer, r);
  }
}
