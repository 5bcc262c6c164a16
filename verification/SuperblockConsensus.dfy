/** The two-thirds rule, stated on the sets of identities behind the votes. */
module SuperblockConsensus {
  import opened Sequences
  import opened Words
  import opened SuperblockVotes

  datatype SuperBlockConsensus = SameAsLocal | Different(hash: Hash) | NoConsensus | Unknown

  /** At least the whole part of two thirds: three times the votes are short of it by two at most. */
  predicate TwoThirdsConsensus(votes: nat, identities: nat): (enough: bool)
    ensures enough <==> 3 * votes + 2 >= 2 * identities
  {
    var requiredVotes := identities * 2 / 3;
    votes >= requiredVotes
  }

  ghost predicate Within(seen: set<Vote>, committee: set<Pkh>) {
    forall v :: v in seen ==> v.pkh in committee
  }

  /** The committee members that have not voted against `h`. */
  ghost function Potential(seen: set<Vote>, committee: set<Pkh>, h: Hash): set<Pkh> {
    set p | p in committee && !VotedAgainst(seen, p, h)
  }

  ghost predicate VotedAgainst(seen: set<Vote>, p: Pkh, h: Hash) {
    exists v :: v in seen && v.pkh == p && v.hash != h
  }

  ghost predicate VotedFor(seen: set<Vote>, p: Pkh, h: Hash) {
    exists v :: v in seen && v.pkh == p && v.hash == h
  }

  /** `h` has a vote, two thirds of the committee, and no hash has more. */
  ghost predicate Elected(seen: set<Vote>, committee: set<Pkh>, h: Hash) {
    && |Supporters(seen, h)| > 0
    && 3 * |Supporters(seen, h)| + 2 >= 2 * |committee|
    && forall g :: |Supporters(seen, g)| <= |Supporters(seen, h)|
  }

  /** The meaning of each answer of `has_consensus`. */
  ghost predicate Decides(r: SuperBlockConsensus, committee: set<Pkh>, local: Hash, seen: set<Vote>) {
    if committee == {} then r == SameAsLocal
    else match r
      case SameAsLocal => Elected(seen, committee, local)
      case Different(h) => h != local && Elected(seen, committee, h)
      case NoConsensus =>
        && Counted(seen) != {}
        && forall h :: 3 * |Potential(seen, committee, h)| + 2 < 2 * |committee|
      case Unknown =>
        && (forall h :: !Elected(seen, committee, h))
        && (Counted(seen) == {} || exists h :: 3 * |Potential(seen, committee, h)| + 2 >= 2 * |committee|)
  }

  /** Counted and penalized identities are disjoint parts of the committee. */
  lemma NoUnderflow(seen: set<Vote>, committee: set<Pkh>)
    requires Within(seen, committee)
    ensures Counted(seen) !! Penalized(seen)
    ensures Counted(seen) + Penalized(seen) <= committee
    ensures |Counted(seen)| + |Penalized(seen)| <= |committee|
  {
    SubsetSize(Counted(seen) + Penalized(seen), committee);
  }

  /** Supporters plus missing votes are the members that have not voted against the hash. */
  lemma PotentialSize(seen: set<Vote>, committee: set<Pkh>, h: Hash)
    requires Within(seen, committee)
    ensures |Potential(seen, committee, h)|
         == |Supporters(seen, h)| + (|committee| - |Counted(seen)| - |Penalized(seen)|)
  {
    NoUnderflow(seen, committee);
    var silent := committee - (Counted(seen) + Penalized(seen));
    PotentialIs(seen, committee, h);
    assert Supporters(seen, h) <= Counted(seen);
  }

  /** Who can still support a superblock: those who do, and those who have said nothing. */
  lemma PotentialIs(seen: set<Vote>, committee: set<Pkh>, h: Hash)
    requires Within(seen, committee)
    ensures Potential(seen, committee, h) == Supporters(seen, h) + (committee - (Counted(seen) + Penalized(seen)))
  {
    var silent := committee - (Counted(seen) + Penalized(seen));
    forall p
      ensures p in Potential(seen, committee, h) <==> p in Supporters(seen, h) || p in silent
    {
      if p in Potential(seen, committee, h) && p !in silent {
        var v :| v in seen && v.pkh == p;
        assert v.hash == h;
      }
    }
  }

  /** The votes still missing are those of members that have said nothing. */
  ghost function Missing(seen: set<Vote>, committee: set<Pkh>): nat
    requires Within(seen, committee)
  {
    NoUnderflow(seen, committee);
    |committee| - |Counted(seen)| - |Penalized(seen)|
  }

  lemma Leads(seen: set<Vote>, committee: set<Pkh>, local: Hash, top: Hash)
    requires committee != {} && Within(seen, committee) && Counted(seen) != {}
    requires |Supporters(seen, top)| > 0 && forall h :: |Supporters(seen, h)| <= |Supporters(seen, top)|
    ensures var votes, n := |Supporters(seen, top)|, |committee|;
            if TwoThirdsConsensus(votes, n) then
              Decides(if top == local then SameAsLocal else Different(top), committee, local, seen)
            else if TwoThirdsConsensus(votes + Missing(seen, committee), n) then
              Decides(Unknown, committee, local, seen)
            else
              Decides(NoConsensus, committee, local, seen)
  {
    hide Supporters, Counted, Penalized, Potential, Within;
    forall h ensures |Potential(seen, committee, h)| == |Supporters(seen, h)| + Missing(seen, committee) {
      PotentialSize(seen, committee, h);
    }
  }

  lemma SupportersArePotential(seen: set<Vote>, committee: set<Pkh>, h: Hash)
    requires Within(seen, committee)
    ensures Supporters(seen, h) <= Potential(seen, committee, h)
    ensures |Supporters(seen, h)| <= |Potential(seen, committee, h)|
  {
    SubsetSize(Supporters(seen, h), Potential(seen, committee, h));
  }

  lemma PotentialShrinks(seen: set<Vote>, more: set<Vote>, committee: set<Pkh>, h: Hash)
    requires seen <= more
    ensures |Potential(more, committee, h)| <= |Potential(seen, committee, h)|
  {
    SubsetSize(Potential(more, committee, h), Potential(seen, committee, h));
  }

  lemma OverlapSize<T>(a: set<T>, b: set<T>, all: set<T>)
    requires a <= all && b <= all
    ensures |a * b| >= |a| + |b| - |all|
  {
    assert a + b == a + (b - a) && b == (b - a) + (a * b);
    SubsetSize(a + b, all);
  }

  /**
   * When two nodes with the same committee elect different hashes, about a third of the members
   * voted for both; unless the committee has 2 or 4 members, that is at least one.
   */
  lemma QuorumsOverlap(a: set<Vote>, b: set<Vote>, committee: set<Pkh>, g: Hash, h: Hash)
    requires Within(a, committee) && Within(b, committee)
    requires Elected(a, committee, g) && Elected(b, committee, h) && g != h
    ensures var both := set p | p in committee && VotedFor(a, p, g) && VotedFor(b, p, h);
            && |both| >= 2 * (|committee| * 2 / 3) - |committee|
            && (|committee| != 2 && |committee| != 4 ==> |both| >= 1)
  {
    var x, y := Supporters(a, g), Supporters(b, h);
    var both := set p | p in committee && VotedFor(a, p, g) && VotedFor(b, p, h);
    assert x <= committee && y <= committee;
    assert x * y <= both;
    hide Supporters, Within, VotedFor;
    OverlapSize(x, y, committee);
    SubsetSize(x * y, both);
    QuorumSize(|x|, |committee|);
    QuorumSize(|y|, |committee|);
  }

  /** More than half of the votes, unless the committee has 2 or 4 members. */
  lemma QuorumSize(votes: nat, n: nat)
    requires votes > 0 && 3 * votes + 2 >= 2 * n
    ensures votes >= n * 2 / 3
    ensures n != 2 && n != 4 ==> 2 * votes > n
  {
  }

  /** On one node a committee of another size than 2 or 4 elects at most one hash. */
  lemma ElectedOnce(seen: set<Vote>, committee: set<Pkh>, g: Hash, h: Hash)
    requires Within(seen, committee) && |committee| != 2 && |committee| != 4
    requires Elected(seen, committee, g) && Elected(seen, committee, h)
    ensures g == h
  {
    if g != h {
      SupportersDisjoint(seen, g, h);
      OverlapSize(Supporters(seen, g), Supporters(seen, h), committee);
      assert false;
    }
  }

  lemma SupportersDisjoint(seen: set<Vote>, g: Hash, h: Hash)
    requires g != h
    ensures Supporters(seen, g) * Supporters(seen, h) == {}
  {
  }

  /** Two hashes that divide the voters between them, and nobody else votes. */
  lemma SplitVote(left: set<Pkh>, right: set<Pkh>, index: U32) returns (seen: set<Vote>)
    requires left !! right
    ensures Supporters(seen, 0) == left && Supporters(seen, 1) == right
    ensures forall h :: h > 1 ==> Supporters(seen, h) == {}
    ensures Within(seen, left + right)
  {
    seen := (set p | p in left :: Vote(p, 0, index)) + (set p | p in right :: Vote(p, 1, index));
    assert forall p :: !VotedTwice(seen, p);
    hide VotedTwice;
    assert forall p :: p in left ==> Vote(p, 0, index) in seen;
    assert forall p :: p in right ==> Vote(p, 1, index) in seen;
  }

  lemma SubsetOfSize(all: set<Pkh>, k: nat) returns (half: set<Pkh>)
    requires k <= |all|
    ensures half <= all && |half| == k
  {
    half := {};
    while |half| < k
      invariant half <= all && |half| <= k
    {
      SubsetSize(all, half + (all - half));
      var p :| p in all - half;
      half := half + {p};
    }
  }

  // ----- The answer for an order in which the hash map is visited -----

  /** `has_consensus` when the votes are visited in the given order. */
  ghost function Answer(committee: set<Pkh>, local: Hash, seen: set<Vote>, order: seq<Hash>): SuperBlockConsensus
    requires Within(seen, committee)
  {
    if committee == {} then SameAsLocal
    else if order == [] then Unknown
    else
      var top := LastBest(order, seen);
      var votes := |Supporters(seen, top)|;
      if TwoThirdsConsensus(votes, |committee|) then
        if top == local then SameAsLocal else Different(top)
      else if TwoThirdsConsensus(votes + Missing(seen, committee), |committee|) then Unknown
      else NoConsensus
  }

  /** Whatever the order, the answer means what it says. */
  lemma AnswerDecides(committee: set<Pkh>, local: Hash, seen: set<Vote>, order: seq<Hash>)
    requires Within(seen, committee) && Visits(order, seen)
    ensures Decides(Answer(committee, local, seen, order), committee, local, seen)
  {
    if committee == {} {
    } else if order == [] {
      NobodyCounted(seen);
    } else {
      LastBestIsBest(order, seen);
      CountedSupporter(seen, LastBest(order, seen));
      hide Supporters, Counted, Within, Missing, LastBest, Decides;
      Leads(seen, committee, local, LastBest(order, seen));
    }
  }

  lemma NobodyCounted(seen: set<Vote>)
    requires forall h :: |Supporters(seen, h)| == 0
    ensures Counted(seen) == {}
  {
    assert forall v :: v in seen && !VotedTwice(seen, v.pkh) ==> v.pkh in Supporters(seen, v.hash);
  }

  lemma CountedSupporter(seen: set<Vote>, h: Hash)
    requires |Supporters(seen, h)| > 0
    ensures Counted(seen) != {}
  {
    var p :| p in Supporters(seen, h);
    assert p in Counted(seen);
  }

  /** A set of hashes, in some order. */
  lemma SomeOrder(hashes: set<Hash>) returns (order: seq<Hash>)
    ensures NoRepeats(order) && forall h :: h in order <==> h in hashes
    decreases hashes
  {
    order := [];
    if hashes != {} {
      var h :| h in hashes;
      var init := SomeOrder(hashes - {h});
      order := init + [h];
      assert forall g :: g in init ==> g in order;
    }
  }

  lemma SupportedHashes(seen: set<Vote>) returns (hashes: set<Hash>)
    ensures forall h :: h in hashes <==> |Supporters(seen, h)| > 0
  {
    hashes := set v | v in seen && v.pkh in Supporters(seen, v.hash) :: v.hash;
    forall h | |Supporters(seen, h)| > 0
      ensures h in hashes
    {
      var p :| p in Supporters(seen, h);
      var v :| v in seen && v.hash == h && v.pkh == p;
      assert v.pkh in Supporters(seen, v.hash);
    }
  }

  /** An order in which `h`, if it is supported, comes last. */
  lemma OrderEndingIn(seen: set<Vote>, h: Hash) returns (order: seq<Hash>)
    ensures Visits(order, seen)
    ensures |Supporters(seen, h)| > 0 ==> order != [] && order[|order| - 1] == h
  {
    var hashes := SupportedHashes(seen);
    var init := SomeOrder(hashes - {h});
    order := if h in hashes then init + [h] else init;
    assert forall g :: g in init ==> g in order;
  }

  /** Every answer that is true of the votes is given in some order. */
  lemma DecisionIsAnswer(committee: set<Pkh>, local: Hash, seen: set<Vote>, r: SuperBlockConsensus)
    returns (order: seq<Hash>)
    requires Within(seen, committee) && Decides(r, committee, local, seen)
    ensures Visits(order, seen) && Answer(committee, local, seen, order) == r
  {
    var top := if r.Different? then r.hash else local;
    order := OrderEndingIn(seen, top);
    AnswerDecides(committee, local, seen, order);
    if committee != {} {
      if r.SameAsLocal? || r.Different? {
        VisitedLast(order[..|order| - 1], seen, top);
        assert order == order[..|order| - 1] + [top];
      } else {
        NotElected(committee, local, seen, r, Answer(committee, local, seen, order));
      }
    }
  }

  /** With nobody elected there is one true answer. */
  lemma NotElected(committee: set<Pkh>, local: Hash, seen: set<Vote>, r: SuperBlockConsensus, s: SuperBlockConsensus)
    requires committee != {} && Within(seen, committee) && (r.Unknown? || r.NoConsensus?)
    requires Decides(r, committee, local, seen) && Decides(s, committee, local, seen)
    ensures r == s
  {
    if s.SameAsLocal? || s.Different? {
      var h := if s.SameAsLocal? then local else s.hash;
      SupportersArePotential(seen, committee, h);
      assert false;
    }
  }

  /**
   * The order in which `most_voted_superblock` visits the hashes can change the answer exactly
   * for committees of 2 or 4 members.
   */
  lemma AnswerIsUniqueIff(committee: set<Pkh>)
    ensures (forall seen, local, a, b | Within(seen, committee) && Visits(a, seen) && Visits(b, seen) ::
               Answer(committee, local, seen, a) == Answer(committee, local, seen, b))
       <==> |committee| != 2 && |committee| != 4
  {
    hide Answer, Visits;
    if |committee| == 2 || |committee| == 4 {
      var seen := EvenSplit(committee);
      var a := DecisionIsAnswer(committee, 0, seen, SameAsLocal);
      var b := DecisionIsAnswer(committee, 0, seen, Different(1));
      assert Answer(committee, 0, seen, a) != Answer(committee, 0, seen, b);
    } else {
      forall seen, local, a, b | Within(seen, committee) && Visits(a, seen) && Visits(b, seen)
        ensures Answer(committee, local, seen, a) == Answer(committee, local, seen, b)
      {
        AnswerDecides(committee, local, seen, a);
        AnswerDecides(committee, local, seen, b);
        SameAnswer(committee, local, seen, Answer(committee, local, seen, a), Answer(committee, local, seen, b));
      }
    }
  }

  lemma EvenSplit(committee: set<Pkh>) returns (seen: set<Vote>)
    requires |committee| == 2 || |committee| == 4
    ensures Within(seen, committee)
    ensures Decides(SameAsLocal, committee, 0, seen) && Decides(Different(1), committee, 0, seen)
  {
    var left := SubsetOfSize(committee, |committee| / 2);
    var right := committee - left;
    assert committee == left + right;
    seen := SplitVote(left, right, 0);
    forall g ensures |Supporters(seen, g)| <= |left| {
      assert g == 0 || g == 1 || g > 1;
    }
    assert Elected(seen, committee, 0) && Elected(seen, committee, 1);
  }

  lemma SameAnswer(committee: set<Pkh>, local: Hash, seen: set<Vote>, r: SuperBlockConsensus, s: SuperBlockConsensus)
    requires Within(seen, committee) && |committee| != 2 && |committee| != 4
    requires Decides(r, committee, local, seen) && Decides(s, committee, local, seen)
    ensures r == s
  {
    if committee != {} {
      if r.Unknown? || r.NoConsensus? {
        NotElected(committee, local, seen, r, s);
      } else if s.Unknown? || s.NoConsensus? {
        NotElected(committee, local, seen, s, r);
      } else {
        ElectedOnce(seen, committee, if r.SameAsLocal? then local else r.hash, if s.SameAsLocal? then local else s.hash);
      }
    }
  }
}
