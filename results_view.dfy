/** The results view: the Yes/No counts, the list of who is going, and the empty state. */
module ResultsView {
  import opened Types
  import opened Ledger

  /** `votes.filter(v => v.option === o)`: the records with answer `o`, in ledger order. */
  function Matching(votes: seq<VoteRecord>, o: VoteOption): (r: seq<VoteRecord>)
    ensures |r| <= |votes|
    ensures forall k :: 0 <= k < |r| ==> r[k].option == o
    ensures forall k :: 0 <= k < |votes| && votes[k].option == o ==> votes[k] in r
    ensures forall k :: 0 <= k < |r| ==> r[k] in votes
    decreases |votes|
  {
    if |votes| == 0 then []
    else
      var last := votes[|votes| - 1];
      Matching(votes[..|votes| - 1], o) + (if last.option == o then [last] else [])
  }

  /** Filtering keeps order: filtering a concatenation concatenates the filtered parts. */
  lemma {:induction false} MatchingConcat(a: seq<VoteRecord>, b: seq<VoteRecord>, o: VoteOption)
    ensures Matching(a + b, o) == Matching(a, o) + Matching(b, o)
    decreases |b|
  {
    if |b| == 0 {
      assert a + b == a;
    } else {
      var b' := b[..|b| - 1];
      assert (a + b)[..|a + b| - 1] == a + b';
      MatchingConcat(a, b', o);
    }
  }

  /** The positions of the records with answer `o`. */
  function PositionsOf(votes: seq<VoteRecord>, o: VoteOption): set<int>
  {
    set k | 0 <= k < |votes| && votes[k].option == o
  }

  /** Extending the ledger by one record adds its position when it holds the answer. */
  lemma PositionsOfSnoc(votes: seq<VoteRecord>, o: VoteOption)
    requires |votes| > 0
    ensures var n := |votes| - 1;
      |PositionsOf(votes, o)| == |PositionsOf(votes[..n], o)| + if votes[n].option == o then 1 else 0
  {
    var n := |votes| - 1;
    var before := PositionsOf(votes[..n], o);
    var here := if votes[n].option == o then {n} else {};
    assert PositionsOf(votes, o) == before + here by {
      forall k | k in PositionsOf(votes, o)
        ensures k in before + here
      {
        if k < n { assert votes[..n][k] == votes[k]; }
      }
    }
    assert n !in before;
  }

  /** The filtered list has one entry per position holding that answer. */
  lemma {:induction false} MatchingCountsPositions(votes: seq<VoteRecord>, o: VoteOption)
    ensures |Matching(votes, o)| == |PositionsOf(votes, o)|
    decreases |votes|
  {
    if |votes| > 0 {
      MatchingCountsPositions(votes[..|votes| - 1], o);
      PositionsOfSnoc(votes, o);
    }
  }

  /** Every record is counted as exactly one of Yes and No. */
  lemma {:induction false} YesNoPartition(votes: seq<VoteRecord>)
    ensures |Matching(votes, Yes)| + |Matching(votes, No)| == |votes|
    decreases |votes|
  {
    if |votes| > 0 {
      YesNoPartition(votes[..|votes| - 1]);
    }
  }

  /** The chart data: how many are having lunch and how many are skipping. */
  datatype Stats = Stats(yes: nat, no: nat)

  function ComputeStats(votes: seq<VoteRecord>): (s: Stats)
    ensures s.yes == |PositionsOf(votes, Yes)| && s.no == |PositionsOf(votes, No)|
    ensures s.yes + s.no == |votes|
  {
    MatchingCountsPositions(votes, Yes);
    MatchingCountsPositions(votes, No);
    YesNoPartition(votes);
    Stats(|Matching(votes, Yes)|, |Matching(votes, No)|)
  }

  /** Who is going: the Yes records in ledger order; the heading shows their number. */
  function Attendees(votes: seq<VoteRecord>): (a: seq<VoteRecord>)
    ensures |a| == ComputeStats(votes).yes
    ensures forall k :: 0 <= k < |a| ==> a[k].option == Yes && a[k] in votes
    ensures forall k :: 0 <= k < |votes| && votes[k].option == Yes ==> votes[k] in a
  {
    Matching(votes, Yes)
  }

  /** What the view renders: a placeholder for an empty ledger, the results otherwise. */
  datatype View = NoVotesYet | LiveResults(stats: Stats, attendees: seq<VoteRecord>)

  function Render(votes: seq<VoteRecord>): (v: View)
    ensures v.NoVotesYet? <==> |votes| == 0
    ensures v.LiveResults? ==> v.stats.yes + v.stats.no == |votes| && |v.attendees| == v.stats.yes
    ensures v.LiveResults? ==> v.stats.yes == |PositionsOf(votes, Yes)| && v.stats.no == |PositionsOf(votes, No)|
    ensures v.LiveResults? ==> v.attendees == Matching(votes, Yes)
  {
    if |votes| == 0 then NoVotesYet
    else LiveResults(ComputeStats(votes), Attendees(votes))
  }

  /** With unique ids, the records are as many as the distinct colleagues who voted. */
  lemma {:induction false} DistinctVoters(votes: seq<VoteRecord>)
    requires UniqueIds(votes)
    ensures |set k | 0 <= k < |votes| :: votes[k].userId| == |votes|
    decreases |votes|
  {
    if |votes| > 0 {
      var n := |votes| - 1;
      var init := votes[..n];
      assert UniqueIds(init);
      DistinctVoters(init);
      var ids := set k | 0 <= k < |votes| :: votes[k].userId;
      var initIds := set k | 0 <= k < n :: init[k].userId;
      assert ids == initIds + {votes[n].userId};
      assert votes[n].userId !in initIds;
    }
  }

  /** For every ledger reached from the seed by votes, the two counts add up to the number of distinct voters. */
  lemma TallyCountsVoters(loadedAt: int, actions: seq<Action>)
    ensures var v := Replay(MockInitialVotes(loadedAt), actions);
      ComputeStats(v).yes + ComputeStats(v).no == |set k | 0 <= k < |v| :: v[k].userId|
  {
    ReachableFromSeedIsWellFormed(loadedAt, actions);
    DistinctVoters(Replay(MockInitialVotes(loadedAt), actions));
  }

  /** The demonstration ledger: two going (Sarah, then Emily), one skipping. */
  lemma SeedResults(loadedAt: int)
    ensures var votes := MockInitialVotes(loadedAt);
      ComputeStats(votes) == Stats(2, 1)
      && Attendees(votes) == [votes[0], votes[2]]
      && Attendees(votes)[0].userName == "Sarah" && Attendees(votes)[1].userName == "Emily"
  {
    var votes := MockInitialVotes(loadedAt);
    assert votes[..2][..1] == [votes[0]];
    assert votes[..2] == [votes[0], votes[1]];
  }
}
