/**
 * The vote ledger: the lookup of the current user's record, the updater that the
 * poll screen hands to its state setter, the window gate in front of it, and the
 * invariants they keep.
 */
module Ledger {
  import opened Types
  import opened PollWindow

  /** No two records belong to the same colleague. */
  predicate UniqueIds(votes: seq<VoteRecord>)
  {
    forall i, j :: 0 <= i < j < |votes| ==> votes[i].userId != votes[j].userId
  }

  /** Nobody has changed a vote more than once. */
  predicate RevisionsBounded(votes: seq<VoteRecord>)
  {
    forall k :: 0 <= k < |votes| ==> votes[k].changesMade <= 1
  }

  /** The invariant of every ledger the poll screen can reach. */
  predicate WellFormed(votes: seq<VoteRecord>)
  {
    UniqueIds(votes) && RevisionsBounded(votes)
  }

  /** The position of the first record of `id`, as `findIndex` computes it. */
  function FirstIndex(votes: seq<VoteRecord>, id: string): (r: Option<nat>)
    ensures r.None? <==> forall k :: 0 <= k < |votes| ==> votes[k].userId != id
    ensures r.Some? ==> r.value < |votes| && votes[r.value].userId == id
    ensures r.Some? ==> forall k :: 0 <= k < r.value ==> votes[k].userId != id
  {
    if |votes| == 0 then None
    else if votes[0].userId == id then Some(0)
    else match FirstIndex(votes[1..], id)
      case None => None
      case Some(j) => Some(j + 1)
  }

  /** A record of `id` with none before it is the one `FirstIndex` finds. */
  lemma FirstIndexAt(votes: seq<VoteRecord>, id: string, i: nat)
    requires i < |votes| && votes[i].userId == id
    requires forall k :: 0 <= k < i ==> votes[k].userId != id
    ensures FirstIndex(votes, id) == Some(i)
  {
  }

  /** `votes.find(v => v.userId === id)`: the first record of `id`, if any. */
  function Find(votes: seq<VoteRecord>, id: string): (r: Option<VoteRecord>)
    ensures r.None? <==> forall k :: 0 <= k < |votes| ==> votes[k].userId != id
    ensures r.Some? ==> exists i :: 0 <= i < |votes| && votes[i] == r.value && r.value.userId == id
                          && forall k :: 0 <= k < i ==> votes[k].userId != id
  {
    match FirstIndex(votes, id)
    case None => None
    case Some(i) => Some(votes[i])
  }

  /** `prev.findIndex(v => v.userId === id)`: a linear search, -1 when there is no match. */
  method FindIndex(votes: seq<VoteRecord>, id: string) returns (i: int)
    ensures -1 <= i < |votes|
    ensures i < 0 ==> FirstIndex(votes, id) == None
    ensures 0 <= i ==> FirstIndex(votes, id) == Some(i)
  {
    i := 0;
    while i < |votes|
      invariant 0 <= i <= |votes|
      invariant forall k :: 0 <= k < i ==> votes[k].userId != id
    {
      if votes[i].userId == id {
        FirstIndexAt(votes, id, i);
        return;
      }
      i := i + 1;
    }
    i := -1;
  }

  /** The demonstration ledger the session starts from; `loadedAt` is the load time. */
  function MockInitialVotes(loadedAt: int): (votes: seq<VoteRecord>)
    ensures |votes| == 3 && WellFormed(votes)
    ensures forall k :: 0 <= k < |votes| ==> votes[k].changesMade == 0
  {
    [ VoteRecord("u2", "Sarah", Yes, loadedAt, 0),
      VoteRecord("u3", "Mike", No, loadedAt, 0),
      VoteRecord("u4", "Emily", Yes, loadedAt, 0) ]
  }

  /** The record appended for a colleague's first vote. */
  function NewVote(user: User, option: VoteOption, timestamp: int): (r: VoteRecord)
    ensures r.userId == user.id && r.userName == user.name
    ensures r.option == option && r.timestamp == timestamp
    ensures r.changesMade == 0
  {
    VoteRecord(user.id, user.name, option, timestamp, 0)
  }

  /** An existing record after a change: new option and time, one more change. */
  function Revised(existing: VoteRecord, option: VoteOption, timestamp: int): (r: VoteRecord)
    ensures r.userId == existing.userId && r.userName == existing.userName
    ensures r.option == option && r.timestamp == timestamp
    ensures r.changesMade == existing.changesMade + 1
  {
    existing.(option := option, timestamp := timestamp, changesMade := existing.changesMade + 1)
  }

  /**
   * The updater passed to the state setter: append a first vote, rewrite a record
   * that has not been changed yet, and leave a record that has been changed alone.
   * It never drops a record, never renames one and never touches another colleague's.
   */
  function CastOrRevise(prev: seq<VoteRecord>, user: User, option: VoteOption, timestamp: int)
    : (next: seq<VoteRecord>)
    ensures |prev| <= |next| <= |prev| + 1
    ensures forall k :: 0 <= k < |prev| ==> next[k].userId == prev[k].userId
    ensures forall k :: 0 <= k < |prev| && prev[k].userId != user.id ==> next[k] == prev[k]
    ensures forall k :: |prev| <= k < |next| ==> next[k].userId == user.id
  {
    match FirstIndex(prev, user.id)
    case Some(i) =>
      if prev[i].changesMade >= 1 then prev
      else prev[i := Revised(prev[i], option, timestamp)]
    case None => prev + [NewVote(user, option, timestamp)]
  }

  /**
   * A vote attempt at `now`: ignored outside the window, otherwise applied. The
   * ledger only ever changes while the window is open, and stays well-formed.
   */
  function HandleVoteStep(prev: seq<VoteRecord>, user: User, option: VoteOption, now: Instant)
    : (next: seq<VoteRecord>)
    ensures next != prev ==> IsTimeInRange(now)
    ensures WellFormed(prev) ==> WellFormed(next)
  {
    if !IsTimeInRange(now) then prev
    else
      CastOrRevisePreservesWellFormed(prev, user, option, now.millis);
      CastOrRevise(prev, user, option, now.millis)
  }

  /** Outside the window nothing changes, whoever votes and whatever they choose. */
  lemma ClosedWindowIsNoOp(prev: seq<VoteRecord>, user: User, option: VoteOption, now: Instant)
    requires !IsTimeInRange(now)
    ensures HandleVoteStep(prev, user, option, now) == prev
  {
  }

  /** A first vote adds exactly one record, at the end, unchanged count zero. */
  lemma FirstVoteAppends(prev: seq<VoteRecord>, user: User, option: VoteOption, timestamp: int)
    requires Find(prev, user.id) == None
    ensures var next := CastOrRevise(prev, user, option, timestamp);
      |next| == |prev| + 1 && next[..|prev|] == prev
      && next[|prev|] == VoteRecord(user.id, user.name, option, timestamp, 0)
  {
  }

  /** A vote by someone who already changed once leaves the ledger as it was. */
  lemma LockedVoteIsNoOp(prev: seq<VoteRecord>, user: User, option: VoteOption, timestamp: int)
    requires Find(prev, user.id).Some? && Find(prev, user.id).value.changesMade >= 1
    ensures CastOrRevise(prev, user, option, timestamp) == prev
  {
  }

  /**
   * A vote by someone who has not changed yet rewrites that one slot: same id and
   * name, the new option and time, one change used; every other slot stays.
   */
  lemma RevisionRewritesOneSlot(prev: seq<VoteRecord>, user: User, option: VoteOption, timestamp: int, i: nat)
    requires FirstIndex(prev, user.id) == Some(i) && prev[i].changesMade == 0
    ensures var next := CastOrRevise(prev, user, option, timestamp);
      |next| == |prev|
      && next[i].userId == prev[i].userId && next[i].userName == prev[i].userName
      && next[i].option == option && next[i].timestamp == timestamp && next[i].changesMade == 1
      && forall k :: 0 <= k < |prev| && k != i ==> next[k] == prev[k]
  {
  }

  /** Picking the same option again still uses up the one allowed change. */
  lemma SameOptionCountsAsChange(prev: seq<VoteRecord>, user: User, timestamp: int)
    requires Find(prev, user.id).Some? && Find(prev, user.id).value.changesMade == 0
    ensures var next := CastOrRevise(prev, user, Find(prev, user.id).value.option, timestamp);
      next != prev && Find(next, user.id).Some? && Find(next, user.id).value.changesMade == 1
  {
    var i := FirstIndex(prev, user.id).value;
    var next := CastOrRevise(prev, user, prev[i].option, timestamp);
    assert next[i].changesMade == 1;
    FirstIndexAt(next, user.id, i);
  }

  /** Looking up anyone but the voter gives the same answer before and after. */
  lemma FindOtherUnchanged(prev: seq<VoteRecord>, user: User, option: VoteOption, timestamp: int, id: string)
    requires id != user.id
    ensures Find(CastOrRevise(prev, user, option, timestamp), id) == Find(prev, id)
  {
    var next := CastOrRevise(prev, user, option, timestamp);
    match FirstIndex(prev, id)
    case Some(i) =>
      FirstIndexAt(next, id, i);
    case None =>
      assert forall k :: 0 <= k < |next| ==> next[k].userId != id by {
        forall k | 0 <= k < |next|
          ensures next[k].userId != id
        {
          if k < |prev| { assert next[k].userId == prev[k].userId; }
        }
      }
  }

  /** The updater keeps ids unique and every change count at most one. */
  lemma CastOrRevisePreservesWellFormed(prev: seq<VoteRecord>, user: User, option: VoteOption, timestamp: int)
    ensures WellFormed(prev) ==> WellFormed(CastOrRevise(prev, user, option, timestamp))
  {
    var next := CastOrRevise(prev, user, option, timestamp);
    match FirstIndex(prev, user.id)
    case Some(i) =>
      assert |next| == |prev|;
    case None =>
      assert forall k :: 0 <= k < |prev| ==> prev[k].userId != user.id;
      assert next == prev + [NewVote(user, option, timestamp)];
  }

  /**
   * Where a colleague stands: 0 before voting, 1 after the first vote,
   * 1 + changesMade afterwards (2 once the change is used).
   */
  function Stage(votes: seq<VoteRecord>, id: string): nat
  {
    match Find(votes, id)
    case None => 0
    case Some(r) => 1 + r.changesMade
  }

  /**
   * Per colleague the poll is the machine NoVote -> Voted(0) -> Voted(1): an
   * accepted vote advances the voter one stage until the last one, and leaves
   * every other colleague where they were.
   */
  lemma StageAdvances(prev: seq<VoteRecord>, user: User, option: VoteOption, timestamp: int, id: string)
    ensures var next := CastOrRevise(prev, user, option, timestamp);
      Stage(next, id) == if id != user.id || Stage(prev, id) >= 2 then Stage(prev, id) else Stage(prev, id) + 1
  {
    var next := CastOrRevise(prev, user, option, timestamp);
    if id != user.id {
      FindOtherUnchanged(prev, user, option, timestamp, id);
    } else {
      match FirstIndex(prev, id)
      case Some(i) =>
        FirstIndexAt(next, id, i);
      case None =>
        FirstIndexAt(next, id, |prev|);
    }
  }

  /** One `handleVote` call: who votes, what they pick, and when. */
  datatype Action = Action(user: User, option: VoteOption, at: Instant)

  /** The ledger after a series of `handleVote` calls, first call first. */
  function Replay(votes: seq<VoteRecord>, actions: seq<Action>): seq<VoteRecord>
    decreases |actions|
  {
    if |actions| == 0 then votes
    else Replay(HandleVoteStep(votes, actions[0].user, actions[0].option, actions[0].at), actions[1..])
  }

  /** Any series of votes keeps a well-formed ledger well-formed. */
  lemma {:induction false} ReplayPreservesWellFormed(votes: seq<VoteRecord>, actions: seq<Action>)
    requires WellFormed(votes)
    ensures WellFormed(Replay(votes, actions))
    decreases |actions|
  {
    if |actions| > 0 {
      var a := actions[0];
      if IsTimeInRange(a.at) {
        CastOrRevisePreservesWellFormed(votes, a.user, a.option, a.at.millis);
      }
      ReplayPreservesWellFormed(HandleVoteStep(votes, a.user, a.option, a.at), actions[1..]);
    }
  }

  /** From the demonstration ledger, every reachable ledger has unique ids and at most one change each. */
  lemma ReachableFromSeedIsWellFormed(loadedAt: int, actions: seq<Action>)
    ensures WellFormed(Replay(MockInitialVotes(loadedAt), actions))
  {
    ReplayPreservesWellFormed(MockInitialVotes(loadedAt), actions);
  }

  /** Once a colleague has changed their vote, no later vote by anyone alters their record. */
  lemma {:induction false} LockedStaysLocked(votes: seq<VoteRecord>, actions: seq<Action>, id: string)
    requires Find(votes, id).Some? && Find(votes, id).value.changesMade >= 1
    ensures Find(Replay(votes, actions), id) == Find(votes, id)
    decreases |actions|
  {
    if |actions| > 0 {
      var a := actions[0];
      var next := HandleVoteStep(votes, a.user, a.option, a.at);
      if IsTimeInRange(a.at) && a.user.id != id {
        FindOtherUnchanged(votes, a.user, a.option, a.at.millis, id);
      }
      assert Find(next, id) == Find(votes, id);
      LockedStaysLocked(next, actions[1..], id);
    }
  }

  /** The demonstration scenario: vote, change once, then be refused; a late vote is ignored. */
  lemma VotingScenario()
    ensures var alice := User("v1", "Alice");
      var s1 := HandleVoteStep([], alice, Yes, Instant(9, 0, 100));
      var s2 := HandleVoteStep(s1, alice, No, Instant(9, 10, 200));
      var s3 := HandleVoteStep(s2, alice, Yes, Instant(9, 20, 300));
      var late := HandleVoteStep(s3, User("v2", "Bob"), Yes, Instant(11, 0, 400));
      s1 == [VoteRecord("v1", "Alice", Yes, 100, 0)]
      && s2 == [VoteRecord("v1", "Alice", No, 200, 1)]
      && s3 == s2 && late == s3
  {
  }
}
