/** The voting card: which vote buttons it shows for the current user's record. */
module VotingCard {
  import opened Types
  import opened PollWindow
  import opened Ledger

  /** Whether the card still lets the user change: always before a first vote. */
  function CanChange(currentVote: Option<VoteRecord>): (r: bool)
    ensures currentVote.None? ==> r
    ensures !r <==> currentVote.Some? && currentVote.value.changesMade >= 1
  {
    match currentVote
    case None => true
    case Some(v) => v.changesMade < 1
  }

  /**
   * The options the card's buttons would submit: none while closed, Yes and No
   * before a first vote, the opposite of the current choice while a change is
   * left, none once the decision is locked.
   */
  function OfferedActions(isOpen: bool, currentVote: Option<VoteRecord>): (offered: set<VoteOption>)
    ensures !isOpen ==> offered == {}
    ensures offered != {} <==> isOpen && CanChange(currentVote)
    ensures currentVote.Some? ==> currentVote.value.option !in offered && |offered| <= 1
  {
    if !isOpen then {}
    else match currentVote
      case None => {Yes, No}
      case Some(v) => if CanChange(currentVote) then {Opposite(v.option)} else {}
  }

  /** Before a first vote, in the window, both answers are offered. */
  lemma NoVoteOffersBoth()
    ensures OfferedActions(true, None) == {Yes, No}
  {
  }

  /** With a change left, the only offer is the other answer; a locked vote gets none. */
  lemma ExistingVoteOffers(v: VoteRecord)
    ensures v.changesMade == 0 ==> OfferedActions(true, Some(v)) == {Opposite(v.option)}
    ensures v.changesMade >= 1 ==> OfferedActions(true, Some(v)) == {}
  {
  }

  /**
   * The card's gate and the handler's limit check agree: the card lets the user
   * change exactly when the updater would not refuse the vote and return the
   * ledger untouched.
   */
  lemma CanChangeAgreesWithUpdater(prev: seq<VoteRecord>, user: User, option: VoteOption, timestamp: int)
    ensures CanChange(Find(prev, user.id)) <==> CastOrRevise(prev, user, option, timestamp) != prev
  {
    var next := CastOrRevise(prev, user, option, timestamp);
    match FirstIndex(prev, user.id)
    case None =>
      assert |next| == |prev| + 1;
    case Some(i) =>
      if prev[i].changesMade == 0 {
        assert next[i].changesMade != prev[i].changesMade;
      }
  }

  /** Pressing any button the card shows is accepted and records that answer. */
  lemma OfferedActionTakesEffect(prev: seq<VoteRecord>, user: User, o: VoteOption, now: Instant)
    requires o in OfferedActions(IsTimeInRange(now), Find(prev, user.id))
    ensures var next := HandleVoteStep(prev, user, o, now);
      next != prev && Find(next, user.id).Some? && Find(next, user.id).value.option == o
  {
    CanChangeAgreesWithUpdater(prev, user, o, now.millis);
    var next := CastOrRevise(prev, user, o, now.millis);
    match FirstIndex(prev, user.id)
    case None =>
      FirstIndexAt(next, user.id, |prev|);
    case Some(i) =>
      FirstIndexAt(next, user.id, i);
  }

  /** When the card offers nothing, no vote of that user has any effect. */
  lemma NoOfferMeansNoEffect(prev: seq<VoteRecord>, user: User, o: VoteOption, now: Instant)
    requires OfferedActions(IsTimeInRange(now), Find(prev, user.id)) == {}
    ensures HandleVoteStep(prev, user, o, now) == prev
  {
    if IsTimeInRange(now) {
      CanChangeAgreesWithUpdater(prev, user, o, now.millis);
    }
  }
}
