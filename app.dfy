/** The poll screen's session state and its vote handler. */
module App {
  import opened Types
  import opened PollWindow
  import opened Ledger
  import opened VotingCard

  /** The identity used when the page is not opened inside the chat platform. */
  const FALLBACK_USER: User := User("test_user_1", "Test User")

  /**
   * The screen's state: the (possibly simulated) clock, the acting colleague and
   * the ledger. Each field is replaced wholesale, as the screen's state setters do.
   */
  class PollSession {
    var currentTime: Instant
    var currentUser: User
    var votes: seq<VoteRecord>

    ghost predicate Valid()
      reads this
    {
      WellFormed(votes)
    }

    /** A fresh session: the clock at `startTime`, the fallback user, the demonstration ledger. */
    constructor (startTime: Instant, loadedAt: int)
      ensures Valid()
      ensures currentTime == startTime && currentUser == FALLBACK_USER
      ensures votes == MockInitialVotes(loadedAt)
    {
      currentTime := startTime;
      currentUser := FALLBACK_USER;
      votes := MockInitialVotes(loadedAt);
    }

    /** Whether the window is open at the session clock, 08:30 through 10:30. */
    function IsPollOpen(): (open: bool)
      reads this
      ensures open <==> (currentTime.hours == 8 && 30 <= currentTime.minutes) || currentTime.hours == 9
                        || (currentTime.hours == 10 && currentTime.minutes <= 30)
    {
      IsTimeInRange(currentTime)
    }

    /** The acting colleague's record, if they have voted. */
    function CurrentUserVote(): (r: Option<VoteRecord>)
      reads this
      ensures r.None? <==> forall k :: 0 <= k < |votes| ==> votes[k].userId != currentUser.id
      ensures r.Some? ==> exists i :: 0 <= i < |votes| && votes[i] == r.value && r.value.userId == currentUser.id
                            && forall k :: 0 <= k < i ==> votes[k].userId != currentUser.id
      ensures Valid() ==> forall k :: 0 <= k < |votes| && votes[k].userId == currentUser.id ==> r == Some(votes[k])
    {
      Find(votes, currentUser.id)
    }

    /**
     * The vote handler: nothing outside the window; otherwise the ledger is searched
     * for the acting colleague, and their record is appended, rewritten or kept.
     * What the voting card offers for this session decides the effect: an offered
     * option is recorded, and with nothing offered the ledger stays as it was.
     */
    method HandleVote(option: VoteOption)
      requires Valid()
      modifies this`votes
      ensures Valid()
      ensures votes == HandleVoteStep(old(votes), currentUser, option, currentTime)
      ensures option in OfferedActions(old(IsPollOpen()), old(CurrentUserVote())) ==>
        votes != old(votes) && CurrentUserVote().Some? && CurrentUserVote().value.option == option
      ensures OfferedActions(old(IsPollOpen()), old(CurrentUserVote())) == {} ==> votes == old(votes)
    {
      if option in OfferedActions(IsPollOpen(), CurrentUserVote()) {
        OfferedActionTakesEffect(votes, currentUser, option, currentTime);
      }
      if OfferedActions(IsPollOpen(), CurrentUserVote()) == {} {
        NoOfferMeansNoEffect(votes, currentUser, option, currentTime);
      }
      if !IsTimeInRange(currentTime) {
        return;
      }
      CastOrRevisePreservesWellFormed(votes, currentUser, option, currentTime.millis);
      var existingIndex := FindIndex(votes, currentUser.id);
      if existingIndex >= 0 {
        var existingVote := votes[existingIndex];
        if existingVote.changesMade >= 1 {
          return;
        }
        var updatedVote := existingVote.(option := option, timestamp := currentTime.millis,
                                         changesMade := existingVote.changesMade + 1);
        votes := votes[existingIndex := updatedVote];
      } else {
        var newVote := VoteRecord(currentUser.id, currentUser.name, option, currentTime.millis, 0);
        votes := votes + [newVote];
      }
    }

    /** Moving the simulated clock, or resetting it to the real time. */
    method SetCurrentTime(t: Instant)
      requires Valid()
      modifies this`currentTime
      ensures Valid()
      ensures currentTime == t
    {
      currentTime := t;
    }

    /** Installing the identity the chat platform reports. */
    method SetCurrentUser(u: User)
      requires Valid()
      modifies this`currentUser
      ensures Valid()
      ensures currentUser == u
    {
      currentUser := u;
    }
  }
}
