/** The entities shared by the poll screen, the voting card and the results view. */
module Types {

  /** An optional value: the result of `find` when nothing matches. */
  datatype Option<+T> = None | Some(value: T)

  /** The two answers to the lunch poll. */
  datatype VoteOption = Yes | No

  /** The answer a "Switch to ..." button offers in place of the current one. */
  function Opposite(o: VoteOption): (p: VoteOption)
    ensures p != o
    ensures o == Yes <==> p == No
  {
    if o == Yes then No else Yes
  }

  /** The acting colleague, as supplied by the hosting chat platform or the fallback identity. */
  datatype User = User(id: string, name: string)

  /**
   * One row of the ledger. `timestamp` is the epoch time of the last accepted vote,
   * `changesMade` the number of times the colleague changed an earlier vote.
   */
  datatype VoteRecord = VoteRecord(
    userId: string,
    userName: string,
    option: VoteOption,
    timestamp: int,
    changesMade: nat)
}
